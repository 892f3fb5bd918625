/** How the storage autopilot reads a volume, why it wants to grow it, and to what size. Sizes are in GiB. */
module Growth {
  /** The configuration; `minFree` is in GiB, `horizon` in minutes, the others in per cent or GB. */
  datatype Config = Config(dryRun: bool, growAt: real, target: real, minFree: real, minStep: int, maxGb: int,
                           horizon: real, rateGate: real, emergency: real)

  /** The settings the autopilot is meant to run with. */
  ghost predicate Sensible(cfg: Config) {
    && 0.0 < cfg.target < cfg.growAt <= 100.0 && cfg.minStep >= 1
    && 0.0 <= cfg.minFree && 0.0 <= cfg.horizon <= 60.0
  }

  /** `math.ceil` */
  function Ceil(x: real): (n: int)
    ensures x <= n as real < x + 1.0
  {
    -((-x).Floor)
  }

  lemma CeilMonotone(x: real, y: real)
    requires x <= y
    ensures Ceil(x) <= Ceil(y)
  {
    var n, m := Ceil(x), Ceil(y);
    assert n as real < m as real + 1.0;
  }

  lemma CeilOfInt(n: int)
    ensures Ceil(n as real) == n
  {
    var m := Ceil(n as real);
    assert n as real <= m as real < n as real + 1.0;
  }

  /** `round(x, 1)`: to the nearest tenth, a tie to the even one. */
  function Round1(x: real): real {
    var n := (x * 10.0).Floor;
    var d := x * 10.0 - n as real;
    (if d < 0.5 || (d == 0.5 && n % 2 == 0) then n as real else (n + 1) as real) / 10.0
  }

  lemma Round1Monotone(x: real, y: real)
    requires x <= y
    ensures Round1(x) <= Round1(y)
  {
    var n, m := (x * 10.0).Floor, (y * 10.0).Floor;
    assert n <= m;
  }

  /** What `fs_stats` reports, as far as decisions depend on it. */
  datatype Stats = Stats(used: real, avail: real) {
    /** `usedPercent` */
    function Percent(): real {
      if used + avail != 0.0 then Round1(used * 100.0 / (used + avail)) else 0.0
    }
  }

  /**
   The reading of a file system of `fs` GiB of which files can fill the share `usable`; the rest is reserved, and
   once root has written there nothing is available.
   */
  function Reading(fs: real, usable: real, used: real): Stats {
    var room := usable * fs;
    Stats(used, if used <= room then room - used else 0.0)
  }

  /** Beyond its room a file system reads full. */
  lemma Overfull(fs: real, usable: real, used: real)
    requires 0.0 < used && usable * fs < used
    ensures Reading(fs, usable, used).avail == 0.0 && Reading(fs, usable, used).Percent() == 100.0
  {
    DivideBy(used * 100.0, used, 100.0);
    AtLeast(used * 100.0, used, 100.0);
    assert Round1(100.0) == 100.0;
  }

  predicate UsageReason(cfg: Config, s: Stats) {
    s.Percent() >= cfg.growAt
  }

  predicate FreeReason(cfg: Config, s: Stats) {
    s.avail < cfg.minFree
  }

  predicate RateReason(cfg: Config, s: Stats, rate: real) {
    rate > 0.0 && s.avail / rate < cfg.horizon && s.Percent() >= cfg.rateGate
  }

  /** `reasons` is not empty. */
  predicate HasReason(cfg: Config, s: Stats, rate: real) {
    UsageReason(cfg, s) || FreeReason(cfg, s) || RateReason(cfg, s, rate)
  }

  function Max(a: real, b: real): real { if a >= b then a else b }

  function Wanted(cfg: Config, current: int, used: real, rate: real): real
    requires cfg.target != 0.0
  {
    var wanted := Max((current + cfg.minStep) as real, used * 100.0 / cfg.target);
    if rate > 0.0 then Max(wanted, (used + rate * 60.0) * 100.0 / cfg.target) else wanted
  }

  function Rounded(wanted: real): int {
    Ceil(wanted / 10.0) * 10
  }

  /** `new_gb` */
  function NewGb(cfg: Config, current: int, used: real, rate: real): int
    requires cfg.target != 0.0
  {
    var n := Rounded(Wanted(cfg, current, used, rate));
    if n <= cfg.maxGb then n else cfg.maxGb
  }

  ghost predicate Capped(cfg: Config, current: int, used: real, rate: real)
    requires cfg.target != 0.0
  {
    Rounded(Wanted(cfg, current, used, rate)) > cfg.maxGb
  }

  /**
   The new size is the least multiple of ten that meets all three wishes, the step, the target now and
   the target an hour from now, or else exactly the ceiling; below the ceiling it is a real growth.
   */
  lemma NewGbIsLeast(cfg: Config, current: int, used: real, rate: real)
    requires Sensible(cfg)
    ensures var n := NewGb(cfg, current, used, rate);
            && n <= cfg.maxGb
            && (Capped(cfg, current, used, rate) ==> n == cfg.maxGb)
            && (!Capped(cfg, current, used, rate) ==> n % 10 == 0 && Suits(cfg, current, used, rate, n))
            && (forall m: int :: m % 10 == 0 && Suits(cfg, current, used, rate, m) ==> n <= m)
            && (current < cfg.maxGb ==> n > current && (n >= current + cfg.minStep || n == cfg.maxGb))
  {
    var wanted := Wanted(cfg, current, used, rate);
    var n := Rounded(wanted);
    assert wanted <= n as real < wanted + 10.0;
    SuitsIsWanted(cfg, current, used, rate, n);
    forall m: int | m % 10 == 0 && Suits(cfg, current, used, rate, m) ensures n <= m {
      SuitsIsWanted(cfg, current, used, rate, m);
      assert n < m + 10;
    }
  }

  /** A size of `n` GB satisfies the step, the target, and the target after an hour at the present rate. */
  ghost predicate Suits(cfg: Config, current: int, used: real, rate: real, n: int) {
    && n >= current + cfg.minStep
    && used * 100.0 <= cfg.target * n as real
    && (rate > 0.0 ==> (used + rate * 60.0) * 100.0 <= cfg.target * n as real)
  }

  lemma SuitsIsWanted(cfg: Config, current: int, used: real, rate: real, n: int)
    requires Sensible(cfg)
    ensures Suits(cfg, current, used, rate, n) <==> Wanted(cfg, current, used, rate) <= n as real
  {
    DivideBy(used * 100.0, cfg.target, n as real);
    DivideBy((used + rate * 60.0) * 100.0, cfg.target, n as real);
  }

  lemma DivideBy(a: real, t: real, n: real)
    requires t > 0.0
    ensures a / t <= n <==> a <= t * n
  {
    assert a == (a / t) * t;
    Quotient(a, a / t, t, n);
  }

  lemma Quotient(a: real, q: real, t: real, n: real)
    requires t > 0.0 && a == q * t
    ensures q <= n <==> a <= t * n
  {
    if q <= n {
      Scale(q, n, t);
    } else {
      ScaleStrictly(n, q, t);
    }
  }

  lemma Scale(a: real, b: real, t: real)
    requires a <= b && t >= 0.0
    ensures a * t <= b * t
  {
    assert (b - a) * t >= 0.0;
  }

  lemma ScaleStrictly(a: real, b: real, t: real)
    requires a < b && t > 0.0
    ensures a * t < b * t
  {
    assert (b - a) * t > 0.0;
  }

  /**
   Growth serves its purpose: after an uncapped growth neither the usage reason nor the time-to-full reason
   holds, provided the target, seen through the usable share of the disk and rounded, is below the threshold.
   */
  lemma GrowthServesItsPurpose(cfg: Config, usable: real, current: int, used: real, rate: real)
    requires Sensible(cfg) && 0.0 < usable <= 1.0 && 0.0 <= used && 0 <= current
    requires !Capped(cfg, current, used, rate)
    requires Round1(cfg.target / usable) < cfg.growAt
    ensures var n := NewGb(cfg, current, used, rate) as real;
            && !UsageReason(cfg, Reading(n, usable, used)) && !RateReason(cfg, Reading(n, usable, used), rate)
            && (rate > 0.0 ==> !UsageReason(cfg, Reading(n, usable, used + 60.0 * rate)))
  {
    NewGbIsLeast(cfg, current, used, rate);
    var n := NewGb(cfg, current, used, rate);
    assert Suits(cfg, current, used, rate, n);
    TargetFits(cfg, usable);
    SuitableSize(cfg, usable, n as real, used, rate);
  }

  lemma SuitableSize(cfg: Config, usable: real, n: real, used: real, rate: real)
    requires Sensible(cfg) && 0.0 < usable <= 1.0 && n > 0.0
    requires Round1(cfg.target / usable) < cfg.growAt && cfg.target <= 100.0 * usable
    requires used * 100.0 <= cfg.target * n
    requires rate > 0.0 ==> (used + rate * 60.0) * 100.0 <= cfg.target * n
    ensures !UsageReason(cfg, Reading(n, usable, used)) && !RateReason(cfg, Reading(n, usable, used), rate)
    ensures rate > 0.0 ==> !UsageReason(cfg, Reading(n, usable, used + 60.0 * rate))
  {
    PercentAfter(cfg, usable, n, used);
    if rate > 0.0 {
      assert 60.0 * rate == rate * 60.0;
      PercentAfter(cfg, usable, n, used + rate * 60.0);
      RoomForAnHour(cfg.target, usable, n, used, rate);
    }
  }

  /** Filled to the target, a disk reads at most the target through its usable share. */
  lemma PercentAfter(cfg: Config, usable: real, n: real, used: real)
    requires Sensible(cfg) && 0.0 < usable <= 1.0 && n > 0.0
    requires used * 100.0 <= cfg.target * n && cfg.target <= 100.0 * usable
    ensures used <= usable * n && Reading(n, usable, used).Percent() <= Round1(cfg.target / usable)
  {
    var cap := usable * n;
    assert cap > 0.0;
    Scale(cfg.target, 100.0 * usable, n);
    assert (100.0 * usable) * n == 100.0 * cap;
    assert used + (cap - used) == cap;
    DivideBy(used * 100.0, cap, cfg.target / usable);
    assert cap * (cfg.target / usable) == n * (usable * (cfg.target / usable)) == n * cfg.target;
    Round1Monotone(used * 100.0 / cap, cfg.target / usable);
  }

  lemma TargetFits(cfg: Config, usable: real)
    requires Sensible(cfg) && 0.0 < usable && Round1(cfg.target / usable) < cfg.growAt
    ensures cfg.target <= 100.0 * usable
  {
    FromAHundred(cfg.target / usable);
    DivideBy(cfg.target, usable, 100.0);
  }

  lemma FromAHundred(x: real)
    ensures x >= 100.0 ==> Round1(x) >= 100.0
  {
    if x >= 100.0 {
      Round1Monotone(100.0, x);
      assert Round1(100.0) == 100.0;
    }
  }

  lemma RoomForAnHour(target: real, usable: real, n: real, used: real, rate: real)
    requires rate > 0.0 && n > 0.0 && target <= 100.0 * usable
    requires (used + rate * 60.0) * 100.0 <= target * n
    ensures (usable * n - used) / rate >= 60.0
  {
    Scale(target, 100.0 * usable, n);
    AtLeast(usable * n - used, rate, 60.0);
  }

  lemma AtLeast(a: real, r: real, m: real)
    requires r > 0.0 && a >= m * r
    ensures a / r >= m
  {
    var q := a / r;
    assert a == q * r;
    if q < m {
      ScaleStrictly(q, m, r);
    }
  }

  /**
   Rounding decides the border case: an uncapped growth ends the usage and the time-to-full reason for every
   volume, usage and rate exactly when the rounded target is below the threshold, given a ceiling that
   leaves room for any growth at all.
   */
  lemma PurposeExactly(cfg: Config, usable: real)
    requires Sensible(cfg) && 0.0 < usable <= 1.0 && Rounded(cfg.minStep as real) <= cfg.maxGb
    ensures Round1(cfg.target / usable) < cfg.growAt <==>
            forall current: int, used: real, rate: real ::
              0 <= current && 0.0 <= used && !Capped(cfg, current, used, rate) ==>
                Relieved(cfg, usable, current, used, rate)
  {
    if Round1(cfg.target / usable) < cfg.growAt {
      forall current: int, used: real, rate: real | 0 <= current && 0.0 <= used && !Capped(cfg, current, used, rate)
        ensures Relieved(cfg, usable, current, used, rate)
      {
        GrowthServesItsPurpose(cfg, usable, current, used, rate);
      }
    } else {
      var used := AtTheThreshold(cfg, usable);
      assert !Relieved(cfg, usable, 0, used, 0.0);
    }
  }

  /** A growth to the size asked for leaves neither the usage nor the time-to-full reason. */
  ghost predicate Relieved(cfg: Config, usable: real, current: int, used: real, rate: real)
    requires cfg.target != 0.0
  {
    var after := Reading(NewGb(cfg, current, used, rate) as real, usable, used);
    !UsageReason(cfg, after) && !RateReason(cfg, after, rate)
  }

  /** A usage that an uncapped growth brings exactly to the target, and that still asks for growth. */
  lemma AtTheThreshold(cfg: Config, usable: real) returns (used: real)
    requires Sensible(cfg) && 0.0 < usable <= 1.0 && Rounded(cfg.minStep as real) <= cfg.maxGb
    requires Round1(cfg.target / usable) >= cfg.growAt
    ensures 0.0 <= used && !Capped(cfg, 0, used, 0.0)
    ensures UsageReason(cfg, Reading(NewGb(cfg, 0, used, 0.0) as real, usable, used))
  {
    var n := Rounded(cfg.minStep as real);
    used := cfg.target * n as real / 100.0;
    assert used * 100.0 == cfg.target * n as real;
    DivideBy(used * 100.0, cfg.target, n as real);
    AtLeast(used * 100.0, cfg.target, n as real);
    assert Wanted(cfg, 0, used, 0.0) == n as real;
    assert n as real / 10.0 == Ceil(cfg.minStep as real / 10.0) as real;
    CeilOfInt(Ceil(cfg.minStep as real / 10.0));
    assert Rounded(n as real) == n;
    TargetIsThreshold(cfg, usable, n as real, used);
  }

  lemma TargetIsThreshold(cfg: Config, usable: real, n: real, used: real)
    requires Sensible(cfg) && 0.0 < usable && n > 0.0 && used * 100.0 == cfg.target * n
    requires Round1(cfg.target / usable) >= cfg.growAt
    ensures UsageReason(cfg, Reading(n, usable, used))
  {
    if used <= usable * n {
      PercentAtTarget(cfg.target, usable, n, used);
    } else {
      ScaleStrictly(0.0, cfg.target, n);
      Overfull(n, usable, used);
    }
  }

  lemma PercentAtTarget(target: real, usable: real, n: real, used: real)
    requires 0.0 < usable && n > 0.0 && used * 100.0 == target * n && used <= usable * n
    ensures Reading(n, usable, used).Percent() == Round1(target / usable)
  {
    SameQuotient(target, usable, n);
    var s := Reading(n, usable, used);
    assert s.used + s.avail == usable * n;
  }

  lemma SameQuotient(a: real, b: real, n: real)
    requires b > 0.0 && n > 0.0
    ensures b * n > 0.0 && (a * n) / (b * n) == a / b
  {
    assert (a / b) * (b * n) == (a / b) * b * n == a * n;
  }
}
