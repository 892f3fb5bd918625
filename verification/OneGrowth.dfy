/** When one growth is enough: the exact condition under which the convergence bound of one holds. */
module OneGrowth {
  import opened Growth
  import opened Options
  import opened Pilot
  import opened VolumeRuns
  import opened Convergence

  /** A steady pass at `now` that finds `v` and whose resize, if any, brings it to `n` GB. */
  function Passing(v: Volume, n: int, now: real, used: real): Input {
    Input(true, true, Some("volume"), Ext, true, Some("token"), v.cloud, v.block, true, map[], [], {},
          now, used, true, Done(n as real), true, now, true, 0.0, 0.0, now)
  }

  /** A volume of `n` GB of which files can fill the share `usable`. */
  function Fresh(n: int, usable: real): Volume {
    Volume(n, n, n as real, n as real, 1.0, usable)
  }

  /** An unsettled, unthrottled steady pass can happen, and grows the volume. */
  lemma UnsettledGrows(cfg: Config, s: State, now: real, used: real)
    requires Sensible(cfg) && !cfg.dryRun && Calm(s, used) && !Settled(cfg, s.volume, used)
    requires 0.0 <= now && now - s.lastGrowAttempt >= GROW_RETRY_SECONDS
    ensures var n := NewGb(cfg, s.volume.cloud, used, 0.0);
            var i := Passing(s.volume, n, now, used);
            && Steady(i, used) && Fits(cfg, s, i) && Grows(cfg, s, i)
            && Calm(Pass(cfg, s, i), used) && Pass(cfg, s, i).volume == Sized(s.volume, n)
            && Pass(cfg, s, i).lastGrowAttempt == now
  {
    var i := Passing(s.volume, NewGb(cfg, s.volume.cloud, used, 0.0), now, used);
    UnsettledAsks(cfg, s, now, used);
    SteadyPass(cfg, s, i, used);
    PassAttempt(cfg, s, i);
  }

  lemma UnsettledAsks(cfg: Config, s: State, now: real, used: real)
    requires Sensible(cfg) && Calm(s, used) && !Settled(cfg, s.volume, used)
    requires 0.0 <= now && now - s.lastGrowAttempt >= GROW_RETRY_SECONDS
    ensures var n := NewGb(cfg, s.volume.cloud, used, 0.0);
            var i := Passing(s.volume, n, now, used);
            Steady(i, used) && Fits(cfg, s, i) && Request(cfg, s, i) == Some(n)
  {
    var n := NewGb(cfg, s.volume.cloud, used, 0.0);
    var i := Passing(s.volume, n, now, used);
    NewGbIsLeast(cfg, s.volume.cloud, used, 0.0);
    SteadyRequest(cfg, s, i, used);
    PassingFits(cfg, s, i);
  }

  lemma PassingFits(cfg: Config, s: State, i: Input)
    requires cfg.target != 0.0 && Possible(s, i) && i.resize.Done? && Request(cfg, s, i).Some?
    requires i.cloud == s.volume.cloud && i.block == s.volume.block
    requires BeforeGrowth(cfg, s, i).volume == s.volume
    requires i.resize.seen == Request(cfg, s, i).value as real && s.volume.block <= i.resize.seen
    ensures Fits(cfg, s, i)
  {
  }

  /** An autopilot that remembers nothing yet. */
  function Beginning(v: Volume): State {
    State([], map[], 0.0, None, [], v, map[])
  }

  lemma BeginningIsCalm(size: int, usable: real, used: real)
    requires 0.0 < usable <= 1.0 && size >= 1 && 0.0 <= used <= usable * size as real
    ensures Calm(Beginning(Fresh(size, usable)), used)
  {
  }

  /** A volume that is unsettled before and after its first growth grows twice. */
  lemma GrowsTwice(cfg: Config, size: int, usable: real, used: real) returns (s: State, inputs: seq<Input>)
    requires Sensible(cfg) && !cfg.dryRun && 0.0 < usable <= 1.0 && size >= 1 && 0.0 <= used <= usable * size as real
    requires !Settled(cfg, Fresh(size, usable), used)
    requires !Settled(cfg, Fresh(NewGb(cfg, size, used, 0.0), usable), used)
    ensures SteadyRun(cfg, s, inputs, used) && s.volume == Fresh(size, usable) && Growths(cfg, s, inputs) == 2
  {
    var n := NewGb(cfg, size, used, 0.0);
    s := Beginning(Fresh(size, usable));
    BeginningIsCalm(size, usable, used);
    UnsettledGrows(cfg, s, 600.0, used);
    var first := Passing(s.volume, n, 600.0, used);
    var s1 := Pass(cfg, s, first);
    UnsettledGrows(cfg, s1, 1200.0, used);
    var second := Passing(s1.volume, NewGb(cfg, n, used, 0.0), 1200.0, used);
    inputs := [first, second];
    TwoPasses(cfg, s, first, second);
  }

  lemma TwoPasses(cfg: Config, s: State, first: Input, second: Input)
    requires cfg.target != 0.0 && Fits(cfg, s, first) && Fits(cfg, Pass(cfg, s, first), second)
    requires first.last <= second.now
    requires Grows(cfg, s, first) && Grows(cfg, Pass(cfg, s, first), second)
    ensures Feasible(cfg, s, [first, second]) && Growths(cfg, s, [first, second]) == 2
  {
    var inputs := [first, second];
    assert inputs[..0] == [] && inputs[..1] == [first] && [first][..0] == [];
    assert Run(cfg, s, []) == s && Run(cfg, s, [first]) == Pass(cfg, s, first);
    assert FitsAt(cfg, s, inputs, 0) && FitsAt(cfg, s, inputs, 1);
    assert Growths(cfg, s, []) == 0 && Growths(cfg, s, [first]) == 1;
  }

  /** The reading of `used` GiB on a volume on which files can fill `room` GiB. */
  function Shown(used: real, room: real): real
    requires room > 0.0
  {
    Round1(used * 100.0 / room)
  }

  /** A reading at or above the threshold, of a volume that still may grow. */
  lemma FullIsUnsettled(cfg: Config, n: int, usable: real, used: real, room: real)
    requires Sensible(cfg) && n < cfg.maxGb && room == usable * n as real && room > 0.0
    requires Shown(used, room) >= cfg.growAt
    ensures !Settled(cfg, Fresh(n, usable), used)
  {
    var s := StatsOf(Fresh(n, usable), used);
    if used <= room {
      assert s.used + s.avail == room;
    } else {
      Overfull(n as real, usable, used);
    }
    assert UsageReason(cfg, s);
  }

  lemma Positive(a: real, b: real)
    requires a > 0.0 && b > 0.0
    ensures a * b > 0.0
  {
  }

  lemma QuotientIs(x: real, q: real, b: real)
    requires b > 0.0 && x == q * b
    ensures x / b == q
  {
    AtLeast(x, b, q);
    DivideBy(x, b, q);
    assert b * q == q * b;
  }

  /** A level that a growth to `n` GiB brings exactly to the target. */
  lemma AtTheTarget(target: real, usable: real, n: real, used: real)
    requires 0.0 < target && 0.0 < usable && n > 0.0 && used == target * n / 100.0
    ensures 0.0 <= used && used * 100.0 == target * n
    ensures usable * n > 0.0 && Shown(used, usable * n) == Round1(target / usable)
  {
    Positive(target, n);
    SameQuotient(target, usable, n);
  }

  /** A level that fills all but a two-thousandth of `n` GiB. */
  lemma AllButFull(usable: real, before: real, n: real, used: real)
    requires 0.0 < usable && n > 0.0 && 2000.0 * before == 1999.0 * n && used == usable * before
    ensures 0.0 <= used && usable * n > 0.0 && Shown(used, usable * n) == 100.0
  {
    Positive(usable, n);
    var room := usable * n;
    assert before == 0.9995 * n;
    assert usable * (0.9995 * n) == 0.9995 * room;
    QuotientIs(used * 100.0, 99.95, room);
    assert Round1(99.95) == 100.0;
  }

  /** A level that keeps a volume at the threshold after its growth from `before` to `n` GiB. */
  lemma StaysFull(cfg: Config, usable: real, before: real, n: real) returns (used: real)
    requires Sensible(cfg) && 0.0 < usable && n > 0.0 && 2000.0 * before == 1999.0 * n
    requires Round1(cfg.target / usable) >= cfg.growAt
    ensures 0.0 <= used <= usable * before && used * 100.0 <= cfg.target * n
    ensures usable * n > 0.0 && Shown(used, usable * n) >= cfg.growAt
  {
    if cfg.target * n / 100.0 <= usable * before {
      used := cfg.target * n / 100.0;
      AtTheTarget(cfg.target, usable, n, used);
    } else {
      used := usable * before;
      AllButFull(usable, before, n, used);
    }
  }

  lemma StaysFullAt(cfg: Config, usable: real, size: int, n: int) returns (used: real)
    requires Sensible(cfg) && 0.0 < usable && n > 0 && 2000.0 * size as real == 1999.0 * n as real
    requires Round1(cfg.target / usable) >= cfg.growAt
    ensures 0.0 <= used <= usable * size as real && used * 100.0 <= cfg.target * n as real
    ensures usable * n as real > 0.0 && Shown(used, usable * n as real) >= cfg.growAt
  {
    used := StaysFull(cfg, usable, size as real, n as real);
  }

  /** With less room the same level reads higher. */
  lemma SmallerIsFuller(used: real, small: real, large: real)
    requires 0.0 <= used && 0.0 < small <= large
    ensures Shown(used, small) >= Shown(used, large)
  {
    QuotientShrinks(used * 100.0, small, large);
    Round1Monotone(used * 100.0 / large, used * 100.0 / small);
  }

  lemma QuotientShrinks(x: real, a: real, b: real)
    requires 0.0 <= x && 0.0 < a <= b
    ensures x / b <= x / a
  {
    var q := x / b;
    assert x == q * b;
    if q < 0.0 {
      ScaleStrictly(q, 0.0, b);
    }
    ProductGrows(q, a, b);
    AtLeast(x, a, q);
  }

  lemma ProductGrows(q: real, a: real, b: real)
    requires 0.0 <= q && a <= b
    ensures q * a <= q * b
  {
    Scale(a, b, q);
  }

  /** For every ceiling, every steady run on such a volume with its reserve untouched grows it once at most. */
  ghost predicate OneIsEnough(cfg: Config, usable: real) {
    forall m: int, s: State, inputs: seq<Input>, used: real ::
      SteadyRun(cfg.(maxGb := m), s, inputs, used) && s.volume.usable == usable && Free(s.volume, used) >= 0.0 ==>
        Growths(cfg.(maxGb := m), s, inputs) <= 1
  }

  /**
   The convergence bound of one is exact in its premise: where one step makes room enough for MIN_FREE, a
   single growth is always enough if and only if the target reads below the threshold.
   */
  lemma OneGrowthExactly(cfg: Config, usable: real)
    requires Sensible(cfg) && !cfg.dryRun && 0.0 < usable <= 1.0 && cfg.minFree <= usable * cfg.minStep as real
    ensures OneIsEnough(cfg, usable) <==> Round1(cfg.target / usable) < cfg.growAt
  {
    if Round1(cfg.target / usable) < cfg.growAt {
      forall m: int, s: State, inputs: seq<Input>, used: real
        | SteadyRun(cfg.(maxGb := m), s, inputs, used) && s.volume.usable == usable && Free(s.volume, used) >= 0.0
        ensures Growths(cfg.(maxGb := m), s, inputs) <= 1
      {
        GrowsOnce(cfg.(maxGb := m), s, inputs, used);
      }
    } else {
      var m, s, inputs, used := NeedsTwo(cfg, usable);
      assert !(Growths(cfg.(maxGb := m), s, inputs) <= 1);
    }
  }

  lemma GrowsOnce(cfg: Config, s: State, inputs: seq<Input>, used: real)
    requires SteadyRun(cfg, s, inputs, used) && ShowsBelow(cfg, s.volume)
    requires cfg.minFree <= s.volume.usable * cfg.minStep as real && Free(s.volume, used) >= 0.0
    ensures Growths(cfg, s, inputs) <= 1
  {
    AtMostOne(cfg.minFree, StepRoom(cfg, s.volume));
    SteadyRunsConverge(cfg, s, inputs, used);
  }

  lemma AtMostOne(a: real, r: real)
    requires r > 0.0 && a <= r
    ensures Ceil(a / r) <= 1
  {
    DivideBy(a, r, 1.0);
    CeilMonotone(a / r, 1.0);
    CeilOfInt(1);
  }

  lemma TwoThousandSteps(step: int) returns (n: int)
    requires step >= 1
    ensures n % 10 == 0 && n - step >= 1 && 2000.0 * (n - step) as real == 1999.0 * n as real
  {
    n := 2000 * step;
  }

  lemma NeedsTwo(cfg: Config, usable: real) returns (m: int, s: State, inputs: seq<Input>, used: real)
    requires Sensible(cfg) && !cfg.dryRun && 0.0 < usable <= 1.0
    requires Round1(cfg.target / usable) >= cfg.growAt
    ensures SteadyRun(cfg.(maxGb := m), s, inputs, used) && s.volume.usable == usable && Free(s.volume, used) >= 0.0
    ensures Growths(cfg.(maxGb := m), s, inputs) == 2
  {
    var n := TwoThousandSteps(cfg.minStep);
    m := n + 1;
    used := StaysFullAt(cfg, usable, n - cfg.minStep, n);
    s, inputs := FullGrowsTwice(cfg.(maxGb := m), n - cfg.minStep, n, usable, used);
  }

  /** A level that still reads at the threshold after the growth from `size` to `n` GB asks for a second one. */
  lemma FullGrowsTwice(cfg: Config, size: int, n: int, usable: real, used: real)
    returns (s: State, inputs: seq<Input>)
    requires Sensible(cfg) && !cfg.dryRun && 0.0 < usable <= 1.0
    requires 1 <= size && n == size + cfg.minStep && n % 10 == 0 && n < cfg.maxGb
    requires 0.0 <= used <= usable * size as real && used * 100.0 <= cfg.target * n as real
    requires usable * n as real > 0.0 && Shown(used, usable * n as real) >= cfg.growAt
    ensures SteadyRun(cfg, s, inputs, used) && s.volume == Fresh(size, usable) && Growths(cfg, s, inputs) == 2
    ensures Free(s.volume, used) >= 0.0
  {
    GrowsTo(cfg, size, used, n);
    BothUnsettled(cfg, size, n, usable, used);
    s, inputs := GrowsTwice(cfg, size, usable, used);
    RoomIsFree(size, usable, used);
  }

  lemma RoomIsFree(size: int, usable: real, used: real)
    requires used <= usable * size as real
    ensures Free(Fresh(size, usable), used) >= 0.0
  {
  }

  lemma BothUnsettled(cfg: Config, size: int, n: int, usable: real, used: real)
    requires Sensible(cfg) && 0.0 < usable && 1 <= size <= n < cfg.maxGb && 0.0 <= used
    requires usable * n as real > 0.0 && Shown(used, usable * n as real) >= cfg.growAt
    ensures !Settled(cfg, Fresh(size, usable), used) && !Settled(cfg, Fresh(n, usable), used)
  {
    var small, large := usable * size as real, usable * n as real;
    Positive(usable, size as real);
    Scale(size as real, n as real, usable);
    SmallerIsFuller(used, small, large);
    FullIsUnsettled(cfg, size, usable, used, small);
    FullIsUnsettled(cfg, n, usable, used, large);
  }

  lemma GrowsTo(cfg: Config, size: int, used: real, n: int)
    requires Sensible(cfg) && n == size + cfg.minStep && n % 10 == 0 && n <= cfg.maxGb
    requires used * 100.0 <= cfg.target * n as real
    ensures NewGb(cfg, size, used, 0.0) == n
  {
    DivideBy(used * 100.0, cfg.target, n as real);
    var k := n / 10;
    assert n as real / 10.0 == k as real;
    CeilOfInt(k);
  }

  /** With GROW_AT 80 and TARGET 79.98 a growth from 90 to 100 GB still reads 80.0 per cent, and a second follows. */
  lemma TwoGrowthsHappen() returns (cfg: Config, s: State, inputs: seq<Input>)
    ensures Sensible(cfg) && cfg.growAt == 80.0 && cfg.target == 79.98 && cfg.minFree == 0.0
    ensures SteadyRun(cfg, s, inputs, 79.98) && s.volume.cloud == 90 && s.volume.usable == 1.0
    ensures Growths(cfg, s, inputs) == 2
  {
    cfg := Config(false, 80.0, 79.98, 0.0, 10, 200, 60.0, 0.0, 95.0);
    QuotientIs(7998.0, 79.98, 100.0);
    assert Shown(79.98, 1.0 * 100.0) == Round1(79.98) == 80.0;
    s, inputs := FullGrowsTwice(cfg, 90, 100, 1.0, 79.98);
  }
}
