/** With a steady level and working resizes the storage autopilot comes to rest. */
module Convergence {
  import opened Growth
  import opened Options
  import opened Pilot
  import opened VolumeRuns
  import WriteRate

  /** A pass in which the level is `used`, the token is good and resize and extension work. */
  ghost predicate Steady(i: Input, used: real) {
    && i.mountFound && i.hasDevice && i.volumeId.Some? && i.token.Some? && i.tokenAnswer && i.fstype != OtherFs
    && i.used == used && i.resize.Done? && i.extendWorks && i.growExtendWorks
  }

  /** No resize is half done, nothing ever measured was below `used`, no bad verdict on the token is remembered. */
  ghost predicate Calm(s: State, used: real) {
    var v := s.volume;
    && Lawful(v) && v.fs == v.block == v.cloud as real && v.promised == v.cloud
    && 0.0 <= used
    && (forall x :: x in s.samples ==> x.used >= used)
    && (s.tokenCheck.Some? ==> s.tokenCheck.value.ok)
  }

  /** A volume whose provider, kernel and file system agree on `n` GB. */
  function Sized(v: Volume, n: int): Volume {
    v.(promised := n, cloud := n, block := n as real, fs := n as real)
  }

  /** There is nothing to do, or nothing that may be done. */
  ghost predicate Settled(cfg: Config, v: Volume, used: real) {
    !HasReason(cfg, StatsOf(v, used), 0.0) || v.cloud >= cfg.maxGb
  }

  lemma {:induction false} RecentIsPart(samples: seq<WriteRate.Sample>, now: real)
    ensures forall x :: x in WriteRate.Recent(samples, now) ==> x in samples
  {
    if samples != [] {
      RecentIsPart(samples[1..], now);
    }
  }

  /** A steady level shows no write rate. */
  lemma NoRate(s: State, i: Input, used: real)
    requires i.used == used && forall x :: x in s.samples ==> x.used >= used
    ensures RateSeen(s, i) == 0.0
    ensures forall x :: x in WriteRate.Keep(s.samples, WriteRate.Sample(i.now, used)) ==> x.used >= used
  {
    RecentIsPart(s.samples, i.now);
    var seen := WriteRate.Seen(s.samples, WriteRate.Sample(i.now, i.used));
    WriteRate.LevelHasNoRate(seen, i.now, used, 3);
  }

  /** The token's verdict is good, from the provider or from memory. */
  lemma GoodCredit(s: State, i: Input)
    requires i.token.Some? && i.volumeId.Some? && i.tokenAnswer && (s.tokenCheck.Some? ==> s.tokenCheck.value.ok)
    ensures CreditOf(s, i).0 == Checked(true) && (CreditOf(s, i).1.Some? ==> CreditOf(s, i).1.value.ok)
  {
  }

  /** What a calm, steady pass asks for. */
  lemma SteadyRequest(cfg: Config, s: State, i: Input, used: real)
    requires Sensible(cfg) && Calm(s, used) && Steady(i, used) && Possible(s, i)
    ensures Found(s, i) == s.volume == BeforeGrowth(cfg, s, i).volume
    ensures Request(cfg, s, i) ==
            if Settled(cfg, s.volume, used) || i.now - s.lastGrowAttempt < GROW_RETRY_SECONDS then None
            else Some(NewGb(cfg, s.volume.cloud, used, 0.0))
  {
    var b := BeforeGrowth(cfg, s, i);
    PassVolume(cfg, s, i);
    BeforeGrowthFrame(cfg, s, i);
    NoRate(b, i, used);
    GoodCredit(b, i);
    CeilOfInt(s.volume.cloud);
  }

  lemma SteadyVolume(cfg: Config, s: State, i: Input, used: real)
    requires Sensible(cfg) && !cfg.dryRun && Calm(s, used) && Steady(i, used) && Fits(cfg, s, i)
    ensures Pass(cfg, s, i).volume ==
            if Request(cfg, s, i).Some? then Sized(s.volume, Request(cfg, s, i).value) else s.volume
    ensures Request(cfg, s, i).Some? ==> Request(cfg, s, i).value > s.volume.cloud
  {
    SteadyRequest(cfg, s, i, used);
    PassVolume(cfg, s, i);
    RequestIsBounded(cfg, s, i);
    CeilOfInt(s.volume.cloud);
    if Request(cfg, s, i).Some? {
      WorkingGrowth(cfg, s.volume, Request(cfg, s, i).value, i);
    }
  }

  lemma WorkingGrowth(cfg: Config, v: Volume, n: int, i: Input)
    requires !cfg.dryRun && i.fstype != OtherFs && i.growExtendWorks && i.resize.Done?
    requires v.promised == v.cloud < n && ResizePossible(v, n, i.resize)
    ensures Grown(cfg, v, n, i) == Sized(v, n)
  {
  }

  /** A calm, steady pass ends calm, on a volume of the size asked for. */
  lemma SteadyPass(cfg: Config, s: State, i: Input, used: real)
    requires Sensible(cfg) && !cfg.dryRun && Calm(s, used) && Steady(i, used) && Fits(cfg, s, i)
    ensures Calm(Pass(cfg, s, i), used)
    ensures Pass(cfg, s, i).volume ==
            if Request(cfg, s, i).Some? then Sized(s.volume, Request(cfg, s, i).value) else s.volume
  {
    SteadyVolume(cfg, s, i, used);
    NoRate(s, i, used);
    GoodCredit(s, i);
    SteadyMemory(cfg, s, i);
    StaysCalm(s, Pass(cfg, s, i), used);
  }

  lemma StaysCalm(s: State, s': State, used: real)
    requires Calm(s, used)
    requires s'.volume == s.volume
             || (s'.volume == Sized(s.volume, s'.volume.cloud) && s'.volume.cloud > s.volume.cloud)
    requires forall x :: x in s'.samples ==> x.used >= used
    requires s'.tokenCheck.Some? ==> s'.tokenCheck.value.ok
    ensures Calm(s', used)
  {
    if s'.volume != s.volume {
      UsableGrows(s.volume.usable, s.volume.fs, s'.volume.fs);
    }
  }

  lemma SteadyMemory(cfg: Config, s: State, i: Input)
    requires cfg.target != 0.0 && i.mountFound
    ensures var p := Pass(cfg, s, i);
            && p.samples == WriteRate.Keep(s.samples, WriteRate.Sample(i.now, i.used))
            && p.tokenCheck == CreditOf(s, i).1
  {
    PassIsGrowStep(cfg, s, i);
    BeforeGrowthFrame(cfg, s, i);
    GrowStepFrame(cfg, BeforeGrowth(cfg, s, i), i);
  }

  lemma UsableGrows(usable: real, a: real, b: real)
    requires 0.0 < usable && a <= b
    ensures usable * a <= usable * b
  {
    Scale(a, b, usable);
  }

  /** What files can still fill, below zero where they have gone into the reserve. */
  function Free(v: Volume, used: real): real {
    v.usable * v.fs - used
  }

  /** How many growths are still needed at most. */
  ghost function Need(cfg: Config, v: Volume, used: real): nat
    requires Sensible(cfg) && Lawful(v)
  {
    if Settled(cfg, v, used) then 0
    else
      var missing := Ceil((cfg.minFree - Free(v, used)) / StepRoom(cfg, v));
      if missing <= 1 then 1 else missing
  }

  /** What one step adds to the room for files. */
  ghost function StepRoom(cfg: Config, v: Volume): (r: real)
    requires Sensible(cfg) && Lawful(v)
    ensures r > 0.0
  {
    Scale(1.0, cfg.minStep as real, v.usable);
    v.usable * cfg.minStep as real
  }

  /** Filled to the target, the volume reads below the threshold. */
  ghost predicate ShowsBelow(cfg: Config, v: Volume)
    requires Lawful(v)
  {
    Round1(cfg.target / v.usable) < cfg.growAt
  }

  /** A growth that is needed leaves fewer of them. */
  lemma GrowthReducesNeed(cfg: Config, v: Volume, used: real)
    requires Sensible(cfg) && Lawful(v) && v.fs == v.cloud as real && 0.0 <= used
    requires ShowsBelow(cfg, v)
    requires !Settled(cfg, v, used)
    ensures var w := Sized(v, NewGb(cfg, v.cloud, used, 0.0));
            Lawful(w) && Need(cfg, w, used) < Need(cfg, v, used)
  {
    var n := NewGb(cfg, v.cloud, used, 0.0);
    NewGbIsLeast(cfg, v.cloud, used, 0.0);
    if !Capped(cfg, v.cloud, used, 0.0) {
      GrowthServesItsPurpose(cfg, v.usable, v.cloud, used, 0.0);
      NeedFalls(cfg, v, n, used);
    }
  }

  lemma NeedFalls(cfg: Config, v: Volume, n: int, used: real)
    requires Sensible(cfg) && Lawful(v) && v.fs == v.cloud as real && n >= v.cloud + cfg.minStep
    requires !Settled(cfg, v, used)
    requires !UsageReason(cfg, StatsOf(Sized(v, n), used)) && !RateReason(cfg, StatsOf(Sized(v, n), used), 0.0)
    ensures Need(cfg, Sized(v, n), used) < Need(cfg, v, used)
  {
    var w := Sized(v, n);
    if !Settled(cfg, w, used) {
      UnsettledLacksRoom(cfg, w, used);
      MoreRoom(cfg, v, w, used);
    }
  }

  lemma UnsettledLacksRoom(cfg: Config, w: Volume, used: real)
    requires Sensible(cfg) && Lawful(w) && !Settled(cfg, w, used)
    requires !UsageReason(cfg, StatsOf(w, used)) && !RateReason(cfg, StatsOf(w, used), 0.0)
    ensures Free(w, used) < cfg.minFree
  {
    assert Free(w, used) <= StatsOf(w, used).avail < cfg.minFree;
  }

  lemma RoomGrows(usable: real, before: real, step: real, after: real)
    requires 0.0 < usable && after >= before + step
    ensures usable * after >= usable * before + usable * step
  {
    UsableGrows(usable, before + step, after);
    assert usable * (before + step) == usable * before + usable * step;
  }

  /** Each step of growth takes one off the missing count. */
  lemma MoreRoom(cfg: Config, v: Volume, w: Volume, used: real)
    requires Sensible(cfg) && Lawful(v) && Lawful(w) && w.usable == v.usable
    requires w.fs >= v.fs + cfg.minStep as real
    requires Free(w, used) < cfg.minFree
    ensures var r := StepRoom(cfg, v);
            && StepRoom(cfg, w) == r
            && 1 <= Ceil((cfg.minFree - Free(w, used)) / r)
               <= Ceil((cfg.minFree - Free(v, used)) / r) - 1
  {
    var r := StepRoom(cfg, v);
    var a, b := cfg.minFree - Free(v, used), cfg.minFree - Free(w, used);
    RoomGrows(v.usable, v.fs, cfg.minStep as real, w.fs);
    assert b <= a - r && b > 0.0;
    OneLess(a, b, r);
  }

  lemma OneLess(a: real, b: real, r: real)
    requires r > 0.0 && 0.0 < b <= a - r
    ensures 1 <= Ceil(b / r) <= Ceil(a / r) - 1
  {
    var p, q := a / r, b / r;
    assert b == q * r;
    if q <= 0.0 {
      Scale(q, 0.0, r);
    }
    OneStepLess(a, b, r);
    var m := Ceil(p);
    assert q <= (m - 1) as real;
    CeilMonotone(q, (m - 1) as real);
    CeilOfInt(m - 1);
  }

  lemma OneStepLess(a: real, b: real, r: real)
    requires r > 0.0 && b <= a - r
    ensures b / r <= a / r - 1.0
  {
    var p := a / r;
    assert p * r == a;
    assert r * (p - 1.0) == p * r - r;
    DivideBy(b, r, p - 1.0);
  }

  /** How many steps make room for MIN_FREE, and for what files hold of the reserve. */
  ghost function StepsToFree(cfg: Config, v: Volume, used: real): int
    requires Sensible(cfg) && Lawful(v)
  {
    var reserve := if Free(v, used) < 0.0 then -Free(v, used) else 0.0;
    Ceil((cfg.minFree + reserve) / StepRoom(cfg, v))
  }

  /** The need never exceeds that many steps, or one. */
  lemma NeedIsBounded(cfg: Config, s: State, used: real)
    requires Sensible(cfg) && Calm(s, used)
    ensures var most := StepsToFree(cfg, s.volume, used);
            Need(cfg, s.volume, used) <= if most <= 1 then 1 else most
  {
    var r, free := StepRoom(cfg, s.volume), Free(s.volume, used);
    var room := cfg.minFree + if free < 0.0 then -free else 0.0;
    DivideMonotone(cfg.minFree - free, room, r);
    CeilMonotone((cfg.minFree - free) / r, room / r);
  }

  lemma DivideMonotone(a: real, b: real, r: real)
    requires r > 0.0 && a <= b
    ensures a / r <= b / r
  {
    DivideBy(a, r, b / r);
    assert b == (b / r) * r;
  }

  /** A run of steady passes. */
  ghost predicate SteadyRun(cfg: Config, s: State, inputs: seq<Input>, used: real) {
    && Sensible(cfg) && !cfg.dryRun && Calm(s, used) && Feasible(cfg, s, inputs)
    && forall i :: i in inputs ==> Steady(i, used)
  }

  /** The passes of a run that the retry limit lets through. */
  ghost function Open(cfg: Config, s: State, inputs: seq<Input>): nat
    requires cfg.target != 0.0
    decreases |inputs|
  {
    if inputs == [] then 0
    else
      var n := |inputs| - 1;
      Open(cfg, s, inputs[..n])
      + if inputs[n].now - Run(cfg, s, inputs[..n]).lastGrowAttempt >= GROW_RETRY_SECONDS then 1 else 0
  }

  /** Where a steady run stands: calm, `grown` growths done, and as many open passes unless it has settled. */
  ghost predicate Progress(cfg: Config, v: Volume, s: State, used: real, grown: nat, open: nat)
    requires Sensible(cfg) && Lawful(v)
  {
    && Calm(s, used) && s.volume.usable == v.usable
    && grown + Need(cfg, s.volume, used) <= Need(cfg, v, used)
    && (Need(cfg, s.volume, used) == 0 || grown == open)
  }

  lemma ProgressStep(cfg: Config, v: Volume, s: State, i: Input, used: real, grown: nat, open: nat)
    requires Sensible(cfg) && !cfg.dryRun && Lawful(v) && Steady(i, used) && Fits(cfg, s, i)
    requires ShowsBelow(cfg, v)
    requires Progress(cfg, v, s, used, grown, open)
    ensures Progress(cfg, v, Pass(cfg, s, i), used, grown + (if Grows(cfg, s, i) then 1 else 0),
                     open + if i.now - s.lastGrowAttempt >= GROW_RETRY_SECONDS then 1 else 0)
  {
    SteadyRequest(cfg, s, i, used);
    SteadyPass(cfg, s, i, used);
    if Request(cfg, s, i).Some? {
      GrowthReducesNeed(cfg, s.volume, used);
    }
  }

  lemma {:induction false} RunProgress(cfg: Config, s: State, inputs: seq<Input>, used: real)
    requires SteadyRun(cfg, s, inputs, used) && ShowsBelow(cfg, s.volume)
    ensures Progress(cfg, s.volume, Run(cfg, s, inputs), used, Growths(cfg, s, inputs), Open(cfg, s, inputs))
    decreases |inputs|
  {
    if inputs != [] {
      var n := |inputs| - 1;
      FeasiblePrefix(cfg, s, inputs, n);
      RunProgress(cfg, s, inputs[..n], used);
      assert FitsAt(cfg, s, inputs, n) && inputs[n] in inputs;
      ProgressStep(cfg, s.volume, Run(cfg, s, inputs[..n]), inputs[n], used,
                   Growths(cfg, s, inputs[..n]), Open(cfg, s, inputs[..n]));
    }
  }

  /**
   Convergence, where the target reads below the threshold: a steady run grows the volume at most
   max(1, ceil(MIN_FREE / room of one step)) times, what files hold of the reserve counted in with MIN_FREE, and once
   that many of its passes were not held back by the retry limit it has no reason to grow or stands at the ceiling.
   */
  lemma SteadyRunsConverge(cfg: Config, s: State, inputs: seq<Input>, used: real)
    requires SteadyRun(cfg, s, inputs, used) && ShowsBelow(cfg, s.volume)
    ensures var most := StepsToFree(cfg, s.volume, used);
            var bound := if most <= 1 then 1 else most;
            && Growths(cfg, s, inputs) <= bound
            && (Open(cfg, s, inputs) >= bound ==> Settled(cfg, Run(cfg, s, inputs).volume, used))
  {
    RunProgress(cfg, s, inputs, used);
    NeedIsBounded(cfg, s, used);
  }

  lemma LastPassOpens(cfg: Config, s: State, inputs: seq<Input>, n: nat)
    requires cfg.target != 0.0 && |inputs| == n + 1
    ensures var mid := Run(cfg, s, inputs[..n]);
            && Run(cfg, s, inputs) == Pass(cfg, mid, inputs[n])
            && Open(cfg, s, inputs) == Open(cfg, s, inputs[..n])
                                       + if inputs[n].now - mid.lastGrowAttempt >= GROW_RETRY_SECONDS then 1 else 0
  {
  }

  /** Passes ten minutes apart are all let through. */
  lemma {:induction false} SpacedPassesAreOpen(cfg: Config, s: State, inputs: seq<Input>)
    requires Sensible(cfg) && Feasible(cfg, s, inputs)
    requires forall k :: 0 <= k < |inputs| - 1 ==> inputs[k + 1].now - inputs[k].now >= GROW_RETRY_SECONDS
    requires inputs != [] ==> inputs[0].now - s.lastGrowAttempt >= GROW_RETRY_SECONDS
    ensures Open(cfg, s, inputs) == |inputs|
    ensures inputs != [] ==> Run(cfg, s, inputs).lastGrowAttempt <= inputs[|inputs| - 1].now
    decreases |inputs|
  {
    if inputs != [] {
      var n := |inputs| - 1;
      FeasiblePrefix(cfg, s, inputs, n);
      SpacedPassesAreOpen(cfg, s, inputs[..n]);
      PassAttempt(cfg, Run(cfg, s, inputs[..n]), inputs[n]);
      LastPassOpens(cfg, s, inputs, n);
      if n > 0 {
        assert inputs[n - 1 + 1].now - inputs[n - 1].now >= GROW_RETRY_SECONDS;
      }
    }
  }

  /**
   So a steady run of passes ten minutes apart comes to rest after as many passes as it may need growths,
   and with a steady level it stays there.
   */
  lemma SpacedRunsSettle(cfg: Config, s: State, inputs: seq<Input>, used: real)
    requires SteadyRun(cfg, s, inputs, used) && ShowsBelow(cfg, s.volume)
    requires forall k :: 0 <= k < |inputs| - 1 ==> inputs[k + 1].now - inputs[k].now >= GROW_RETRY_SECONDS
    requires inputs != [] ==> inputs[0].now - s.lastGrowAttempt >= GROW_RETRY_SECONDS
    requires |inputs| >= 1 && |inputs| >= StepsToFree(cfg, s.volume, used)
    ensures Settled(cfg, Run(cfg, s, inputs).volume, used)
  {
    SpacedPassesAreOpen(cfg, s, inputs);
    SteadyRunsConverge(cfg, s, inputs, used);
  }

  // ----- without any premise on the target -----

  /** How many growths the ceiling leaves room for. */
  function RoomToGrow(cfg: Config, v: Volume): int
    requires cfg.minStep >= 1
  {
    if v.cloud >= cfg.maxGb then 0 else Ceil((cfg.maxGb - v.cloud) as real / cfg.minStep as real)
  }

  /** Every open pass of a steady run grows the volume, until there is nothing to do. */
  lemma {:induction false} OpenPassesGrow(cfg: Config, s: State, inputs: seq<Input>, used: real)
    requires SteadyRun(cfg, s, inputs, used)
    ensures Calm(Run(cfg, s, inputs), used)
    ensures Settled(cfg, Run(cfg, s, inputs).volume, used) || Growths(cfg, s, inputs) == Open(cfg, s, inputs)
    decreases |inputs|
  {
    if inputs != [] {
      var n := |inputs| - 1;
      FeasiblePrefix(cfg, s, inputs, n);
      OpenPassesGrow(cfg, s, inputs[..n], used);
      assert FitsAt(cfg, s, inputs, n) && inputs[n] in inputs;
      SteadyRequest(cfg, Run(cfg, s, inputs[..n]), inputs[n], used);
      SteadyPass(cfg, Run(cfg, s, inputs[..n]), inputs[n], used);
    }
  }

  /**
   With any sensible configuration, whatever rounding does, a steady run settles once more of its passes were
   let through than the ceiling leaves room for growths.
   */
  lemma SteadyRunsSettle(cfg: Config, s: State, inputs: seq<Input>, used: real)
    requires SteadyRun(cfg, s, inputs, used)
    ensures Growths(cfg, s, inputs) <= RoomToGrow(cfg, s.volume)
    ensures Open(cfg, s, inputs) > RoomToGrow(cfg, s.volume) ==> Settled(cfg, Run(cfg, s, inputs).volume, used)
  {
    OpenPassesGrow(cfg, s, inputs, used);
    GrowthsFit(cfg, s, inputs);
  }

  lemma GrowthsFit(cfg: Config, s: State, inputs: seq<Input>)
    requires Sensible(cfg) && Lawful(s.volume) && Feasible(cfg, s, inputs) && s.volume.block == s.volume.cloud as real
    ensures Growths(cfg, s, inputs) <= RoomToGrow(cfg, s.volume)
  {
    CeilOfInt(s.volume.cloud);
    GrowthsAreBounded(cfg, s, inputs);
  }

  /** So passes ten minutes apart settle after that many passes and one. */
  lemma SpacedRunsAlwaysSettle(cfg: Config, s: State, inputs: seq<Input>, used: real)
    requires SteadyRun(cfg, s, inputs, used)
    requires forall k :: 0 <= k < |inputs| - 1 ==> inputs[k + 1].now - inputs[k].now >= GROW_RETRY_SECONDS
    requires inputs != [] ==> inputs[0].now - s.lastGrowAttempt >= GROW_RETRY_SECONDS
    requires |inputs| > RoomToGrow(cfg, s.volume)
    ensures Settled(cfg, Run(cfg, s, inputs).volume, used)
  {
    SpacedPassesAreOpen(cfg, s, inputs);
    SteadyRunsSettle(cfg, s, inputs, used);
  }
}
