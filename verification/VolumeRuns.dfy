/** What holds of the volume over every run of the storage autopilot. */
module VolumeRuns {
  import opened Growth
  import opened Options
  import opened Pilot
  import Alerts
  import Scratch
  import WriteRate

  /** The volume as a pass finds it. */
  function Found(s: State, i: Input): Volume {
    s.volume.(cloud := i.cloud, block := i.block)
  }

  /** The volume after step 1. */
  function Healed(cfg: Config, s: State, i: Input): Volume {
    if GapFound(Found(s, i), i) then Extended(cfg, Found(s, i), i.fstype, i.extendWorks) else Found(s, i)
  }

  /** Nothing but healing and a granted request touches the volume. */
  lemma PassVolume(cfg: Config, s: State, i: Input)
    requires cfg.target != 0.0
    ensures BeforeGrowth(cfg, s, i).volume == Healed(cfg, s, i)
    ensures Pass(cfg, s, i).volume ==
            if !i.mountFound then Found(s, i)
            else if Request(cfg, s, i).None? then Healed(cfg, s, i)
            else Grown(cfg, Healed(cfg, s, i), Request(cfg, s, i).value, i)
  {
    VolumeBeforeGrowth(cfg, s, i);
    if i.mountFound {
      PassIsGrowStep(cfg, s, i);
      GrowStepVolume(cfg, BeforeGrowth(cfg, s, i), i);
    }
  }

  lemma VolumeBeforeGrowth(cfg: Config, s: State, i: Input)
    ensures BeforeGrowth(cfg, s, i).volume == Healed(cfg, s, i)
  {
  }

  lemma GrowStepVolume(cfg: Config, s: State, i: Input)
    requires cfg.target != 0.0
    ensures GrowStep(cfg, s, i).volume ==
            if WantsGrowth(cfg, s, i) && DecisionOf(cfg, s, i).GrowTo?
            then Grown(cfg, s.volume, DecisionOf(cfg, s, i).newGb, i) else s.volume
  {
  }

  /** The size a pass asks for. */
  lemma RequestIsBounded(cfg: Config, s: State, i: Input)
    requires Sensible(cfg)
    ensures Request(cfg, s, i).Some? ==>
              var n, current := Request(cfg, s, i).value, CurrentGb(Healed(cfg, s, i), i);
              && current < n <= cfg.maxGb && (n >= current + cfg.minStep || n == cfg.maxGb)
              && current < cfg.maxGb && i.token.Some? && i.volumeId.Some?
  {
    PassVolume(cfg, s, i);
    var b := BeforeGrowth(cfg, s, i);
    NewGbIsLeast(cfg, CurrentGb(b.volume, i), i.used, RateSeen(b, i));
  }

  // ----- sizes over whole runs -----

  /** `w` comes after `v` in a run: nothing has shrunk, and no promise exceeds `most`. */
  ghost predicate Reaches(v: Volume, w: Volume, most: int) {
    && Lawful(w) && v.cloud <= w.cloud && v.block <= w.block && v.fs <= w.fs && w.shown == v.shown
    && w.usable == v.usable
    && w.promised <= most
  }

  lemma PassSizes(cfg: Config, s: State, i: Input, most: int)
    requires Sensible(cfg) && Lawful(s.volume) && Fits(cfg, s, i)
    requires s.volume.promised <= most && cfg.maxGb <= most
    ensures Reaches(s.volume, Pass(cfg, s, i).volume, most)
  {
    PassVolume(cfg, s, i);
    RequestIsBounded(cfg, s, i);
    HealedSizes(cfg, s, i, most);
    if i.mountFound && Request(cfg, s, i).Some? {
      GrownSizes(cfg, Healed(cfg, s, i), Request(cfg, s, i).value, i, most);
    }
  }

  lemma HealedSizes(cfg: Config, s: State, i: Input, most: int)
    requires Lawful(s.volume) && Possible(s, i) && s.volume.promised <= most
    ensures Reaches(s.volume, Found(s, i), most) && Reaches(s.volume, Healed(cfg, s, i), most)
  {
  }

  lemma GrownSizes(cfg: Config, v: Volume, n: int, i: Input, most: int)
    requires Lawful(v) && v.promised <= most && n <= most && ResizePossible(v, n, i.resize)
    ensures Reaches(v, Grown(cfg, v, n, i), most)
  {
  }

  /**
   Over every run with every pattern of failures the file system stays within the block device and the
   device within the volume, nothing ever shrinks, and the volume never exceeds the ceiling or what it
   already was.
   */
  lemma {:induction false} SizesAreSafe(cfg: Config, s: State, inputs: seq<Input>)
    requires Sensible(cfg) && Lawful(s.volume) && Feasible(cfg, s, inputs)
    ensures var most := if s.volume.promised > cfg.maxGb then s.volume.promised else cfg.maxGb;
            var v := Run(cfg, s, inputs).volume;
            Reaches(s.volume, v, most) && v.fs <= v.block <= v.cloud as real && v.cloud <= most
    decreases |inputs|
  {
    if inputs != [] {
      var n := |inputs| - 1;
      FeasiblePrefix(cfg, s, inputs, n);
      SizesAreSafe(cfg, s, inputs[..n]);
      assert FitsAt(cfg, s, inputs, n);
      var most := if s.volume.promised > cfg.maxGb then s.volume.promised else cfg.maxGb;
      PassSizes(cfg, Run(cfg, s, inputs[..n]), inputs[n], most);
    }
  }

  // ----- how often it grows -----

  /** The pass asks for growth and `grow` reports success: the kernel shows the size asked for. */
  ghost predicate Grows(cfg: Config, s: State, i: Input)
    requires cfg.target != 0.0
  {
    Request(cfg, s, i).Some? && !cfg.dryRun && i.resize.Done?
  }

  ghost function Growths(cfg: Config, s: State, inputs: seq<Input>): (n: nat)
    requires cfg.target != 0.0
    ensures n <= |inputs|
    decreases |inputs|
  {
    if inputs == [] then 0
    else
      var n := |inputs| - 1;
      Growths(cfg, s, inputs[..n]) + (if Grows(cfg, Run(cfg, s, inputs[..n]), inputs[n]) then 1 else 0)
  }

  lemma BlockGrows(cfg: Config, s: State, i: Input)
    requires Sensible(cfg) && Lawful(s.volume) && Fits(cfg, s, i)
    ensures var before, after := Ceil(s.volume.block), Ceil(Pass(cfg, s, i).volume.block);
            && before <= after
            && (Grows(cfg, s, i) ==> before < cfg.maxGb && (after >= before + cfg.minStep || after >= cfg.maxGb))
  {
    PassVolume(cfg, s, i);
    RequestIsBounded(cfg, s, i);
    CeilMonotone(s.volume.block, i.block);
    CeilMonotone(i.block, Pass(cfg, s, i).volume.block);
    if Grows(cfg, s, i) {
      CeilOfInt(Request(cfg, s, i).value);
      CeilMonotone(Request(cfg, s, i).value as real, Pass(cfg, s, i).volume.block);
    }
  }

  /** `n` times the step. */
  ghost function Steps(n: nat, step: int): int {
    if n == 0 then 0 else Steps(n - 1, step) + step
  }

  lemma {:induction false} StepsIsProduct(n: nat, step: int)
    ensures Steps(n, step) == n * step
  {
    if n > 0 {
      StepsIsProduct(n - 1, step);
    }
  }

  /** `n` growths have brought `v` to `w`: each added the step, or the ceiling is reached. */
  ghost predicate GrewBy(cfg: Config, v: Volume, w: Volume, n: nat) {
    var current, now := Ceil(v.block), Ceil(w.block);
    && (n > 0 ==> current < cfg.maxGb && current + Steps(n - 1, cfg.minStep) < cfg.maxGb)
    && (now >= cfg.maxGb || current + Steps(n, cfg.minStep) <= now)
    && current <= now
  }

  lemma GrewByOne(cfg: Config, v: Volume, s: State, i: Input, n: nat)
    requires Sensible(cfg) && Lawful(s.volume) && Fits(cfg, s, i) && GrewBy(cfg, v, s.volume, n)
    ensures GrewBy(cfg, v, Pass(cfg, s, i).volume, n + if Grows(cfg, s, i) then 1 else 0)
  {
    BlockGrows(cfg, s, i);
  }

  lemma LastPassFits(cfg: Config, s: State, inputs: seq<Input>, k: nat)
    requires Sensible(cfg) && Lawful(s.volume) && Feasible(cfg, s, inputs) && k < |inputs|
    ensures Feasible(cfg, s, inputs[..k]) && Fits(cfg, Run(cfg, s, inputs[..k]), inputs[k])
    ensures Lawful(Run(cfg, s, inputs[..k]).volume)
  {
    FeasiblePrefix(cfg, s, inputs, k);
    SizesAreSafe(cfg, s, inputs[..k]);
    assert FitsAt(cfg, s, inputs, k);
  }

  lemma LastPassCounts(cfg: Config, s: State, inputs: seq<Input>, k: nat)
    requires cfg.target != 0.0 && |inputs| == k + 1
    ensures var mid := Run(cfg, s, inputs[..k]);
            && Run(cfg, s, inputs) == Pass(cfg, mid, inputs[k])
            && Growths(cfg, s, inputs) == Growths(cfg, s, inputs[..k]) + if Grows(cfg, mid, inputs[k]) then 1 else 0
  {
  }

  lemma {:induction false} EachGrowthCounts(cfg: Config, s: State, inputs: seq<Input>)
    requires Sensible(cfg) && Lawful(s.volume) && Feasible(cfg, s, inputs)
    ensures GrewBy(cfg, s.volume, Run(cfg, s, inputs).volume, Growths(cfg, s, inputs))
    decreases |inputs|
  {
    if inputs != [] {
      var k := |inputs| - 1;
      LastPassFits(cfg, s, inputs, k);
      EachGrowthCounts(cfg, s, inputs[..k]);
      LastPassCounts(cfg, s, inputs, k);
      GrewByOne(cfg, s.volume, Run(cfg, s, inputs[..k]), inputs[k], Growths(cfg, s, inputs[..k]));
    }
  }

  /**
   Every growth adds the step or lands on the ceiling, so a run grows the volume at most
   ceil((MAX_SIZE_GB - size) / MIN_STEP_GB) times, and not at all from the ceiling on.
   */
  lemma GrowthsAreBounded(cfg: Config, s: State, inputs: seq<Input>)
    requires Sensible(cfg) && Lawful(s.volume) && Feasible(cfg, s, inputs)
    ensures var n, room := Growths(cfg, s, inputs), cfg.maxGb - Ceil(s.volume.block);
            if room <= 0 then n == 0 else n <= Ceil(room as real / cfg.minStep as real)
  {
    EachGrowthCounts(cfg, s, inputs);
    GrewAtMost(cfg, s.volume, Run(cfg, s, inputs).volume, Growths(cfg, s, inputs));
  }

  lemma GrewAtMost(cfg: Config, v: Volume, w: Volume, n: nat)
    requires Sensible(cfg) && GrewBy(cfg, v, w, n)
    ensures var room := cfg.maxGb - Ceil(v.block);
            if room <= 0 then n == 0 else n <= Ceil(room as real / cfg.minStep as real)
  {
    if n > 0 {
      StepsIsProduct(n - 1, cfg.minStep);
      FewerThan(n, cfg.minStep, cfg.maxGb - Ceil(v.block));
    }
  }

  lemma FewerThan(n: int, step: int, room: int)
    requires step >= 1 && (n - 1) * step < room
    ensures n <= Ceil(room as real / step as real)
  {
    var q := room as real / step as real;
    assert ((n - 1) * step) as real == step as real * (n - 1) as real;
    DivideBy(room as real, step as real, (n - 1) as real);
    assert (n - 1) as real < q <= Ceil(q) as real;
  }

  // ----- half-done resizes -----

  /** The extend command of step 1 can do its work in this pass. */
  ghost predicate CanHeal(cfg: Config, i: Input) {
    !cfg.dryRun && i.mountFound && i.hasDevice && i.sizeKnown && i.fstype != OtherFs && i.extendWorks
  }

  /**
   A pass whose extend command works and which does not itself grow the volume leaves the file system as
   large as the device exactly when there was no gap or the gap was over 2 GiB.
   */
  lemma HealsExactly(cfg: Config, s: State, i: Input)
    requires Sensible(cfg) && Lawful(s.volume) && Fits(cfg, s, i)
    requires CanHeal(cfg, i) && Request(cfg, s, i).None?
    ensures var v := Pass(cfg, s, i).volume;
            v.fs == v.block <==> i.block == s.volume.fs || i.block - s.volume.fs > 2.0
  {
    PassVolume(cfg, s, i);
  }

  /** While no extend command works, a gap over 2 GiB stays one. */
  ghost predicate NothingExtends(inputs: seq<Input>) {
    forall i :: i in inputs ==> !i.extendWorks && !i.growExtendWorks
  }

  lemma {:induction false} GapStays(cfg: Config, s: State, inputs: seq<Input>)
    requires Sensible(cfg) && Lawful(s.volume) && Feasible(cfg, s, inputs) && NothingExtends(inputs)
    ensures Run(cfg, s, inputs).volume.fs == s.volume.fs
    decreases |inputs|
  {
    if inputs != [] {
      var n := |inputs| - 1;
      FeasiblePrefix(cfg, s, inputs, n);
      GapStays(cfg, s, inputs[..n]);
      PassVolume(cfg, Run(cfg, s, inputs[..n]), inputs[n]);
      assert inputs[n] in inputs;
    }
  }

  /**
   Half-done resizes heal: after any run of passes in which every extend command fails, the first pass
   whose extend command works brings the file system to the full device, whatever the token, the throttle
   and the reasons to grow say, and whatever its own growth comes to.
   */
  lemma FirstWorkingPassHeals(cfg: Config, s: State, inputs: seq<Input>, i: Input)
    requires Sensible(cfg) && Lawful(s.volume) && Feasible(cfg, s, inputs + [i])
    requires s.volume.block - s.volume.fs > 2.0 && NothingExtends(inputs) && CanHeal(cfg, i)
    ensures Run(cfg, s, inputs).volume.fs == s.volume.fs
    ensures Run(cfg, s, inputs + [i]).volume.fs >= i.block >= s.volume.block
    ensures Request(cfg, Run(cfg, s, inputs), i).None? ==>
              Run(cfg, s, inputs + [i]).volume.fs == Run(cfg, s, inputs + [i]).volume.block
  {
    var all := inputs + [i];
    assert all[..|inputs|] == inputs;
    FeasiblePrefix(cfg, s, all, |inputs|);
    SizesAreSafe(cfg, s, inputs);
    GapStays(cfg, s, inputs);
    assert FitsAt(cfg, s, all, |inputs|);
    RunStep(cfg, s, all, |inputs|);
    assert all[..|inputs| + 1] == all;
    var s' := Run(cfg, s, inputs);
    PassVolume(cfg, s', i);
    RequestIsBounded(cfg, s', i);
  }

  /**
   A gap of at most 2 GiB is below what step 1 looks for: on a volume at its ceiling it stays for ever, in
   every run, even if every extend command would work.
   */
  lemma {:induction false} SmallGapIsNeverHealed(cfg: Config, s: State, inputs: seq<Input>)
    requires Sensible(cfg) && Lawful(s.volume) && Feasible(cfg, s, inputs)
    requires s.volume.block - s.volume.fs <= 2.0
    requires s.volume.block == s.volume.cloud as real && s.volume.promised == s.volume.cloud
    requires s.volume.cloud >= cfg.maxGb
    ensures Run(cfg, s, inputs).volume == s.volume
    decreases |inputs|
  {
    if inputs != [] {
      var n := |inputs| - 1;
      FeasiblePrefix(cfg, s, inputs, n);
      SmallGapIsNeverHealed(cfg, s, inputs[..n]);
      assert FitsAt(cfg, s, inputs, n);
      var s', i := Run(cfg, s, inputs[..n]), inputs[n];
      PassVolume(cfg, s', i);
      RequestIsBounded(cfg, s', i);
      CeilOfInt(s.volume.cloud);
    }
  }

  // ----- dry runs and retries -----

  /** A dry run changes nothing in the world: volume and scratch are what the world itself makes of them. */
  lemma {:induction false} DryRunTouchesNothing(cfg: Config, s: State, inputs: seq<Input>)
    requires Sensible(cfg) && cfg.dryRun && inputs != []
    ensures var i := inputs[|inputs| - 1];
            Run(cfg, s, inputs).volume == s.volume.(cloud := i.cloud, block := i.block)
            && Run(cfg, s, inputs).scratch == i.scratch
    decreases |inputs|
  {
    var n := |inputs| - 1;
    if n > 0 {
      DryRunTouchesNothing(cfg, s, inputs[..n]);
    }
    var s', i := Run(cfg, s, inputs[..n]), inputs[n];
    PassVolume(cfg, s', i);
    DrySweep(i.scratch, i.looks, i.live);
    PassScratch(cfg, s', i);
  }

  lemma {:induction false} DrySweep(root: Scratch.Root, looks: seq<Scratch.Look>, live: set<string>)
    ensures Scratch.SweptRoot(root, looks, live, true) == root && Scratch.SweptBytes(root, looks, live, true) == 0
    decreases |looks|
  {
    if looks != [] {
      DrySweep(root, looks[..|looks| - 1], live);
    }
  }

  lemma PassScratch(cfg: Config, s: State, i: Input)
    requires cfg.target != 0.0
    ensures Pass(cfg, s, i).scratch ==
            if i.mountFound then Scratch.SweptRoot(i.scratch, i.looks, i.live, cfg.dryRun) else i.scratch
  {
    if i.mountFound {
      PassIsGrowStep(cfg, s, i);
      BeforeGrowthFrame(cfg, s, i);
      GrowStepFrame(cfg, BeforeGrowth(cfg, s, i), i);
    }
  }

  /** Recording and alerting touch nothing else. */
  ghost predicate OnlyTells(s: State, s': State) {
    s' == s.(notified := s'.notified, log := s'.log)
  }

  lemma SystemStepOnlyTells(s: State, i: Input)
    ensures OnlyTells(s, SystemStep(s, i))
  {
  }

  lemma ReliefStepOnlyTells(cfg: Config, s: State, i: Input)
    ensures OnlyTells(s, ReliefStep(cfg, s, i))
  {
  }

  /** Steps 4 and 5 only record and alert. */
  lemma PassIsGrowStep(cfg: Config, s: State, i: Input)
    requires cfg.target != 0.0 && i.mountFound
    ensures OnlyTells(GrowStep(cfg, BeforeGrowth(cfg, s, i), i), Pass(cfg, s, i))
  {
    var g := GrowStep(cfg, BeforeGrowth(cfg, s, i), i);
    ReliefStepOnlyTells(cfg, g, i);
    SystemStepOnlyTells(ReliefStep(cfg, g, i), i);
  }

  /** Steps 1 and 2 leave the memory of step 3 alone. */
  lemma BeforeGrowthFrame(cfg: Config, s: State, i: Input)
    ensures var b := BeforeGrowth(cfg, s, i);
            && b.samples == s.samples && b.tokenCheck == s.tokenCheck && b.notified == s.notified
            && b.lastGrowAttempt == s.lastGrowAttempt
  {
  }

  /** What step 3 does to the rest of the state. */
  lemma GrowStepFrame(cfg: Config, s: State, i: Input)
    requires cfg.target != 0.0
    ensures var s' := GrowStep(cfg, s, i);
            && s'.scratch == s.scratch
            && s'.samples == WriteRate.Keep(s.samples, WriteRate.Sample(i.now, i.used))
            && s'.tokenCheck == CreditOf(s, i).1
            && s'.lastGrowAttempt ==
               (if WantsGrowth(cfg, s, i) && DecisionOf(cfg, s, i).GrowTo? then i.now else s.lastGrowAttempt)
  {
  }

  lemma PassAttempt(cfg: Config, s: State, i: Input)
    requires cfg.target != 0.0
    ensures Pass(cfg, s, i).lastGrowAttempt == if Request(cfg, s, i).Some? then i.now else s.lastGrowAttempt
    ensures Request(cfg, s, i).Some? ==> i.now - s.lastGrowAttempt >= GROW_RETRY_SECONDS
  {
    if i.mountFound {
      PassIsGrowStep(cfg, s, i);
      BeforeGrowthFrame(cfg, s, i);
      GrowStepFrame(cfg, BeforeGrowth(cfg, s, i), i);
    }
  }

  /** Any two growth attempts of a run, failed or not, are at least ten minutes apart. */
  lemma AttemptsAreApart(cfg: Config, s: State, inputs: seq<Input>, j: nat, k: nat)
    requires Sensible(cfg) && Feasible(cfg, s, inputs) && j < k < |inputs|
    requires Request(cfg, Run(cfg, s, inputs[..j]), inputs[j]).Some?
    requires Request(cfg, Run(cfg, s, inputs[..k]), inputs[k]).Some?
    ensures inputs[k].now - inputs[j].now >= 600.0
  {
    RunStep(cfg, s, inputs, j);
    PassAttempt(cfg, Run(cfg, s, inputs[..j]), inputs[j]);
    forall n | j < n < k ensures inputs[j].now <= inputs[n].now {
      ClockAdvances(cfg, s, inputs, j, n);
    }
    AttemptIsRemembered(cfg, s, inputs, inputs[j].now, j + 1, k);
    PassAttempt(cfg, Run(cfg, s, inputs[..k]), inputs[k]);
  }

  lemma {:induction false} AttemptIsRemembered(cfg: Config, s: State, inputs: seq<Input>, t: real, j: nat, k: nat)
    requires cfg.target != 0.0 && j <= k <= |inputs| && forall n :: j <= n < k ==> t <= inputs[n].now
    requires t <= Run(cfg, s, inputs[..j]).lastGrowAttempt
    ensures t <= Run(cfg, s, inputs[..k]).lastGrowAttempt
    decreases k
  {
    if j < k {
      AttemptIsRemembered(cfg, s, inputs, t, j, k - 1);
      RunStep(cfg, s, inputs, k - 1);
      AttemptStep(cfg, Run(cfg, s, inputs[..k - 1]), inputs[k - 1], t);
    }
  }

  lemma AttemptStep(cfg: Config, s: State, i: Input, t: real)
    requires cfg.target != 0.0 && t <= s.lastGrowAttempt && t <= i.now
    ensures t <= Pass(cfg, s, i).lastGrowAttempt
  {
    PassAttempt(cfg, s, i);
  }

  lemma ClockAdvances(cfg: Config, s: State, inputs: seq<Input>, j: nat, k: nat)
    requires cfg.target != 0.0 && Feasible(cfg, s, inputs) && j < k < |inputs|
    ensures inputs[j].now <= inputs[j].later <= inputs[j].last <= inputs[k].now
  {
    assert FitsAt(cfg, s, inputs, j);
  }
}
