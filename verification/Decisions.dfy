/** What a pass of the storage autopilot decides, told by sizes, per cents, minutes and the token alone. */
module Decisions {
  import opened Growth
  import opened Options
  import opened Pilot
  import Alerts
  import HistoryRuns
  import RateLaws
  import Scratch
  import VolumeRuns
  import WriteRate

  // ----- what a volume reads -----

  /** What files can still take. */
  ghost function Room(v: Volume, used: real): (room: real)
    ensures room >= 0.0
  {
    if used < v.usable * v.fs then v.usable * v.fs - used else 0.0
  }

  /** The usage reads `tenths` tenths of a per cent: the nearest number of them, of two the even one. */
  ghost predicate Reads(v: Volume, used: real, tenths: int) {
    var all := used + Room(v, used);
    if all == 0.0 then tenths == 0 else NearestTo(1000.0 * used, all, tenths)
  }

  ghost predicate NearestTo(part: real, all: real, n: int) {
    var twice := 2.0 * (part - n as real * all);
    -all <= twice <= all && ((twice == all || twice == -all) ==> n % 2 == 0)
  }

  lemma PercentReads(v: Volume, used: real, tenths: int)
    requires used >= 0.0
    ensures Reads(v, used, tenths) <==> StatsOf(v, used).Percent() == tenths as real / 10.0
  {
    var all := used + Room(v, used);
    assert StatsOf(v, used).avail == Room(v, used);
    if all != 0.0 {
      ShareRounds(used, all, tenths);
    }
  }

  lemma ShareRounds(used: real, all: real, tenths: int)
    requires all > 0.0
    ensures NearestTo(1000.0 * used, all, tenths) <==> Round1(used * 100.0 / all) == tenths as real / 10.0
  {
    var x := used * 100.0 / all;
    TimesTen(used, all, x);
    NearestByQuotient(1000.0 * used, all, x * 10.0, tenths);
    RoundsToNearest(x, tenths);
  }

  lemma TimesTen(used: real, all: real, x: real)
    requires all > 0.0 && x == used * 100.0 / all
    ensures (x * 10.0) * all == 1000.0 * used
  {
    assert x * all == used * 100.0;
  }

  /** Every volume reads some number of tenths. */
  lemma ReadsSome(v: Volume, used: real) returns (tenths: int)
    requires used >= 0.0
    ensures Reads(v, used, tenths)
  {
    var p := StatsOf(v, used).Percent();
    tenths := (p * 10.0).Floor;
    assert p == tenths as real / 10.0;
    PercentReads(v, used, tenths);
  }

  lemma NearestByQuotient(part: real, all: real, q: real, n: int)
    requires all > 0.0 && q * all == part
    ensures NearestTo(part, all, n) <==> NearestTo(q, 1.0, n)
  {
    var d := 2.0 * (q - n as real);
    assert 2.0 * (part - n as real * all) == d * all;
    Compare(d, 1.0, all);
    Compare(d, -1.0, all);
  }

  lemma Compare(a: real, b: real, t: real)
    requires t > 0.0
    ensures (a <= b <==> a * t <= b * t) && (a == b <==> a * t == b * t)
  {
    if a <= b {
      assert (b - a) * t >= 0.0;
    }
    if a < b {
      assert (b - a) * t > 0.0;
    }
    if a > b {
      assert (a - b) * t > 0.0;
    }
  }

  /** `round(x, 1)` is the nearest tenth, of two the even one. */
  lemma RoundsToNearest(x: real, n: int)
    ensures Round1(x) == n as real / 10.0 <==> NearestTo(x * 10.0, 1.0, n)
  {
    var m := (x * 10.0).Floor;
    assert m as real <= x * 10.0 < (m + 1) as real;
    if NearestTo(x * 10.0, 1.0, n) {
      assert n == m || n == m + 1;
    }
  }

  // ----- reasons, the token, the size -----

  /** The volume is full, nearly so, or fills at `rate` GiB per minute before anybody could act. */
  ghost predicate Filling(cfg: Config, v: Volume, used: real, tenths: int, rate: real) {
    || tenths as real >= 10.0 * cfg.growAt
    || Room(v, used) < cfg.minFree
    || (rate > 0.0 && Room(v, used) < cfg.horizon * rate && tenths as real >= 10.0 * cfg.rateGate)
  }

  lemma FillingIsReason(cfg: Config, v: Volume, used: real, tenths: int, rate: real)
    requires used >= 0.0 && Reads(v, used, tenths)
    ensures HasReason(cfg, StatsOf(v, used), rate) <==> Filling(cfg, v, used, tenths, rate)
  {
    PercentReads(v, used, tenths);
    assert StatsOf(v, used).avail == Room(v, used);
    if rate > 0.0 {
      LessThan(Room(v, used), rate, cfg.horizon);
    }
  }

  lemma LessThan(a: real, r: real, m: real)
    requires r > 0.0
    ensures a / r < m <==> a < m * r
  {
    var q := a / r;
    assert a == q * r;
    Compare(m, q, r);
  }

  /** The provider's verdict on this volume and token is remembered from less than six hours ago. */
  ghost predicate Remembered(s: State, i: Input) {
    && s.tokenCheck.Some? && i.now - s.tokenCheck.value.at < 21600.0
    && i.volumeId == Some(s.tokenCheck.value.volumeId) && i.token == Some(s.tokenCheck.value.token)
  }

  /** There are a token and a volume it is for, and the provider takes it. */
  ghost predicate Trusted(s: State, i: Input) {
    i.token.Some? && i.volumeId.Some? && if Remembered(s, i) then s.tokenCheck.value.ok else i.tokenAnswer
  }

  /** The size the ceiling is held against. */
  ghost function Size(v: Volume, i: Input): real {
    if i.hasDevice && v.block != 0.0 then v.block else v.shown * v.fs
  }

  lemma SizeDecides(v: Volume, i: Input, gb: int)
    ensures CurrentGb(v, i) >= gb <==> Size(v, i) > (gb - 1) as real
  {
  }

  lemma TrustDecides(cfg: Config, s: State, i: Input)
    ensures CreditOf(BeforeGrowth(cfg, s, i), i).0 == Checked(true) <==> Trusted(s, i)
  {
    VolumeRuns.BeforeGrowthFrame(cfg, s, i);
  }

  // ----- what a pass does about it -----

  /** The pass finds the mount and its volume filling. */
  ghost predicate Due(cfg: Config, s: State, i: Input, tenths: int) {
    var b := BeforeGrowth(cfg, s, i);
    i.mountFound && Filling(cfg, b.volume, i.used, tenths, RateSeen(b, i))
  }

  /**
   A pass asks for growth if and only if it finds the volume filling, the provider takes the token, the size is below
   the ceiling, and the last attempt is ten minutes old.
   */
  lemma GrowthIsAskedExactly(cfg: Config, s: State, i: Input, tenths: int)
    requires cfg.target != 0.0 && i.used >= 0.0 && Reads(BeforeGrowth(cfg, s, i).volume, i.used, tenths)
    ensures Request(cfg, s, i).Some? <==>
            && Due(cfg, s, i, tenths) && Trusted(s, i)
            && Size(BeforeGrowth(cfg, s, i).volume, i) <= (cfg.maxGb - 1) as real
            && i.now - s.lastGrowAttempt >= 600.0
  {
    var b := BeforeGrowth(cfg, s, i);
    FillingIsReason(cfg, b.volume, i.used, tenths, RateSeen(b, i));
    TrustDecides(cfg, s, i);
    SizeDecides(b.volume, i, cfg.maxGb);
    VolumeRuns.BeforeGrowthFrame(cfg, s, i);
  }

  /**
   The size it asks for is the least multiple of ten that holds one step more, the usage at the target, and that of
   an hour later at the present rate, or else the ceiling.
   */
  lemma GrowthIsLeast(cfg: Config, s: State, i: Input)
    requires Sensible(cfg) && Request(cfg, s, i).Some?
    ensures var b := BeforeGrowth(cfg, s, i);
            LeastSize(cfg, Size(b.volume, i), i.used, RateSeen(b, i), Request(cfg, s, i).value)
  {
    var b := BeforeGrowth(cfg, s, i);
    AskedForNew(cfg, s, i);
    NewIsLeast(cfg, Size(b.volume, i), i.used, RateSeen(b, i), Request(cfg, s, i).value);
  }

  lemma AskedForNew(cfg: Config, s: State, i: Input)
    requires cfg.target != 0.0 && Request(cfg, s, i).Some?
    ensures var b := BeforeGrowth(cfg, s, i);
            Request(cfg, s, i).value == NewGb(cfg, Ceil(Size(b.volume, i)), i.used, RateSeen(b, i))
  {
    var b := BeforeGrowth(cfg, s, i);
    SizeIsCurrent(b.volume, i);
    DecidedForNew(cfg, b, i);
  }

  lemma DecidedForNew(cfg: Config, b: State, i: Input)
    requires cfg.target != 0.0 && DecisionOf(cfg, b, i).GrowTo?
    ensures DecisionOf(cfg, b, i).newGb == NewGb(cfg, CurrentGb(b.volume, i), i.used, RateSeen(b, i))
  {
  }

  lemma SizeIsCurrent(v: Volume, i: Input)
    ensures CurrentGb(v, i) == Ceil(Size(v, i))
  {
  }

  lemma NewIsLeast(cfg: Config, size: real, used: real, rate: real, n: int)
    requires Sensible(cfg) && n == NewGb(cfg, Ceil(size), used, rate)
    ensures LeastSize(cfg, size, used, rate, n)
  {
    var current := Ceil(size);
    NewGbIsLeast(cfg, current, used, rate);
    forall m: int ensures Holds(cfg, size, used, rate, m) <==> Suits(cfg, current, used, rate, m) {
      StepUp(size, cfg.minStep, m);
    }
  }

  /** The ceiling, or the least multiple of ten that holds all, which is at most the ceiling. */
  ghost predicate LeastSize(cfg: Config, size: real, used: real, rate: real, n: int) {
    && n <= cfg.maxGb
    && (n == cfg.maxGb || (n % 10 == 0 && Holds(cfg, size, used, rate, n)))
    && forall m: int :: m % 10 == 0 && Holds(cfg, size, used, rate, m) ==> n <= m
  }

  ghost predicate Holds(cfg: Config, size: real, used: real, rate: real, n: int) {
    && size <= (n - cfg.minStep) as real
    && 100.0 * used <= cfg.target * n as real
    && (rate > 0.0 ==> 100.0 * (used + 60.0 * rate) <= cfg.target * n as real)
  }

  lemma StepUp(size: real, step: int, n: int)
    ensures n >= Ceil(size) + step <==> size <= (n - step) as real
  {
  }

  /** A growth is done when the kernel shows it and the file system has been extended over it. */
  ghost predicate GrownWell(i: Input) {
    i.resize.Done? && i.fstype != OtherFs && i.growExtendWorks
  }

  /** What a pass has to raise or clear. */
  ghost predicate Calls(cfg: Config, s: State, i: Input, tenths: int, op: Alerts.Op)
    requires cfg.target != 0.0
  {
    var due, asked := Due(cfg, s, i, tenths), Request(cfg, s, i).Some? && !cfg.dryRun;
    var full := Size(BeforeGrowth(cfg, s, i).volume, i) > (cfg.maxGb - 1) as real;
    match op
    case Raise(GrowthUnavailable, at) => due && !Trusted(s, i) && at == i.now
    case Raise(CeilingReached, at) => due && Trusted(s, i) && full && at == i.now
    case Raise(GrowthFailed, at) => asked && !GrownWell(i) && at == i.later
    case Raise(SystemDiskFull, at) => i.mountFound && i.systemPercent >= 90.0 && at == i.last
    case Clear(CeilingReached) => i.mountFound && !due
    case Clear(SystemDiskFull) => i.mountFound && i.systemPercent < 90.0
    case Clear(_) => (i.mountFound && !due) || (asked && GrownWell(i))
  }

  /** Which alerts a pass raises, and which conditions it finds gone. */
  lemma AlertsAreRaisedExactly(cfg: Config, s: State, i: Input, tenths: int, op: Alerts.Op)
    requires cfg.target != 0.0 && i.used >= 0.0 && Reads(BeforeGrowth(cfg, s, i).volume, i.used, tenths)
    ensures op in HistoryRuns.PassOps(cfg, s, i) <==> Calls(cfg, s, i, tenths, op)
  {
    if i.mountFound {
      var b := BeforeGrowth(cfg, s, i);
      FillingIsReason(cfg, b.volume, i.used, tenths, RateSeen(b, i));
      TrustDecides(cfg, s, i);
      SizeDecides(b.volume, i, cfg.maxGb);
      assert op in HistoryRuns.PassOps(cfg, s, i) <==>
             op in HistoryRuns.GrowOps(cfg, b, i) || op in HistoryRuns.SystemOps(i);
    }
  }

  /** What else a pass records in steps 1 and 2. */
  ghost predicate RecordsFirst(cfg: Config, s: State, i: Input, e: Event) {
    var v := BeforeGrowth(cfg, s, i).volume;
    || (e == FilesystemExtended && v.shown * v.fs > s.volume.shown * s.volume.fs + 1.0)
    || (e == ScratchFreed && Scratch.SweptBytes(i.scratch, i.looks, i.live, cfg.dryRun) > 0)
  }

  /** What it records in steps 3 and 4; `after` are the tenths its volume then reads. */
  ghost predicate RecordsThen(cfg: Config, s: State, i: Input, after: int, e: Event)
    requires cfg.target != 0.0
  {
    || (e.VolumeGrown? && Request(cfg, s, i) == Some(e.toGb) && !cfg.dryRun && GrownWell(i)
        && e.fromGb == Ceil(Size(BeforeGrowth(cfg, s, i).volume, i)))
    || (e == EmergencyRelief && after as real >= 10.0 * cfg.emergency && i.rootKnown && !cfg.dryRun && i.relief > 1.0)
  }

  lemma InOptional(c: bool, x: Event, e: Event)
    ensures e in HistoryRuns.Optional(c, x) <==> c && e == x
  {
  }

  lemma InFour(a: seq<Event>, b: seq<Event>, c: seq<Event>, d: seq<Event>, e: Event)
    ensures e in a + (b + (c + d)) <==> e in a || e in b || e in c || e in d
  {
  }

  /** A pass records what it has done and nothing else. */
  lemma EventsAreRecordedExactly(cfg: Config, s: State, i: Input, after: int, e: Event)
    requires cfg.target != 0.0 && i.used >= 0.0 && !e.Alert? && Reads(Pass(cfg, s, i).volume, i.used, after)
    ensures e in HistoryRuns.PassEvents(cfg, s, i) <==>
            i.mountFound && (RecordsFirst(cfg, s, i, e) || RecordsThen(cfg, s, i, after, e))
  {
    if i.mountFound {
      NoAlertIsAround(cfg, s, i, e);
      FirstRecordsExactly(cfg, s, i, e);
      ThenRecordsExactly(cfg, s, i, after, e);
    }
  }

  lemma NoAlertIsAround(cfg: Config, s: State, i: Input, e: Event)
    requires cfg.target != 0.0 && i.mountFound && !e.Alert?
    ensures e in HistoryRuns.PassEvents(cfg, s, i) <==>
            e in HistoryRuns.EventsBefore(cfg, s, i) || e in HistoryRuns.EventsBetween(cfg, s, i)
  {
    var ops := HistoryRuns.GrowOps(cfg, BeforeGrowth(cfg, s, i), i);
    var n := Alerts.After(s.notified, ops);
    HistoryRuns.ToldAreAlerts(s.notified, ops);
    HistoryRuns.ToldAreAlerts(n, HistoryRuns.SystemOps(i));
    InFour(HistoryRuns.EventsBefore(cfg, s, i), HistoryRuns.Told(s.notified, ops),
           HistoryRuns.EventsBetween(cfg, s, i), HistoryRuns.Told(n, HistoryRuns.SystemOps(i)), e);
  }

  lemma FirstRecordsExactly(cfg: Config, s: State, i: Input, e: Event)
    ensures e in HistoryRuns.EventsBefore(cfg, s, i) <==> RecordsFirst(cfg, s, i, e)
  {
    var h := Heal(cfg, s, i);
    InOptional(h.volume.Total() > s.volume.Total() + 1.0, FilesystemExtended, e);
    InOptional(Scratch.SweptBytes(i.scratch, i.looks, i.live, cfg.dryRun) > 0, ScratchFreed, e);
    assert BeforeGrowth(cfg, s, i).volume == h.volume;
  }

  lemma ThenRecordsExactly(cfg: Config, s: State, i: Input, after: int, e: Event)
    requires cfg.target != 0.0 && i.mountFound && i.used >= 0.0 && Reads(Pass(cfg, s, i).volume, i.used, after)
    ensures e in HistoryRuns.EventsBetween(cfg, s, i) <==> RecordsThen(cfg, s, i, after, e)
  {
    var b := BeforeGrowth(cfg, s, i);
    VolumeRuns.PassIsGrowStep(cfg, s, i);
    PercentReads(Pass(cfg, s, i).volume, i.used, after);
    SizeIsCurrent(b.volume, i);
    ReliefIsRecorded(cfg, GrowStep(cfg, b, i), i, after, e);
  }

  lemma ReliefIsRecorded(cfg: Config, g: State, i: Input, after: int, e: Event)
    requires i.used >= 0.0 && Reads(g.volume, i.used, after)
    ensures e in HistoryRuns.ReliefEvents(cfg, g, i) <==>
            && e == EmergencyRelief && after as real >= 10.0 * cfg.emergency
            && i.rootKnown && !cfg.dryRun && i.relief > 1.0
  {
    PercentReads(g.volume, i.used, after);
  }

  // ----- over runs -----

  ghost predicate CallsInPass(cfg: Config, s: State, i: Input, op: Alerts.Op)
    requires cfg.target != 0.0
  {
    exists tenths :: Reads(BeforeGrowth(cfg, s, i).volume, i.used, tenths) && Calls(cfg, s, i, tenths, op)
  }

  lemma PassCalls(cfg: Config, s: State, i: Input, op: Alerts.Op)
    requires cfg.target != 0.0 && i.used >= 0.0
    ensures op in HistoryRuns.PassOps(cfg, s, i) <==> CallsInPass(cfg, s, i, op)
  {
    var v := BeforeGrowth(cfg, s, i).volume;
    if CallsInPass(cfg, s, i, op) {
      var tenths :| Reads(v, i.used, tenths) && Calls(cfg, s, i, tenths, op);
      AlertsAreRaisedExactly(cfg, s, i, tenths, op);
    } else {
      var tenths := ReadsSome(v, i.used);
      AlertsAreRaisedExactly(cfg, s, i, tenths, op);
    }
  }

  ghost predicate CallsAt(cfg: Config, s: State, inputs: seq<Input>, k: nat, op: Alerts.Op)
    requires cfg.target != 0.0 && k < |inputs|
  {
    CallsInPass(cfg, Run(cfg, s, inputs[..k]), inputs[k], op)
  }

  ghost predicate CallsBefore(cfg: Config, s: State, inputs: seq<Input>, n: nat, op: Alerts.Op)
    requires cfg.target != 0.0 && n <= |inputs|
  {
    exists k: nat :: k < n && CallsAt(cfg, s, inputs, k, op)
  }

  lemma OneMoreCall(cfg: Config, s: State, inputs: seq<Input>, n: nat, op: Alerts.Op)
    requires cfg.target != 0.0 && n < |inputs|
    ensures CallsBefore(cfg, s, inputs, n + 1, op) <==>
            CallsBefore(cfg, s, inputs, n, op) || CallsAt(cfg, s, inputs, n, op)
  {
  }

  lemma OneMorePass(cfg: Config, s: State, inputs: seq<Input>, n: nat, op: Alerts.Op)
    requires cfg.target != 0.0 && n < |inputs| && inputs[n].used >= 0.0
    ensures op in HistoryRuns.RunOps(cfg, s, inputs[..n + 1]) <==>
            op in HistoryRuns.RunOps(cfg, s, inputs[..n]) || CallsAt(cfg, s, inputs, n, op)
  {
    assert inputs[..n + 1][..n] == inputs[..n];
    PassCalls(cfg, Run(cfg, s, inputs[..n]), inputs[n], op);
  }

  lemma {:induction false} AlertsUpTo(cfg: Config, s: State, inputs: seq<Input>, n: nat, op: Alerts.Op)
    requires cfg.target != 0.0 && n <= |inputs| && forall i :: i in inputs ==> i.used >= 0.0
    ensures op in HistoryRuns.RunOps(cfg, s, inputs[..n]) <==>
            CallsBefore(cfg, s, inputs, n, op)
  {
    if n > 0 {
      assert inputs[n - 1] in inputs;
      AlertsUpTo(cfg, s, inputs, n - 1, op);
      OneMorePass(cfg, s, inputs, n - 1, op);
      OneMoreCall(cfg, s, inputs, n - 1, op);
    }
  }

  /** Over a run: a condition is reported to the alerts, or found gone, exactly in the passes that have to. */
  lemma RunAlertsExactly(cfg: Config, s: State, inputs: seq<Input>, op: Alerts.Op)
    requires cfg.target != 0.0 && forall i :: i in inputs ==> i.used >= 0.0
    ensures op in HistoryRuns.RunOps(cfg, s, inputs) <==>
            CallsBefore(cfg, s, inputs, |inputs|, op)
  {
    AlertsUpTo(cfg, s, inputs, |inputs|, op);
    assert inputs[..|inputs|] == inputs;
  }

  /** Everything a run has measured, and the sample of the pass after it. */
  function History(h: seq<WriteRate.Sample>, inputs: seq<Input>, i: Input): seq<WriteRate.Sample> {
    h + HistoryRuns.Measured(inputs) + [WriteRate.Sample(i.now, i.used)]
  }

  /**
   A run whose usage has risen by `r` GiB in every minute: whatever the autopilot has kept of it, its next pass asks for
   growth if and only if the volume is full, short of room, or will be full within the horizon at that rate, the token
   is taken, the ceiling is not reached and the last attempt is ten minutes old.
   */
  lemma RisingRunAsksExactly(cfg: Config, s: State, h: seq<WriteRate.Sample>, inputs: seq<Input>, i: Input, gap: real,
                             r: real, m: nat, tenths: int)
    requires cfg.target != 0.0 && s.samples == WriteRate.KeptAfter(h) && i.used >= 0.0
    requires WriteRate.WideEnough(gap) && WriteRate.Spaced(History(h, inputs, i), gap)
    requires r >= 0.0 && RateLaws.Steady(History(h, inputs, i), i.now, i.used, r)
    requires m < |History(h, inputs, i)| && 50.0 <= i.now - History(h, inputs, i)[m].at <= 1860.0
    requires Reads(BeforeGrowth(cfg, Run(cfg, s, inputs), i).volume, i.used, tenths)
    ensures var last := Run(cfg, s, inputs);
            var v := BeforeGrowth(cfg, last, i).volume;
            Request(cfg, last, i).Some? <==>
              && i.mountFound && Filling(cfg, v, i.used, tenths, r) && Trusted(last, i)
              && Size(v, i) <= (cfg.maxGb - 1) as real && i.now - last.lastGrowAttempt >= 600.0
  {
    var last := Run(cfg, s, inputs);
    RisingRunIsMeasured(cfg, s, h, inputs, i, gap, r, m);
    GrowthIsAskedExactly(cfg, last, i, tenths);
  }

  /** The rate such a run acts on is `r`. */
  lemma RisingRunIsMeasured(cfg: Config, s: State, h: seq<WriteRate.Sample>, inputs: seq<Input>, i: Input, gap: real,
                            r: real, m: nat)
    requires cfg.target != 0.0 && s.samples == WriteRate.KeptAfter(h)
    requires WriteRate.WideEnough(gap) && WriteRate.Spaced(History(h, inputs, i), gap)
    requires r >= 0.0 && RateLaws.Steady(History(h, inputs, i), i.now, i.used, r)
    requires m < |History(h, inputs, i)| && 50.0 <= i.now - History(h, inputs, i)[m].at <= 1860.0
    ensures RateSeen(BeforeGrowth(cfg, Run(cfg, s, inputs), i), i) == r
  {
    HistoryRuns.RunRateIsHistoryRate(cfg, s, h, inputs, i, gap);
    RateLaws.SteadyRiseIsMeasured(History(h, inputs, i), i.now, i.used, r, m);
  }

  // ----- the token -----

  /** The pass asks the provider about the token. */
  ghost predicate Asks(s: State, i: Input) {
    i.mountFound && i.token.Some? && i.volumeId.Some? && !Remembered(s, i)
  }

  /** What one that asks is told is remembered, and nothing else. */
  lemma AnswerIsRemembered(cfg: Config, s: State, i: Input)
    requires cfg.target != 0.0
    ensures Pass(cfg, s, i).tokenCheck ==
            if Asks(s, i) then Some(TokenCheck(i.now, i.volumeId.value, i.token.value, i.tokenAnswer))
            else s.tokenCheck
  {
    HistoryRuns.PassToken(cfg, s, i);
  }

  /** What a pass that does not ask would be told does not matter. */
  lemma UnaskedDoesNotMatter(cfg: Config, s: State, i: Input, other: bool)
    requires cfg.target != 0.0 && !Asks(s, i)
    ensures Pass(cfg, s, i.(tokenAnswer := other)) == Pass(cfg, s, i)
  {
    var i' := i.(tokenAnswer := other);
    if i.mountFound {
      var b := BeforeGrowth(cfg, s, i);
      SameBefore(cfg, s, i, other);
      VolumeRuns.BeforeGrowthFrame(cfg, s, i);
      SameGrowth(cfg, b, i, other);
    }
  }

  lemma SameBefore(cfg: Config, s: State, i: Input, other: bool)
    ensures BeforeGrowth(cfg, s, i.(tokenAnswer := other)) == BeforeGrowth(cfg, s, i)
  {
  }

  lemma SameGrowth(cfg: Config, b: State, i: Input, other: bool)
    requires cfg.target != 0.0 && i.mountFound && !Asks(b, i)
    ensures GrowStep(cfg, b, i.(tokenAnswer := other)) == GrowStep(cfg, b, i)
  {
    var i' := i.(tokenAnswer := other);
    assert CreditOf(b, i') == CreditOf(b, i);
    assert DecisionOf(cfg, b, i') == DecisionOf(cfg, b, i);
  }

  /** All passes find the mount and the same volume, with the same token. */
  ghost predicate SameToken(inputs: seq<Input>, volumeId: string, token: string) {
    forall i :: i in inputs ==> i.mountFound && i.volumeId == Some(volumeId) && i.token == Some(token)
  }

  /** An answer about this volume and token, no older than `t`, is remembered. */
  ghost predicate Knows(s: State, volumeId: string, token: string, t: real) {
    var c := s.tokenCheck;
    c.Some? && c.value.volumeId == volumeId && c.value.token == token && c.value.at >= t
  }

  lemma KnowsOn(cfg: Config, s: State, i: Input, volumeId: string, token: string, t: real)
    requires cfg.target != 0.0 && i.mountFound && i.volumeId == Some(volumeId) && i.token == Some(token) && i.now >= t
    requires Asks(s, i) || Knows(s, volumeId, token, t)
    ensures Knows(Pass(cfg, s, i), volumeId, token, t)
  {
    AnswerIsRemembered(cfg, s, i);
  }

  lemma KnowsNext(cfg: Config, s: State, inputs: seq<Input>, volumeId: string, token: string, t: real, n: nat)
    requires cfg.target != 0.0 && SameToken(inputs, volumeId, token) && n < |inputs| && inputs[n].now >= t
    requires Asks(Run(cfg, s, inputs[..n]), inputs[n]) || Knows(Run(cfg, s, inputs[..n]), volumeId, token, t)
    ensures Knows(Run(cfg, s, inputs[..n + 1]), volumeId, token, t)
  {
    assert inputs[n] in inputs;
    RunStep(cfg, s, inputs, n);
    KnowsOn(cfg, Run(cfg, s, inputs[..n]), inputs[n], volumeId, token, t);
  }

  lemma {:induction false} AnswerStays(cfg: Config, s: State, inputs: seq<Input>, volumeId: string, token: string,
                                       t: real, j: nat, k: nat)
    requires cfg.target != 0.0 && SameToken(inputs, volumeId, token) && j <= k <= |inputs|
    requires forall n :: j <= n < k ==> inputs[n].now >= t
    requires Knows(Run(cfg, s, inputs[..j]), volumeId, token, t)
    ensures Knows(Run(cfg, s, inputs[..k]), volumeId, token, t)
    decreases k
  {
    if j < k {
      AnswerStays(cfg, s, inputs, volumeId, token, t, j, k - 1);
      KnowsNext(cfg, s, inputs, volumeId, token, t, k - 1);
    }
  }

  /** Of one volume and token the provider is asked at most once in six hours. */
  lemma AsksAreApart(cfg: Config, s: State, inputs: seq<Input>, volumeId: string, token: string, j: nat, k: nat)
    requires cfg.target != 0.0 && Feasible(cfg, s, inputs) && SameToken(inputs, volumeId, token)
    requires j < k < |inputs| && Asks(Run(cfg, s, inputs[..j]), inputs[j]) && Asks(Run(cfg, s, inputs[..k]), inputs[k])
    ensures inputs[k].now - inputs[j].now >= 21600.0
  {
    assert inputs[k] in inputs;
    KnowsNext(cfg, s, inputs, volumeId, token, inputs[j].now, j);
    forall n | j < n < k ensures inputs[n].now >= inputs[j].now {
      VolumeRuns.ClockAdvances(cfg, s, inputs, j, n);
    }
    AnswerStays(cfg, s, inputs, volumeId, token, inputs[j].now, j + 1, k);
  }
}
