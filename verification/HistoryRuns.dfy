/** What the storage autopilot remembers, told by the history of its run: samples, alerts, events, the token. */
module HistoryRuns {
  import opened Growth
  import opened Options
  import opened Pilot
  import opened WriteRate
  import Alerts
  import Scratch
  import VolumeRuns

  // ----- samples -----

  /** Everything the passes of a run have ever measured. */
  function Measured(inputs: seq<Input>): seq<Sample> {
    if inputs == [] then []
    else
      var i := inputs[|inputs| - 1];
      Measured(inputs[..|inputs| - 1]) + MeasuredBy(i)
  }

  function MeasuredBy(i: Input): seq<Sample> {
    if i.mountFound then [Sample(i.now, i.used)] else []
  }

  lemma PassSamples(cfg: Config, s: State, i: Input)
    requires cfg.target != 0.0
    ensures Pass(cfg, s, i).samples == if i.mountFound then Keep(s.samples, Sample(i.now, i.used)) else s.samples
  {
    if i.mountFound {
      VolumeRuns.PassIsGrowStep(cfg, s, i);
      VolumeRuns.BeforeGrowthFrame(cfg, s, i);
      VolumeRuns.GrowStepFrame(cfg, BeforeGrowth(cfg, s, i), i);
    }
  }

  lemma {:induction false} SamplesAreKept(cfg: Config, s: State, h: seq<Sample>, inputs: seq<Input>)
    requires cfg.target != 0.0 && s.samples == KeptAfter(h)
    ensures Run(cfg, s, inputs).samples == KeptAfter(h + Measured(inputs))
    decreases |inputs|
  {
    if inputs == [] {
      assert h + [] == h;
    } else {
      var n := |inputs| - 1;
      var m, i := h + Measured(inputs[..n]), inputs[n];
      SamplesAreKept(cfg, s, h, inputs[..n]);
      PassKeeps(cfg, Run(cfg, s, inputs[..n]), m, i);
      assert m + MeasuredBy(i) == h + Measured(inputs);
    }
  }

  lemma PassKeeps(cfg: Config, s: State, m: seq<Sample>, i: Input)
    requires cfg.target != 0.0 && s.samples == KeptAfter(m)
    ensures Pass(cfg, s, i).samples == KeptAfter(m + MeasuredBy(i))
  {
    PassSamples(cfg, s, i);
    if i.mountFound {
      KeptGrows(m, Sample(i.now, i.used));
    } else {
      assert m + [] == m;
    }
  }

  lemma KeptGrows(m: seq<Sample>, x: Sample)
    ensures KeptAfter(m + [x]) == Keep(KeptAfter(m), x)
  {
    assert (m + [x])[..|m + [x]| - 1] == m;
  }

  /**
   In every run whose passes are wide enough apart, the rate a pass acts on is the rate of everything ever
   measured, although the autopilot keeps at most an hour and at most 120 samples of it.
   */
  lemma RunRateIsHistoryRate(cfg: Config, s: State, h: seq<Sample>, inputs: seq<Input>, i: Input, gap: real)
    requires cfg.target != 0.0 && s.samples == KeptAfter(h)
    requires WideEnough(gap) && Spaced(h + Measured(inputs) + [Sample(i.now, i.used)], gap)
    ensures RateSeen(BeforeGrowth(cfg, Run(cfg, s, inputs), i), i)
            == Rate(h + Measured(inputs) + [Sample(i.now, i.used)], i.now, i.used)
  {
    SamplesAreKept(cfg, s, h, inputs);
    BufferRefinesHistory(h + Measured(inputs), Sample(i.now, i.used), gap);
  }

  // ----- alerts and events -----

  /** What step 3 raises and clears. */
  function GrowOps(cfg: Config, b: State, i: Input): seq<Alerts.Op>
    requires cfg.target != 0.0
  {
    if !WantsGrowth(cfg, b, i) then
      [Alerts.Clear(Alerts.GrowthUnavailable), Alerts.Clear(Alerts.GrowthFailed), Alerts.Clear(Alerts.CeilingReached)]
    else
      match DecisionOf(cfg, b, i)
      case Unavailable => [Alerts.Raise(Alerts.GrowthUnavailable, i.now)]
      case AtCeiling => [Alerts.Raise(Alerts.CeilingReached, i.now)]
      case Throttled => []
      case GrowTo(_) =>
        if cfg.dryRun then []
        else if GrowthSucceeds(cfg, i) then [Alerts.Clear(Alerts.GrowthFailed), Alerts.Clear(Alerts.GrowthUnavailable)]
        else [Alerts.Raise(Alerts.GrowthFailed, i.later)]
  }

  function SystemOps(i: Input): seq<Alerts.Op> {
    if i.systemPercent >= 90.0 then [Alerts.Raise(Alerts.SystemDiskFull, i.last)]
    else [Alerts.Clear(Alerts.SystemDiskFull)]
  }

  function PassOps(cfg: Config, s: State, i: Input): seq<Alerts.Op>
    requires cfg.target != 0.0
  {
    if i.mountFound then GrowOps(cfg, BeforeGrowth(cfg, s, i), i) + SystemOps(i) else []
  }

  /** The alerts a sequence of operations reports, in order. */
  function Told(n: Alerts.Notified, ops: seq<Alerts.Op>): seq<Event> {
    if ops == [] then []
    else
      var m := |ops| - 1;
      Told(n, ops[..m]) + (if Alerts.Reports(Alerts.After(n, ops[..m]), ops[m]) then [Alert(ops[m].kind)] else [])
  }

  lemma {:induction false} ToldAppend(n: Alerts.Notified, a: seq<Alerts.Op>, b: seq<Alerts.Op>)
    ensures Told(n, a + b) == Told(n, a) + Told(Alerts.After(n, a), b)
    decreases |b|
  {
    if b == [] {
      assert a + b == a;
    } else {
      var m := |b| - 1;
      assert (a + b)[..|a + b| - 1] == a + b[..m];
      Alerts.AfterAppend(n, a, b[..m]);
      ToldAppend(n, a, b[..m]);
    }
  }

  /** The state after some operations: their effect on the notification times and on the log. */
  ghost predicate Performs(s: State, s': State, ops: seq<Alerts.Op>, others: seq<Event>) {
    && s'.notified == Alerts.After(s.notified, ops)
    && s'.log == Alerts.RecordedAll(Alerts.RecordedAll(s.log, Told(s.notified, ops)), others)
  }

  lemma OneOp(n: Alerts.Notified, op: Alerts.Op)
    ensures Alerts.After(n, [op]) == Alerts.Apply(n, op)
    ensures Told(n, [op]) == if Alerts.Reports(n, op) then [Alert(op.kind)] else []
  {
    assert [op][..0] == [];
    assert Alerts.After(n, []) == n && Told(n, []) == [];
  }

  lemma OneEvent(log: seq<Event>, e: Event)
    ensures Alerts.RecordedAll(log, [e]) == Alerts.Recorded(log, e)
  {
    assert [e][..0] == [];
  }

  lemma RaisePerforms(s: State, kind: Alerts.Kind, at: real)
    ensures Performs(s, Raise(s, kind, at), [Alerts.Raise(kind, at)], [])
  {
    OneOp(s.notified, Alerts.Raise(kind, at));
    OneEvent(s.log, Alert(kind));
  }

  lemma ClearPerforms(s: State, kind: Alerts.Kind)
    ensures Performs(s, Cleared(s, kind), [Alerts.Clear(kind)], [])
  {
    OneOp(s.notified, Alerts.Clear(kind));
  }

  lemma PerformsThen(s: State, s1: State, s2: State, a: seq<Alerts.Op>, b: seq<Alerts.Op>)
    requires Performs(s, s1, a, []) && Performs(s1, s2, b, [])
    ensures Performs(s, s2, a + b, [])
  {
    Alerts.AfterAppend(s.notified, a, b);
    ToldAppend(s.notified, a, b);
    Alerts.RecordedAppend(s.log, Told(s.notified, a), Told(s1.notified, b));
  }

  /** Every event step 3 records beside alerts. */
  function GrowEvents(cfg: Config, b: State, i: Input): seq<Event>
    requires cfg.target != 0.0
  {
    if WantsGrowth(cfg, b, i) && DecisionOf(cfg, b, i).GrowTo? && GrowthSucceeds(cfg, i)
    then [VolumeGrown(CurrentGb(b.volume, i), DecisionOf(cfg, b, i).newGb)] else []
  }

  lemma GrowStepPerforms(cfg: Config, b: State, i: Input)
    requires cfg.target != 0.0
    ensures Performs(b, GrowStep(cfg, b, i), GrowOps(cfg, b, i), GrowEvents(cfg, b, i))
  {
    var s' := b.(samples := Keep(b.samples, Sample(i.now, i.used)), tokenCheck := CreditOf(b, i).1);
    if !WantsGrowth(cfg, b, i) {
      ThreeClears(s', Alerts.GrowthUnavailable, Alerts.GrowthFailed, Alerts.CeilingReached);
    } else {
      ActPerforms(cfg, s', b, i, DecisionOf(cfg, b, i));
    }
  }

  lemma TwoClears(s: State, k: Alerts.Kind, l: Alerts.Kind)
    ensures Performs(s, Cleared(Cleared(s, k), l), [Alerts.Clear(k), Alerts.Clear(l)], [])
  {
    ClearPerforms(s, k);
    ClearPerforms(Cleared(s, k), l);
    PerformsThen(s, Cleared(s, k), Cleared(Cleared(s, k), l), [Alerts.Clear(k)], [Alerts.Clear(l)]);
    assert [Alerts.Clear(k)] + [Alerts.Clear(l)] == [Alerts.Clear(k), Alerts.Clear(l)];
  }

  lemma ThreeClears(s: State, k: Alerts.Kind, l: Alerts.Kind, m: Alerts.Kind)
    ensures Performs(s, Cleared(Cleared(Cleared(s, k), l), m), [Alerts.Clear(k), Alerts.Clear(l), Alerts.Clear(m)], [])
  {
    var s2 := Cleared(Cleared(s, k), l);
    TwoClears(s, k, l);
    ClearPerforms(s2, m);
    PerformsThen(s, s2, Cleared(s2, m), [Alerts.Clear(k), Alerts.Clear(l)], [Alerts.Clear(m)]);
    assert [Alerts.Clear(k), Alerts.Clear(l)] + [Alerts.Clear(m)]
        == [Alerts.Clear(k), Alerts.Clear(l), Alerts.Clear(m)];
  }

  lemma ActPerforms(cfg: Config, s: State, b: State, i: Input, d: Decision)
    requires cfg.target != 0.0 && d == DecisionOf(cfg, b, i) && WantsGrowth(cfg, b, i)
    requires s.volume == b.volume && s.notified == b.notified && s.log == b.log
    ensures Performs(s, Act(cfg, s, i, d), GrowOps(cfg, b, i), GrowEvents(cfg, b, i))
  {
    match d
    case Unavailable => RaisePerforms(s, Alerts.GrowthUnavailable, i.now);
    case AtCeiling => RaisePerforms(s, Alerts.CeilingReached, i.now);
    case Throttled =>
    case GrowTo(n) => GrowToPerforms(cfg, s, b, i, n);
  }

  lemma GrowToPerforms(cfg: Config, s: State, b: State, i: Input, n: int)
    requires cfg.target != 0.0 && DecisionOf(cfg, b, i) == GrowTo(n) && WantsGrowth(cfg, b, i)
    requires s.volume == b.volume && s.notified == b.notified && s.log == b.log
    ensures Performs(s, Act(cfg, s, i, GrowTo(n)), GrowOps(cfg, b, i), GrowEvents(cfg, b, i))
  {
    var s' := s.(lastGrowAttempt := i.now, volume := Grown(cfg, s.volume, n, i));
    if GrowthSucceeds(cfg, i) {
      TwoClears(s', Alerts.GrowthFailed, Alerts.GrowthUnavailable);
      var s2 := Cleared(Cleared(s', Alerts.GrowthFailed), Alerts.GrowthUnavailable);
      OneEvent(s2.log, VolumeGrown(CurrentGb(s.volume, i), n));
    } else {
      RaisePerforms(s', Alerts.GrowthFailed, i.later);
    }
  }

  function Optional(c: bool, e: Event): seq<Event> {
    if c then [e] else []
  }

  function HealEvents(s: State, h: State): seq<Event> {
    Optional(h.volume.Total() > s.volume.Total() + 1.0, FilesystemExtended)
  }

  function SweepEvents(cfg: Config, i: Input): seq<Event> {
    Optional(Scratch.SweptBytes(i.scratch, i.looks, i.live, cfg.dryRun) > 0, ScratchFreed)
  }

  function ReliefEvents(cfg: Config, g: State, i: Input): seq<Event> {
    Optional(StatsOf(g.volume, i.used).Percent() >= cfg.emergency && i.rootKnown && !cfg.dryRun && i.relief > 1.0,
             EmergencyRelief)
  }

  /** Every event of a pass that finds the mount, in order, around the alerts of steps 3 and 5. */
  function EventsBefore(cfg: Config, s: State, i: Input): seq<Event> {
    HealEvents(s, Heal(cfg, s, i)) + SweepEvents(cfg, i)
  }

  function EventsBetween(cfg: Config, s: State, i: Input): seq<Event>
    requires cfg.target != 0.0
  {
    var b := BeforeGrowth(cfg, s, i);
    GrowEvents(cfg, b, i) + ReliefEvents(cfg, GrowStep(cfg, b, i), i)
  }

  function PassEvents(cfg: Config, s: State, i: Input): seq<Event>
    requires cfg.target != 0.0
  {
    if !i.mountFound then []
    else
      var ops := GrowOps(cfg, BeforeGrowth(cfg, s, i), i);
      EventsBefore(cfg, s, i) + (Told(s.notified, ops)
      + (EventsBetween(cfg, s, i) + Told(Alerts.After(s.notified, ops), SystemOps(i))))
  }

  lemma OptionalRecords(log: seq<Event>, c: bool, e: Event)
    ensures Alerts.RecordedAll(log, Optional(c, e)) == if c then Alerts.Recorded(log, e) else log
  {
    OneEvent(log, e);
  }

  lemma HealRecords(cfg: Config, s: State, i: Input)
    ensures Heal(cfg, s, i).log == Alerts.RecordedAll(s.log, HealEvents(s, Heal(cfg, s, i)))
  {
    var h, v := Heal(cfg, s, i), s.volume.(cloud := i.cloud, block := i.block);
    OptionalRecords(s.log, h.volume.Total() > s.volume.Total() + 1.0, FilesystemExtended);
    assert v.Total() == s.volume.Total();
    if !GapFound(v, i) {
      assert h == s.(volume := v);
    }
  }

  lemma SweepRecords(cfg: Config, s: State, i: Input)
    ensures SweepStep(cfg, s, i).log == Alerts.RecordedAll(s.log, SweepEvents(cfg, i))
  {
    OptionalRecords(s.log, Scratch.SweptBytes(i.scratch, i.looks, i.live, cfg.dryRun) > 0, ScratchFreed);
  }

  lemma BeforeRecords(cfg: Config, s: State, i: Input)
    ensures BeforeGrowth(cfg, s, i).log == Alerts.RecordedAll(s.log, EventsBefore(cfg, s, i))
  {
    var h := Heal(cfg, s, i);
    HealRecords(cfg, s, i);
    SweepRecords(cfg, h, i);
    Alerts.RecordedAppend(s.log, HealEvents(s, h), SweepEvents(cfg, i));
  }

  lemma BetweenRecords(cfg: Config, s: State, i: Input)
    requires cfg.target != 0.0
    ensures var b := BeforeGrowth(cfg, s, i);
            var r := ReliefStep(cfg, GrowStep(cfg, b, i), i);
            && r.notified == Alerts.After(s.notified, GrowOps(cfg, b, i))
            && r.log == Alerts.RecordedAll(Alerts.RecordedAll(b.log, Told(s.notified, GrowOps(cfg, b, i))),
                                           EventsBetween(cfg, s, i))
  {
    var b := BeforeGrowth(cfg, s, i);
    var g := GrowStep(cfg, b, i);
    VolumeRuns.BeforeGrowthFrame(cfg, s, i);
    GrowStepPerforms(cfg, b, i);
    var told := Alerts.RecordedAll(b.log, Told(b.notified, GrowOps(cfg, b, i)));
    OneEvent(g.log, EmergencyRelief);
    Alerts.RecordedAppend(told, GrowEvents(cfg, b, i), ReliefEvents(cfg, g, i));
  }

  /** A pass performs its operations and records its events, nothing else. */
  lemma PassPerforms(cfg: Config, s: State, i: Input)
    requires cfg.target != 0.0
    ensures Pass(cfg, s, i).notified == Alerts.After(s.notified, PassOps(cfg, s, i))
    ensures Pass(cfg, s, i).log == Alerts.RecordedAll(s.log, PassEvents(cfg, s, i))
  {
    if i.mountFound {
      var b := BeforeGrowth(cfg, s, i);
      var r := ReliefStep(cfg, GrowStep(cfg, b, i), i);
      var ops := GrowOps(cfg, b, i);
      BeforeRecords(cfg, s, i);
      BetweenRecords(cfg, s, i);
      SystemPerforms(r, i);
      Alerts.AfterAppend(s.notified, ops, SystemOps(i));
      FourParts(s.log, EventsBefore(cfg, s, i), Told(s.notified, ops), EventsBetween(cfg, s, i),
                Told(r.notified, SystemOps(i)));
    }
  }

  lemma SystemPerforms(s: State, i: Input)
    ensures Performs(s, SystemStep(s, i), SystemOps(i), [])
  {
    RaisePerforms(s, Alerts.SystemDiskFull, i.last);
    ClearPerforms(s, Alerts.SystemDiskFull);
  }

  lemma FourParts(log: seq<Event>, a: seq<Event>, b: seq<Event>, c: seq<Event>, d: seq<Event>)
    ensures Alerts.RecordedAll(log, a + (b + (c + d)))
            == Alerts.RecordedAll(Alerts.RecordedAll(Alerts.RecordedAll(Alerts.RecordedAll(log, a), b), c), d)
  {
    Alerts.RecordedAppend(log, a, b + (c + d));
    var la := Alerts.RecordedAll(log, a);
    Alerts.RecordedAppend(la, b, c + d);
    Alerts.RecordedAppend(Alerts.RecordedAll(la, b), c, d);
  }

  function RunOps(cfg: Config, s: State, inputs: seq<Input>): seq<Alerts.Op>
    requires cfg.target != 0.0
    decreases |inputs|
  {
    if inputs == [] then []
    else
      var n := |inputs| - 1;
      RunOps(cfg, s, inputs[..n]) + PassOps(cfg, Run(cfg, s, inputs[..n]), inputs[n])
  }

  function RunEvents(cfg: Config, s: State, inputs: seq<Input>): seq<Event>
    requires cfg.target != 0.0
    decreases |inputs|
  {
    if inputs == [] then []
    else
      var n := |inputs| - 1;
      RunEvents(cfg, s, inputs[..n]) + PassEvents(cfg, Run(cfg, s, inputs[..n]), inputs[n])
  }

  function AlertsOf(es: seq<Event>): seq<Event> {
    if es == [] then []
    else AlertsOf(es[..|es| - 1]) + (if es[|es| - 1].Alert? then [es[|es| - 1]] else [])
  }

  lemma {:induction false} AlertsAppend(a: seq<Event>, b: seq<Event>)
    ensures AlertsOf(a + b) == AlertsOf(a) + AlertsOf(b)
    decreases |b|
  {
    if b == [] {
      assert a + b == a;
    } else {
      assert (a + b)[..|a + b| - 1] == a + b[..|b| - 1];
      AlertsAppend(a, b[..|b| - 1]);
    }
  }

  lemma {:induction false} AllAlerts(es: seq<Event>)
    ensures (forall e :: e in es ==> e.Alert?) ==> AlertsOf(es) == es
    ensures (forall e :: e in es ==> !e.Alert?) ==> AlertsOf(es) == []
    decreases |es|
  {
    if es != [] {
      assert es == es[..|es| - 1] + [es[|es| - 1]];
      AllAlerts(es[..|es| - 1]);
    }
  }

  lemma {:induction false} ToldAreAlerts(n: Alerts.Notified, ops: seq<Alerts.Op>)
    ensures forall e :: e in Told(n, ops) ==> e.Alert?
    decreases |ops|
  {
    if ops != [] {
      ToldAreAlerts(n, ops[..|ops| - 1]);
    }
  }

  lemma PassAlerts(cfg: Config, s: State, i: Input)
    requires cfg.target != 0.0
    ensures AlertsOf(PassEvents(cfg, s, i)) == Told(s.notified, PassOps(cfg, s, i))
  {
    if i.mountFound {
      var ops := GrowOps(cfg, BeforeGrowth(cfg, s, i), i);
      var n := Alerts.After(s.notified, ops);
      var a, b, c, d := EventsBefore(cfg, s, i), Told(s.notified, ops), EventsBetween(cfg, s, i), Told(n, SystemOps(i));
      ToldAppend(s.notified, ops, SystemOps(i));
      ToldAreAlerts(s.notified, ops);
      ToldAreAlerts(n, SystemOps(i));
      OthersAreNoAlerts(cfg, s, i);
      AlertsOfFour(a, b, c, d);
    }
  }

  lemma OthersAreNoAlerts(cfg: Config, s: State, i: Input)
    requires cfg.target != 0.0
    ensures forall e :: e in EventsBefore(cfg, s, i) || e in EventsBetween(cfg, s, i) ==> !e.Alert?
  {
    var b := BeforeGrowth(cfg, s, i);
    assert forall e :: e in GrowEvents(cfg, b, i) ==> !e.Alert?;
    assert forall e :: e in ReliefEvents(cfg, GrowStep(cfg, b, i), i) ==> !e.Alert?;
    assert forall e :: e in HealEvents(s, Heal(cfg, s, i)) ==> !e.Alert?;
    assert forall e :: e in SweepEvents(cfg, i) ==> !e.Alert?;
  }

  lemma AlertsOfFour(a: seq<Event>, b: seq<Event>, c: seq<Event>, d: seq<Event>)
    requires forall e :: e in a || e in c ==> !e.Alert?
    requires forall e :: e in b || e in d ==> e.Alert?
    ensures AlertsOf(a + (b + (c + d))) == b + d
  {
    AllAlerts(a);
    AllAlerts(b);
    AllAlerts(c);
    AllAlerts(d);
    AlertsAppend(c, d);
    AlertsAppend(b, c + d);
    AlertsAppend(a, b + (c + d));
  }

  /**
   The log holds the last 500 events of everything the run recorded, the alerts among these are exactly the
   reported operations in their order, and the notification times are those of the run's operations.
   */
  lemma {:induction false} RunIsRecorded(cfg: Config, s: State, inputs: seq<Input>)
    requires cfg.target != 0.0
    ensures var r := Run(cfg, s, inputs);
            && r.notified == Alerts.After(s.notified, RunOps(cfg, s, inputs))
            && r.log == Alerts.RecordedAll(s.log, RunEvents(cfg, s, inputs))
            && AlertsOf(RunEvents(cfg, s, inputs)) == Told(s.notified, RunOps(cfg, s, inputs))
    ensures |s.log| <= Alerts.EVENTS_KEEP ==>
              Run(cfg, s, inputs).log == Alerts.Latest(s.log + RunEvents(cfg, s, inputs))
    decreases |inputs|
  {
    if inputs != [] {
      var n := |inputs| - 1;
      var before, s', i := inputs[..n], Run(cfg, s, inputs[..n]), inputs[n];
      RunIsRecorded(cfg, s, before);
      PassPerforms(cfg, s', i);
      PassAlerts(cfg, s', i);
      Alerts.AfterAppend(s.notified, RunOps(cfg, s, before), PassOps(cfg, s', i));
      Alerts.RecordedAppend(s.log, RunEvents(cfg, s, before), PassEvents(cfg, s', i));
      AlertsAppend(RunEvents(cfg, s, before), PassEvents(cfg, s', i));
      ToldAppend(s.notified, RunOps(cfg, s, before), PassOps(cfg, s', i));
    }
    if |s.log| <= Alerts.EVENTS_KEEP {
      Alerts.LogIsRecentHistory(s.log, RunEvents(cfg, s, inputs));
    }
  }

  ghost predicate OpsWithin(ops: seq<Alerts.Op>, from: real, to: real) {
    && Alerts.InOrder(ops)
    && forall k :: 0 <= k < |ops| && ops[k].Raise? ==> from <= ops[k].at <= to
  }

  lemma PassOpsInOrder(cfg: Config, s: State, i: Input)
    requires cfg.target != 0.0 && 0.0 <= i.now <= i.later <= i.last
    ensures OpsWithin(PassOps(cfg, s, i), i.now, i.last)
  {
    if i.mountFound {
      var b := BeforeGrowth(cfg, s, i);
      assert OpsWithin(GrowOps(cfg, b, i), i.now, i.later) && OpsWithin(SystemOps(i), i.later, i.last);
      OpsFollow(GrowOps(cfg, b, i), SystemOps(i), i.now, i.later, i.last);
    }
  }

  lemma OpsFollow(a: seq<Alerts.Op>, b: seq<Alerts.Op>, x: real, y: real, z: real)
    requires OpsWithin(a, x, y) && OpsWithin(b, y, z) && x <= y <= z
    ensures OpsWithin(a + b, x, z)
  {
  }

  lemma InOrderAppend(a: seq<Alerts.Op>, b: seq<Alerts.Op>, x: real, y: real, z: real)
    requires OpsWithin(a, 0.0, x) && OpsWithin(b, y, z) && 0.0 <= x <= y <= z
    ensures OpsWithin(a + b, 0.0, z)
  {
  }

  /** The operations of a run happen on a clock that never goes back, so everything proved of alerts holds of runs. */
  lemma {:induction false} RunOpsInOrder(cfg: Config, s: State, inputs: seq<Input>)
    requires cfg.target != 0.0 && Feasible(cfg, s, inputs)
    ensures OpsWithin(RunOps(cfg, s, inputs), 0.0, if inputs == [] then 0.0 else inputs[|inputs| - 1].last)
    decreases |inputs|
  {
    if inputs != [] {
      var n := |inputs| - 1;
      FeasiblePrefix(cfg, s, inputs, n);
      RunOpsInOrder(cfg, s, inputs[..n]);
      assert FitsAt(cfg, s, inputs, n);
      var s', i := Run(cfg, s, inputs[..n]), inputs[n];
      PassOpsInOrder(cfg, s', i);
      var x := if n == 0 then 0.0 else inputs[n - 1].last;
      if n > 0 {
        VolumeRuns.ClockAdvances(cfg, s, inputs, n - 1, n);
        assert FitsAt(cfg, s, inputs, n - 1);
      }
      InOrderAppend(RunOps(cfg, s, inputs[..n]), PassOps(cfg, s', i), x, i.now, i.last);
    }
  }

  /**
   Alerts over a whole run from a fresh start: the operation at `j` puts an alert in the log exactly when
   its window has passed since the epoch and since every standing report of its kind.
   */
  lemma RunAlertsAreDebounced(cfg: Config, s: State, inputs: seq<Input>, j: nat)
    requires cfg.target != 0.0 && Feasible(cfg, s, inputs) && s.notified == map[]
    requires j < |RunOps(cfg, s, inputs)|
    ensures var ops := RunOps(cfg, s, inputs);
            var window := if ops[j].kind == Alerts.GrowthFailed then 3600.0 else 21600.0;
            && AlertsOf(RunEvents(cfg, s, inputs)) == Told(map[], ops)
            && (Alerts.Reported(ops, j) <==>
                  && ops[j].Raise? && ops[j].at >= window
                  && forall i :: 0 <= i < j && Alerts.Stands(ops, i, j, ops[j].kind) ==>
                       ops[j].at - ops[i].at >= window)
  {
    RunIsRecorded(cfg, s, inputs);
    RunOpsInOrder(cfg, s, inputs);
    Alerts.ReportedExactly(RunOps(cfg, s, inputs), j);
  }

  // ----- the token -----

  /** The provider was asked in pass `k` about this volume and token, and said `ok`. */
  ghost predicate Answered(inputs: seq<Input>, k: nat, c: TokenCheck)
    requires k < |inputs|
  {
    var i := inputs[k];
    && i.mountFound && i.volumeId == Some(c.volumeId) && i.token == Some(c.token)
    && i.tokenAnswer == c.ok && i.now == c.at
  }

  lemma PassToken(cfg: Config, s: State, i: Input)
    requires cfg.target != 0.0
    ensures Pass(cfg, s, i).tokenCheck ==
            if i.mountFound then CreditOf(BeforeGrowth(cfg, s, i), i).1 else s.tokenCheck
    ensures CreditOf(BeforeGrowth(cfg, s, i), i) == CreditOf(s, i)
  {
    VolumeRuns.BeforeGrowthFrame(cfg, s, i);
    if i.mountFound {
      VolumeRuns.PassIsGrowStep(cfg, s, i);
      VolumeRuns.GrowStepFrame(cfg, BeforeGrowth(cfg, s, i), i);
    }
  }

  lemma {:induction false} RememberedAnswer(cfg: Config, s: State, inputs: seq<Input>) returns (k: nat)
    requires cfg.target != 0.0 && s.tokenCheck == None
    ensures Run(cfg, s, inputs).tokenCheck.Some? ==>
              k < |inputs| && Answered(inputs, k, Run(cfg, s, inputs).tokenCheck.value)
    decreases |inputs|
  {
    if inputs == [] {
      k := 0;
    } else {
      var n := |inputs| - 1;
      var s', i := Run(cfg, s, inputs[..n]), inputs[n];
      k := RememberedAnswer(cfg, s, inputs[..n]);
      PassToken(cfg, s', i);
      if Run(cfg, s, inputs).tokenCheck != s'.tokenCheck {
        k := n;
      }
    }
  }

  /**
   A verdict on the token is never older than six hours: what a pass acts on is what the provider said, of
   the same volume and the same token, in this pass or in an earlier one less than six hours ago.
   */
  lemma TokenVerdictIsRecent(cfg: Config, s: State, inputs: seq<Input>, i: Input) returns (k: nat)
    requires cfg.target != 0.0 && s.tokenCheck == None && i.mountFound
    requires CreditOf(Run(cfg, s, inputs), i).0.Checked?
    ensures k <= |inputs|
    ensures var from := (inputs + [i])[k];
            && from.volumeId == i.volumeId && from.token == i.token
            && from.tokenAnswer == CreditOf(Run(cfg, s, inputs), i).0.ok
            && i.now - from.now < 21600.0
  {
    var s' := Run(cfg, s, inputs);
    k := RememberedAnswer(cfg, s, inputs);
    if !TokenFresh(s'.tokenCheck, i.now, i.volumeId.value, i.token.value) {
      k := |inputs|;
    }
  }
}
