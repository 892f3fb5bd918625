/** `class Autopilot` of the storage autopilot, method by method, each tied to its step of `Pilot`. */
module AutopilotClass {
  import opened Growth
  import opened Options
  import opened Pilot
  import WriteRate
  import Alerts
  import Scratch
  import VolumeRuns

  /** The state of a resize action at the provider. */
  datatype Action = Running | Success | Failure

  class Autopilot {
    const cfg: Config
    var samples: seq<WriteRate.Sample>
    var notified: Alerts.Notified
    var lastGrowAttempt: real
    var tokenCheck: Option<TokenCheck>
    var log: seq<Event>
    // the world the autopilot acts on
    var volume: Volume
    var scratch: Scratch.Root

    constructor (cfg: Config, volume: Volume, scratch: Scratch.Root)
      ensures this.cfg == cfg && Snapshot() == State([], map[], 0.0, None, [], volume, scratch)
    {
      this.cfg := cfg;
      samples, notified, lastGrowAttempt, tokenCheck, log := [], map[], 0.0, None, [];
      this.volume, this.scratch := volume, scratch;
    }

    function Snapshot(): State
      reads this
    {
      State(samples, notified, lastGrowAttempt, tokenCheck, log, volume, scratch)
    }

    method Record(e: Event)
      modifies this`log
      ensures Snapshot() == Pilot.Record(old(Snapshot()), e)
    {
      var lines := log + [e];
      log := if |lines| <= Alerts.EVENTS_KEEP then lines else lines[|lines| - Alerts.EVENTS_KEEP..];
    }

    method EventOnce(kind: Alerts.Kind, now: real)
      modifies this`notified, this`log
      ensures Snapshot() == Raise(old(Snapshot()), kind, now)
    {
      var last := if kind in notified then notified[kind] else 0.0;
      if now - last < Alerts.RepeatSeconds(kind) {
        return;
      }
      notified := notified[kind := now];
      Record(Alert(kind));
    }

    method ClearCondition(kind: Alerts.Kind)
      modifies this`notified
      ensures Snapshot() == Cleared(old(Snapshot()), kind)
    {
      notified := notified - {kind};
    }

    /** The steepest recent rate in GiB per minute, and the sample buffer for the next pass. */
    method MeasureRate(now: real, used: real) returns (rate: real)
      modifies this`samples
      ensures samples == WriteRate.Keep(old(samples), WriteRate.Sample(now, used))
      ensures rate == WriteRate.Rate(WriteRate.Seen(old(samples), WriteRate.Sample(now, used)), now, used)
    {
      var recent := WriteRate.Recent(samples, now) + [WriteRate.Sample(now, used)];
      samples := WriteRate.LastOf(recent, WriteRate.SAMPLE_KEEP_COUNT);
      rate := 0.0;
      var w := 0;
      while w < |WriteRate.WINDOWS_SECONDS|
        invariant 0 <= w <= |WriteRate.WINDOWS_SECONDS|
        invariant rate == WriteRate.RateOver(recent, now, used, w)
      {
        var older := WriteRate.FirstIn(recent, now, WriteRate.WINDOWS_SECONDS[w]);
        if older.Some? && now - older.value.at > 0.0 {
          rate := WriteRate.Max(rate, (used - older.value.used) / (now - older.value.at) * 60.0);
        }
        w := w + 1;
      }
      rate := WriteRate.Max(rate, 0.0);
    }

    method ExtendFilesystem(fstype: FsType, works: bool) returns (ok: bool)
      modifies this`volume
      ensures ok == ExtendSucceeds(cfg, fstype, works)
      ensures volume == Extended(cfg, old(volume), fstype, works)
    {
      if cfg.dryRun {
        return true;
      }
      if fstype == OtherFs || !works {
        return false;
      }
      volume := volume.(fs := volume.block);
      ok := true;
    }

    method VerifyToken(now: real, volumeId: string, token: string, answer: bool) returns (ok: bool)
      modifies this`tokenCheck
      ensures (ok, tokenCheck) == Pilot.VerifyToken(old(tokenCheck), now, volumeId, token, answer)
    {
      if TokenFresh(tokenCheck, now, volumeId, token) {
        return tokenCheck.value.ok;
      }
      tokenCheck := Some(TokenCheck(now, volumeId, token, answer));
      ok := answer;
    }

    /**
     Asks the provider for `newGb`, waits for the action, then for the kernel. Provider and kernel answer as
     they like within what is possible; `outcome` tells what they did.
     */
    method Grow(newGb: int, start: real) returns (ok: bool, outcome: Resize)
      requires volume.block <= volume.cloud as real
      modifies this`volume
      ensures cfg.dryRun ==> !ok && volume == old(volume)
      ensures !cfg.dryRun ==>
                && ResizePossible(old(volume), newGb, outcome)
                && volume == Resized(old(volume), newGb, outcome)
                && ok == outcome.Done?
    {
      outcome := Refused;
      if cfg.dryRun {
        return false, outcome;
      }
      var accepted: bool := *;
      if !accepted {
        return false, outcome;
      }
      var promised := if newGb > volume.promised then newGb else volume.promised;
      var cloud := if newGb > volume.cloud then newGb else volume.cloud;
      var action: Action := *;
      var clock := start;
      var deadline := clock + 300.0;
      while action == Running && clock < deadline
        decreases deadline - clock
      {
        var delay: real := *;
        clock := clock + 3.0 + WriteRate.Max(delay, 0.0);
        action := *;
      }
      if action != Success {
        var took: bool := *;
        volume := volume.(promised := promised, cloud := if took then cloud else volume.cloud);
        return false, Unfinished(took);
      }
      var seen := KernelView(volume.block, cloud);
      deadline := clock + 120.0;
      while seen < newGb as real && clock < deadline
        invariant volume == old(volume)
        invariant volume.block <= seen && (seen == volume.block || seen <= cloud as real)
        decreases deadline - clock
      {
        var delay: real := *;
        clock := clock + 3.0 + WriteRate.Max(delay, 0.0);
        seen := KernelView(seen, cloud);
      }
      volume := volume.(promised := promised, cloud := cloud, block := seen);
      if seen < newGb as real {
        return false, KernelBlind(seen);
      }
      return true, Done(seen);
    }

    /** What the kernel may show next of a device of `cloud` GB of which it showed `before`. */
    method KernelView(before: real, cloud: int) returns (seen: real)
      ensures before <= seen && (seen == before || seen <= cloud as real)
    {
      var shown: real := *;
      seen := if before <= shown <= cloud as real then shown else before;
    }

    method SweepScratch(looks: seq<Scratch.Look>, live: set<string>) returns (freed: nat)
      modifies this`scratch
      ensures scratch == Scratch.SweptRoot(old(scratch), looks, live, cfg.dryRun)
      ensures freed == Scratch.SweptBytes(old(scratch), looks, live, cfg.dryRun)
    {
      freed := 0;
      var k := 0;
      while k < |looks|
        invariant 0 <= k <= |looks|
        invariant scratch == Scratch.SweptRoot(old(scratch), looks[..k], live, cfg.dryRun)
        invariant freed == Scratch.SweptBytes(old(scratch), looks[..k], live, cfg.dryRun)
      {
        var entry := looks[k];
        assert looks[..k + 1][..k] == looks[..k];
        if entry.name in scratch && Scratch.IsRestore(entry.name) && scratch[entry.name].isDir {
          var dir := scratch[entry.name];
          var dead :=
            if dir.lease.Some? then entry.now - dir.lease.value >= Scratch.LEASE_STALE_SECONDS
            else Scratch.ContainerOf(entry.name) !in live
                 && entry.now - Scratch.Latest(dir.at, dir.children) >= Scratch.UNLEASED_STALE_SECONDS;
          if dead && !cfg.dryRun {
            scratch := if entry.left.None? then scratch - {entry.name} else scratch[entry.name := entry.left.value];
            freed := freed + dir.size;
          }
        }
        k := k + 1;
      }
      assert looks[..|looks|] == looks;
    }

    /** `try_grow`, for a volume that has a reason to grow. */
    method TryGrow(i: Input, rate: real, credit: Credit) returns (outcome: Resize)
      requires cfg.target != 0.0 && volume.block <= volume.cloud as real
      modifies this`volume, this`lastGrowAttempt, this`notified, this`log
      ensures var d := Decide(cfg, old(volume), old(lastGrowAttempt), i, rate, credit);
              && Snapshot() == Act(cfg, old(Snapshot()), i.(resize := outcome), d)
              && (d.GrowTo? && !cfg.dryRun ==> ResizePossible(old(volume), d.newGb, outcome))
    {
      outcome := Refused;
      if credit != Checked(true) {
        EventOnce(Alerts.GrowthUnavailable, i.now);
        return;
      }
      var current := CurrentGb(volume, i);
      if current >= cfg.maxGb {
        EventOnce(Alerts.CeilingReached, i.now);
        return;
      }
      if i.now - lastGrowAttempt < GROW_RETRY_SECONDS {
        return;
      }
      var newGb := NewGb(cfg, current, i.used, rate);
      lastGrowAttempt := i.now;
      var ok: bool;
      ok, outcome := Grow(newGb, i.now);
      if ok {
        ok := ExtendFilesystem(i.fstype, i.growExtendWorks);
      }
      if !ok {
        if !cfg.dryRun {
          EventOnce(Alerts.GrowthFailed, i.later);
        }
        return;
      }
      ClearCondition(Alerts.GrowthFailed);
      ClearCondition(Alerts.GrowthUnavailable);
      Record(VolumeGrown(current, newGb));
    }

    /** Step 3: the token's verdict, asked for whenever it can be. */
    method CheckCredit(i: Input) returns (credit: Credit)
      modifies this`tokenCheck
      ensures (credit, tokenCheck) == CreditOf(old(Snapshot()), i)
    {
      credit := NoToken;
      if i.token.Some? && i.volumeId.Some? {
        var ok := VerifyToken(i.now, i.volumeId.value, i.token.value, i.tokenAnswer);
        credit := Checked(ok);
      } else if i.token.Some? {
        credit := NoVolume;
      }
    }

    /** Step 1, on the volume as the world now has it. */
    method HealGap(i: Input)
      modifies this`volume, this`log
      ensures Snapshot() == Heal(cfg, old(Snapshot()), i)
    {
      volume := volume.(cloud := i.cloud, block := i.block);
      if GapFound(volume, i) {
        var before := volume.Total();
        var ok := ExtendFilesystem(i.fstype, i.extendWorks);
        if ok && !cfg.dryRun && volume.Total() > before + 1.0 {
          Record(FilesystemExtended);
        }
      }
    }

    /** Step 2. */
    method FreeScratch(i: Input)
      modifies this`scratch, this`log
      ensures Snapshot() == SweepStep(cfg, old(Snapshot()), i)
    {
      scratch := i.scratch;
      var freed := SweepScratch(i.looks, i.live);
      if freed > 0 {
        Record(ScratchFreed);
      }
    }

    method ClearGrowthConditions()
      modifies this`notified
      ensures Snapshot() == ClearedAll(old(Snapshot()))
    {
      ClearCondition(Alerts.GrowthUnavailable);
      ClearCondition(Alerts.GrowthFailed);
      ClearCondition(Alerts.CeilingReached);
    }

    /** Step 3. */
    method GrowIfNeeded(i: Input) returns (outcome: Resize)
      requires cfg.target != 0.0 && volume.block <= volume.cloud as real
      modifies this`samples, this`tokenCheck, this`volume, this`lastGrowAttempt, this`notified, this`log
      ensures Snapshot() == GrowStep(cfg, old(Snapshot()), i.(resize := outcome))
      ensures WantsGrowth(cfg, old(Snapshot()), i) && DecisionOf(cfg, old(Snapshot()), i).GrowTo? && !cfg.dryRun ==>
                ResizePossible(old(volume), DecisionOf(cfg, old(Snapshot()), i).newGb, outcome)
    {
      outcome := Refused;
      ghost var s := Snapshot();
      var rate := MeasureRate(i.now, i.used);
      var credit := CheckCredit(i);
      assert rate == RateSeen(s, i) && credit == CreditOf(s, i).0;
      if HasReason(cfg, StatsOf(volume, i.used), rate) {
        outcome := TryGrow(i, rate, credit);
      } else {
        ClearGrowthConditions();
      }
    }

    /** Steps 4 and 5. */
    method RelieveAndWatch(i: Input)
      modifies this`notified, this`log
      ensures Snapshot() == SystemStep(ReliefStep(cfg, old(Snapshot()), i), i)
    {
      if StatsOf(volume, i.used).Percent() >= cfg.emergency && i.rootKnown && !cfg.dryRun && i.relief > 1.0 {
        Record(EmergencyRelief);
      }
      if i.systemPercent >= 90.0 {
        EventOnce(Alerts.SystemDiskFull, i.last);
      } else {
        ClearCondition(Alerts.SystemDiskFull);
      }
    }

    /** `run_once`: one pass, for whatever the provider makes of a resize. */
    method RunOnce(i: Input) returns (outcome: Resize)
      requires cfg.target != 0.0 && Possible(Snapshot(), i)
      modifies this
      ensures Snapshot() == Pass(cfg, old(Snapshot()), i.(resize := outcome))
      ensures Request(cfg, old(Snapshot()), i).Some? && !cfg.dryRun ==>
                ResizePossible(old(volume).(cloud := i.cloud, block := i.block),
                               Request(cfg, old(Snapshot()), i).value, outcome)
    {
      outcome := Refused;
      if !i.mountFound {
        volume := volume.(cloud := i.cloud, block := i.block);
        scratch := i.scratch;
        return;
      }
      HealGap(i);
      FreeScratch(i);
      ghost var b := Snapshot();
      SizesBeforeGrowth(cfg, old(Snapshot()), i);
      outcome := GrowIfNeeded(i);
      RelieveAndWatch(i);
      OutcomeComesLater(cfg, old(Snapshot()), i, outcome);
      SameButForOutcome(cfg, b, i, outcome);
    }
  }

  /** Healing and sweeping leave the sizes the world has. */
  lemma SizesBeforeGrowth(cfg: Config, s: State, i: Input)
    requires cfg.target != 0.0
    ensures var v := BeforeGrowth(cfg, s, i).volume;
            v.cloud == i.cloud && v.block == i.block && v.promised == s.volume.promised
  {
    VolumeRuns.PassVolume(cfg, s, i);
  }

  /** What steps 1 and 2 do does not depend on how a later resize comes out. */
  lemma OutcomeComesLater(cfg: Config, s: State, i: Input, o: Resize)
    ensures BeforeGrowth(cfg, s, i.(resize := o)) == BeforeGrowth(cfg, s, i)
  {
    HealComesFirst(cfg, s, i, o);
    SweepComesFirst(cfg, Heal(cfg, s, i), i, o);
  }

  lemma HealComesFirst(cfg: Config, s: State, i: Input, o: Resize)
    ensures Heal(cfg, s, i.(resize := o)) == Heal(cfg, s, i)
  {
  }

  lemma SweepComesFirst(cfg: Config, s: State, i: Input, o: Resize)
    ensures SweepStep(cfg, s, i.(resize := o)) == SweepStep(cfg, s, i)
  {
  }

  lemma SameButForOutcome(cfg: Config, s: State, i: Input, o: Resize)
    ensures var i' := i.(resize := o);
            forall g: State {:trigger ReliefStep(cfg, g, i)} ::
              SystemStep(ReliefStep(cfg, g, i'), i') == SystemStep(ReliefStep(cfg, g, i), i)
  {
  }
}
