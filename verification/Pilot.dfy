/**
 The storage autopilot as a state machine: what one pass of `run_once` does to the state that persists
 between passes and to the world. Sizes are in GiB, times in seconds since the epoch.
 */
module Pilot {
  import opened Growth
  import opened Options
  import opened WriteRate
  import Alerts
  import Scratch

  /** The last answer about the token: when, for which volume and token, and what it was. */
  datatype TokenCheck = TokenCheck(at: real, volumeId: string, token: string, ok: bool)

  datatype FsType = Ext | Xfs | OtherFs

  /**
   The data volume: the size the provider may still bring it to, the size it has there, the size the kernel
   sees, the size of the file system, the share of it that `totalBytes` reports, its own structures taken
   off, and the share that files can fill.
   */
  datatype Volume = Volume(promised: int, cloud: int, block: real, fs: real, shown: real, usable: real) {
    /** `totalBytes` */
    function Total(): real { Part(shown, fs) }
  }

  function Part(share: real, size: real): real { share * size }

  datatype Event =
    | FilesystemExtended | ScratchFreed | VolumeGrown(fromGb: int, toGb: int) | EmergencyRelief
    | Alert(kind: Alerts.Kind)

  datatype State = State(samples: seq<Sample>, notified: Alerts.Notified, lastGrowAttempt: real,
                         tokenCheck: Option<TokenCheck>, log: seq<Event>, volume: Volume,
                         scratch: Scratch.Root)

  /** How the provider and the kernel take a resize request. */
  datatype Resize =
    | Refused                 // the request is turned down
    | Unfinished(took: bool)  // accepted, but no success before the deadline; it may have taken effect
    | KernelBlind(seen: real) // grown at the provider, while the kernel still shows less
    | Done(seen: real)        // grown, and the kernel shows it

  /** All that a pass learns from the world. */
  datatype Input = Input(
    mountFound: bool, hasDevice: bool, volumeId: Option<string>, fstype: FsType, sizeKnown: bool,
    token: Option<string>,
    cloud: int, block: real,          // what the volume has become since the last pass
    extendWorks: bool,                // the extend command of step 1 succeeds
    scratch: Scratch.Root, looks: seq<Scratch.Look>, live: set<string>,
    now: real, used: real,            // the time of measuring, and what is used then
    tokenAnswer: bool, resize: Resize, growExtendWorks: bool,
    later: real,                      // the time after the growth
    rootKnown: bool, relief: real,    // what an emergency cleanup gains
    systemPercent: real, last: real)  // the system disk, and the time it is judged

  /** The world's laws: volumes never shrink by themselves, and what is seen is there. */
  ghost predicate Lawful(v: Volume) {
    0.0 < v.fs <= v.block <= v.cloud as real && v.cloud <= v.promised && 0.0 < v.usable <= v.shown <= 1.0
  }

  ghost predicate Possible(s: State, i: Input) {
    && s.volume.cloud <= i.cloud <= s.volume.promised && s.volume.block <= i.block <= i.cloud as real
    && (i.volumeId.Some? ==> i.hasDevice)
    && 0.0 <= i.now <= i.later <= i.last && 0.0 <= i.used
    && Scratch.Distinct(i.looks)
  }

  /** What a resize to `n` GB leaves of the volume. */
  function Resized(v: Volume, n: int, r: Resize): Volume {
    var promised := if n > v.promised then n else v.promised;
    var cloud := if n > v.cloud then n else v.cloud;
    match r
    case Refused => v
    case Unfinished(took) => v.(promised := promised, cloud := if took then cloud else v.cloud)
    case KernelBlind(seen) => v.(promised := promised, cloud := cloud, block := seen)
    case Done(seen) => v.(promised := promised, cloud := cloud, block := seen)
  }

  /** The kernel never shows more than is there nor less than it showed, and the outcome is told by the target. */
  ghost predicate ResizePossible(v: Volume, n: int, r: Resize) {
    match r
    case Refused => true
    case Unfinished(_) => true
    case KernelBlind(seen) => v.block <= seen < n as real
    case Done(seen) => n as real <= seen && v.block <= seen <= (if n > v.cloud then n else v.cloud) as real
  }

  // ----- the steps of a pass -----

  function Record(s: State, e: Event): State {
    s.(log := Alerts.Recorded(s.log, e))
  }

  /** `event_once` */
  function Raise(s: State, kind: Alerts.Kind, at: real): State {
    var op := Alerts.Raise(kind, at);
    var told := s.(notified := Alerts.Apply(s.notified, op));
    if Alerts.Reports(s.notified, op) then Record(told, Alert(kind)) else told
  }

  /** `clear_condition` */
  function Cleared(s: State, kind: Alerts.Kind): State {
    s.(notified := Alerts.Apply(s.notified, Alerts.Clear(kind)))
  }

  /** `extend_filesystem`: whether it reports success. */
  predicate ExtendSucceeds(cfg: Config, fstype: FsType, works: bool) {
    cfg.dryRun || (fstype != OtherFs && works)
  }

  function Extended(cfg: Config, v: Volume, fstype: FsType, works: bool): Volume {
    if !cfg.dryRun && ExtendSucceeds(cfg, fstype, works) then v.(fs := v.block) else v
  }

  const HEAL_GAP := 2.0

  /** Step 1 finds a resize that reached the block device but not the file system. */
  predicate GapFound(v: Volume, i: Input) {
    i.hasDevice && v.block != 0.0 && i.sizeKnown && v.fs != 0.0 && v.block - v.fs > HEAL_GAP
  }

  function Heal(cfg: Config, s: State, i: Input): State {
    var v := s.volume.(cloud := i.cloud, block := i.block);
    if !GapFound(v, i) then s.(volume := v)
    else
      var healed := Extended(cfg, v, i.fstype, i.extendWorks);
      var s' := s.(volume := healed);
      if healed.Total() > v.Total() + 1.0 then Record(s', FilesystemExtended) else s'
  }

  /** Step 2. */
  function SweepStep(cfg: Config, s: State, i: Input): State {
    var s' := s.(scratch := Scratch.SweptRoot(i.scratch, i.looks, i.live, cfg.dryRun));
    if Scratch.SweptBytes(i.scratch, i.looks, i.live, cfg.dryRun) > 0 then Record(s', ScratchFreed) else s'
  }

  const TOKEN_CHECK_SECONDS := 21600.0

  /** `verify_token` may answer from memory. */
  predicate TokenFresh(c: Option<TokenCheck>, now: real, volumeId: string, token: string) {
    c.Some? && now - c.value.at < TOKEN_CHECK_SECONDS && c.value.volumeId == volumeId && c.value.token == token
  }

  function VerifyToken(c: Option<TokenCheck>, now: real, volumeId: string, token: string, answer: bool)
    : (bool, Option<TokenCheck>)
  {
    if TokenFresh(c, now, volumeId, token) then (c.value.ok, c)
    else (answer, Some(TokenCheck(now, volumeId, token, answer)))
  }

  /** The `growth` record: no token configured, no such volume, or the token's verdict. */
  datatype Credit = NoToken | NoVolume | Checked(ok: bool)

  function CreditOf(s: State, i: Input): (Credit, Option<TokenCheck>) {
    if i.token.None? then (NoToken, s.tokenCheck)
    else if i.volumeId.None? then (NoVolume, s.tokenCheck)
    else
      var (ok, c) := VerifyToken(s.tokenCheck, i.now, i.volumeId.value, i.token.value, i.tokenAnswer);
      (Checked(ok), c)
  }

  const GROW_RETRY_SECONDS := 600.0

  /** What `try_grow` resolves to do. */
  datatype Decision = Unavailable | AtCeiling | Throttled | GrowTo(newGb: int)

  function CurrentGb(v: Volume, i: Input): int {
    if i.hasDevice && v.block != 0.0 then Ceil(v.block) else Ceil(v.Total())
  }

  function Decide(cfg: Config, v: Volume, lastGrowAttempt: real, i: Input, rate: real, credit: Credit): Decision
    requires cfg.target != 0.0
  {
    if credit != Checked(true) then Unavailable
    else if CurrentGb(v, i) >= cfg.maxGb then AtCeiling
    else if i.now - lastGrowAttempt < GROW_RETRY_SECONDS then Throttled
    else GrowTo(NewGb(cfg, CurrentGb(v, i), i.used, rate))
  }

  /** The volume after `grow` and the extension that follows it. */
  function Grown(cfg: Config, v: Volume, n: int, i: Input): Volume {
    if cfg.dryRun then v
    else
      var v' := Resized(v, n, i.resize);
      if i.resize.Done? then Extended(cfg, v', i.fstype, i.growExtendWorks) else v'
  }

  predicate GrowthSucceeds(cfg: Config, i: Input) {
    !cfg.dryRun && i.resize.Done? && ExtendSucceeds(cfg, i.fstype, i.growExtendWorks)
  }

  /** `try_grow` once the decision has fallen. */
  function Act(cfg: Config, s: State, i: Input, d: Decision): State {
    match d
    case Unavailable => Raise(s, Alerts.GrowthUnavailable, i.now)
    case AtCeiling => Raise(s, Alerts.CeilingReached, i.now)
    case Throttled => s
    case GrowTo(n) =>
      var s' := s.(lastGrowAttempt := i.now, volume := Grown(cfg, s.volume, n, i));
      if cfg.dryRun then s'
      else if GrowthSucceeds(cfg, i) then
        Record(Cleared(Cleared(s', Alerts.GrowthFailed), Alerts.GrowthUnavailable),
               VolumeGrown(CurrentGb(s.volume, i), n))
      else Raise(s', Alerts.GrowthFailed, i.later)
  }

  function ClearedAll(s: State): State {
    Cleared(Cleared(Cleared(s, Alerts.GrowthUnavailable), Alerts.GrowthFailed), Alerts.CeilingReached)
  }

  function StatsOf(v: Volume, used: real): Stats {
    Reading(v.fs, v.usable, used)
  }

  /** The write rate step 3 measures. */
  function RateSeen(s: State, i: Input): real {
    Rate(Seen(s.samples, Sample(i.now, i.used)), i.now, i.used)
  }

  /** Whether step 3 of a pass, entered with state `s`, has a reason to grow. */
  predicate WantsGrowth(cfg: Config, s: State, i: Input) {
    HasReason(cfg, StatsOf(s.volume, i.used), RateSeen(s, i))
  }

  function DecisionOf(cfg: Config, s: State, i: Input): Decision
    requires cfg.target != 0.0
  {
    Decide(cfg, s.volume, s.lastGrowAttempt, i, RateSeen(s, i), CreditOf(s, i).0)
  }

  /** Step 3. */
  function GrowStep(cfg: Config, s: State, i: Input): State
    requires cfg.target != 0.0
  {
    var s' := s.(samples := Keep(s.samples, Sample(i.now, i.used)), tokenCheck := CreditOf(s, i).1);
    if WantsGrowth(cfg, s, i) then Act(cfg, s', i, DecisionOf(cfg, s, i)) else ClearedAll(s')
  }

  /** Step 4. */
  function ReliefStep(cfg: Config, s: State, i: Input): State {
    if StatsOf(s.volume, i.used).Percent() >= cfg.emergency && i.rootKnown && !cfg.dryRun && i.relief > 1.0
    then Record(s, EmergencyRelief) else s
  }

  /** Step 5. */
  function SystemStep(s: State, i: Input): State {
    if i.systemPercent >= 90.0 then Raise(s, Alerts.SystemDiskFull, i.last) else Cleared(s, Alerts.SystemDiskFull)
  }

  /** The state in which step 3 starts. */
  function BeforeGrowth(cfg: Config, s: State, i: Input): State {
    SweepStep(cfg, Heal(cfg, s, i), i)
  }

  /** `run_once`: without a mount a pass does nothing, though the world may have moved. */
  function Pass(cfg: Config, s: State, i: Input): State
    requires cfg.target != 0.0
  {
    if !i.mountFound then s.(volume := s.volume.(cloud := i.cloud, block := i.block), scratch := i.scratch)
    else SystemStep(ReliefStep(cfg, GrowStep(cfg, BeforeGrowth(cfg, s, i), i), i), i)
  }

  function Run(cfg: Config, s: State, inputs: seq<Input>): State
    requires cfg.target != 0.0
    decreases |inputs|
  {
    if inputs == [] then s
    else Pass(cfg, Run(cfg, s, inputs[..|inputs| - 1]), inputs[|inputs| - 1])
  }

  /** The size a pass asks the provider for, if it asks. */
  function Request(cfg: Config, s: State, i: Input): Option<int>
    requires cfg.target != 0.0
  {
    var b := BeforeGrowth(cfg, s, i);
    if i.mountFound && WantsGrowth(cfg, b, i) && DecisionOf(cfg, b, i).GrowTo?
    then Some(DecisionOf(cfg, b, i).newGb) else None
  }

  /** A pass that can happen in state `s`. */
  ghost predicate Fits(cfg: Config, s: State, i: Input)
    requires cfg.target != 0.0
  {
    && Possible(s, i)
    && (Request(cfg, s, i).Some? ==>
          ResizePossible(s.volume.(cloud := i.cloud, block := i.block), Request(cfg, s, i).value, i.resize))
  }

  /** A run that can happen: passes one after the other, on a clock that never goes back. */
  ghost predicate Feasible(cfg: Config, s: State, inputs: seq<Input>)
    requires cfg.target != 0.0
  {
    && (forall k :: 0 <= k < |inputs| ==> FitsAt(cfg, s, inputs, k))
    && (forall k, l :: 0 <= k < l < |inputs| ==> inputs[k].last <= inputs[l].now)
  }

  ghost predicate FitsAt(cfg: Config, s: State, inputs: seq<Input>, k: nat)
    requires cfg.target != 0.0 && k < |inputs|
  {
    Fits(cfg, Run(cfg, s, inputs[..k]), inputs[k])
  }

  /** The beginning of a feasible run is feasible, and ends where its last pass begins. */
  lemma FeasiblePrefix(cfg: Config, s: State, inputs: seq<Input>, k: nat)
    requires cfg.target != 0.0 && k <= |inputs| && Feasible(cfg, s, inputs)
    ensures Feasible(cfg, s, inputs[..k])
  {
    forall j | 0 <= j < k ensures FitsAt(cfg, s, inputs[..k], j) {
      assert inputs[..k][..j] == inputs[..j];
      assert FitsAt(cfg, s, inputs, j);
    }
  }

  lemma RunStep(cfg: Config, s: State, inputs: seq<Input>, k: nat)
    requires cfg.target != 0.0 && k < |inputs|
    ensures Run(cfg, s, inputs[..k + 1]) == Pass(cfg, Run(cfg, s, inputs[..k]), inputs[k])
  {
    assert inputs[..k + 1][..k] == inputs[..k];
  }
}
