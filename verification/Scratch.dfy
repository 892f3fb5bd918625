/** Recovery scratch: which restore directories a sweep of the storage autopilot deletes. Times are in seconds. */
module Scratch {
  import opened Options

  const LEASE_STALE_SECONDS := 1800.0
  const UNLEASED_STALE_SECONDS := 7200.0

  /** An entry of the scratch root: lease file time, own time, the times of its children, size in bytes. */
  datatype Entry = Entry(isDir: bool, lease: Option<real>, at: real, children: seq<real>, size: nat)

  /** The scratch root: its entries by name. */
  type Root = map<string, Entry>

  function Latest(at: real, children: seq<real>): (t: real)
    ensures t >= at && forall c :: c in children ==> t >= c
    ensures t == at || t in children
  {
    if children == [] then at
    else
      var t := Latest(at, children[1..]);
      assert forall c :: c in children ==> c == children[0] || c in children[1..];
      if children[0] > t then children[0] else t
  }

  predicate IsRestore(name: string) {
    "restore-" <= name
  }

  function ContainerOf(name: string): string
    requires IsRestore(name)
  {
    "bf-pitr-" + name[8..]
  }

  /** The sweep's verdict on one entry. */
  predicate Dead(name: string, e: Entry, live: set<string>, now: real) {
    && IsRestore(name) && e.isDir
    && (if e.lease.Some? then now - e.lease.value >= LEASE_STALE_SECONDS
        else ContainerOf(name) !in live && now - Latest(e.at, e.children) >= UNLEASED_STALE_SECONDS)
  }

  /**
   A listed name with the moment the sweep looks at it and what a removal, whose errors are ignored, would leave
   of it: nothing, or an entry with some or all of its files.
   */
  datatype Look = Look(name: string, now: real, left: Option<Entry>)

  /** The sweep finds this entry dead. */
  predicate Judged(root: Root, look: Look, live: set<string>) {
    look.name in root && Dead(look.name, root[look.name], live, look.now)
  }

  /**
   The directory of restore `r` is not to be touched: its lease is younger than thirty minutes, or, without a lease,
   its container is running or something in it was written in the last two hours.
   */
  ghost predicate Spared(r: string, e: Entry, live: set<string>, now: real) {
    if e.lease.Some? then now - e.lease.value < 1800.0
    else "bf-pitr-" + r in live || now - e.at < 7200.0 || exists c :: c in e.children && now - c < 7200.0
  }

  /** The directory of some restore that nothing spares. */
  ghost predicate Forsaken(name: string, e: Entry, live: set<string>, now: real) {
    "restore-" <= name && e.isDir && !Spared(name[8..], e, live, now)
  }

  lemma DeadExactly(name: string, e: Entry, live: set<string>, now: real)
    ensures Dead(name, e, live, now) <==> Forsaken(name, e, live, now)
  {
    if IsRestore(name) && e.lease.None? {
      var t := Latest(e.at, e.children);
      assert now - t < 7200.0 <==> now - e.at < 7200.0 || exists c :: c in e.children && now - c < 7200.0 by {
        if t != e.at {
          assert t in e.children;
        }
      }
    }
  }

  /** The look finds the directory of a restore that nothing spares. */
  ghost predicate Condemned(root: Root, look: Look, live: set<string>) {
    look.name in root && Forsaken(look.name, root[look.name], live, look.now)
  }

  lemma JudgedExactly(root: Root, look: Look, live: set<string>)
    ensures Judged(root, look, live) <==> Condemned(root, look, live)
  {
    if look.name in root {
      DeadExactly(look.name, root[look.name], live, look.now);
    }
  }

  /** One turn of the sweep's loop; `live` was listed before the loop. */
  function Turn(root: Root, look: Look, live: set<string>, dryRun: bool): Root {
    if !Judged(root, look, live) || dryRun then root
    else if look.left.None? then root - {look.name}
    else root[look.name := look.left.value]
  }

  /** What a turn adds to `freed`, whatever the removal leaves. */
  function TurnFrees(root: Root, look: Look, live: set<string>, dryRun: bool): nat {
    if Judged(root, look, live) && !dryRun then root[look.name].size else 0
  }

  function SweptRoot(root: Root, looks: seq<Look>, live: set<string>, dryRun: bool): Root {
    if looks == [] then root
    else Turn(SweptRoot(root, looks[..|looks| - 1], live, dryRun), looks[|looks| - 1], live, dryRun)
  }

  function SweptBytes(root: Root, looks: seq<Look>, live: set<string>, dryRun: bool): nat {
    if looks == [] then 0
    else
      var n := |looks| - 1;
      SweptBytes(root, looks[..n], live, dryRun)
      + TurnFrees(SweptRoot(root, looks[..n], live, dryRun), looks[n], live, dryRun)
  }

  /** `os.listdir` names no entry twice. */
  ghost predicate Distinct(looks: seq<Look>) {
    forall i, j :: 0 <= i < j < |looks| ==> looks[i].name != looks[j].name
  }

  /** The bytes held by the listed entries. */
  function BytesIn(root: Root, looks: seq<Look>): nat {
    if looks == [] then 0
    else
      var n := |looks| - 1;
      BytesIn(root, looks[..n]) + (if looks[n].name in root then root[looks[n].name].size else 0)
  }

  lemma {:induction false} SweepJudges(root: Root, looks: seq<Look>, live: set<string>, name: string)
    requires Distinct(looks)
    ensures var after := SweptRoot(root, looks, live, false);
            && (forall i :: 0 <= i < |looks| && looks[i].name == name && Judged(root, looks[i], live) ==>
                 if looks[i].left.None? then name !in after
                 else name in after && after[name] == looks[i].left.value)
            && ((forall i :: 0 <= i < |looks| && looks[i].name == name ==> !Judged(root, looks[i], live)) ==>
                 (name in after <==> name in root) && (name in root ==> after[name] == root[name]))
    decreases |looks|
  {
    if looks != [] {
      var n := |looks| - 1;
      var before := looks[..n];
      assert Distinct(before);
      SweepJudges(root, before, live, name);
      assert forall i :: 0 <= i < n ==> before[i] == looks[i];
      if looks[n].name == name {
        assert forall i :: 0 <= i < n ==> before[i].name != name;
      }
    }
  }

  /**
   A sweep judges every entry as it was when the sweep began: of the directories nothing spares there is left what
   their removal leaves, and all else stays as it was.
   */
  lemma SweepExactly(root: Root, looks: seq<Look>, live: set<string>, name: string)
    requires Distinct(looks)
    ensures var after := SweptRoot(root, looks, live, false);
            && (forall i :: 0 <= i < |looks| && looks[i].name == name && Condemned(root, looks[i], live) ==>
                 if looks[i].left.None? then name !in after
                 else name in after && after[name] == looks[i].left.value)
            && ((forall i :: 0 <= i < |looks| && looks[i].name == name ==> !Condemned(root, looks[i], live)) ==>
                 (name in after <==> name in root) && (name in root ==> after[name] == root[name]))
  {
    forall i | 0 <= i < |looks| ensures Judged(root, looks[i], live) <==> Condemned(root, looks[i], live) {
      JudgedExactly(root, looks[i], live);
    }
    SweepJudges(root, looks, live, name);
  }

  /** The bytes that removals leave of what nothing spares. */
  ghost function LeftBytes(root: Root, looks: seq<Look>, live: set<string>): nat {
    if looks == [] then 0
    else
      var n := |looks| - 1;
      LeftBytes(root, looks[..n], live)
      + (if Condemned(root, looks[n], live) && looks[n].left.Some? then looks[n].left.value.size else 0)
  }

  lemma {:induction false} SameBytes(a: Root, b: Root, looks: seq<Look>, name: string)
    requires a - {name} == b - {name}
    requires forall l :: l in looks ==> l.name != name
    ensures BytesIn(a, looks) == BytesIn(b, looks)
  {
    if looks != [] {
      var last := looks[|looks| - 1];
      SameBytes(a, b, looks[..|looks| - 1], name);
      assert last in looks;
      assert last.name in a <==> last.name in a - {name};
      assert last.name in b <==> last.name in b - {name};
      if last.name in a {
        assert a[last.name] == (a - {name})[last.name] == (b - {name})[last.name] == b[last.name];
      }
    }
  }

  /** Conservation: what the sweep reports freed is what is gone and what is left of the dead, byte for byte. */
  lemma {:induction false} FreedAddsUp(root: Root, looks: seq<Look>, live: set<string>)
    requires Distinct(looks)
    ensures BytesIn(root, looks) + LeftBytes(root, looks, live)
            == SweptBytes(root, looks, live, false) + BytesIn(SweptRoot(root, looks, live, false), looks)
    decreases |looks|
  {
    if looks != [] {
      var n := |looks| - 1;
      var before, last := looks[..n], looks[n];
      assert Distinct(before);
      FreedAddsUp(root, before, live);
      var mid, after := SweptRoot(root, before, live, false), SweptRoot(root, looks, live, false);
      SweepJudges(root, before, live, last.name);
      JudgedExactly(root, last, live);
      assert forall i :: 0 <= i < n ==> before[i].name != last.name;
      assert mid - {last.name} == after - {last.name};
      SameBytes(mid, after, before, last.name);
    }
  }

  /** What is left of the dead is empty. */
  ghost predicate OnlyEmptyLeft(root: Root, looks: seq<Look>, live: set<string>) {
    forall l :: l in looks && Condemned(root, l, live) && l.left.Some? ==> l.left.value.size == 0
  }

  lemma {:induction false} NothingLeft(root: Root, looks: seq<Look>, live: set<string>)
    ensures LeftBytes(root, looks, live) == 0 <==> OnlyEmptyLeft(root, looks, live)
  {
    if looks != [] {
      var n := |looks| - 1;
      NothingLeft(root, looks[..n], live);
      assert forall l :: l in looks <==> l in looks[..n] || l == looks[n];
    }
  }

  /** `freed` is exactly what is gone if and only if removals leave nothing of the dead but empty directories. */
  lemma FreedExactly(root: Root, looks: seq<Look>, live: set<string>)
    requires Distinct(looks)
    ensures BytesIn(root, looks)
            == SweptBytes(root, looks, live, false) + BytesIn(SweptRoot(root, looks, live, false), looks)
            <==> OnlyEmptyLeft(root, looks, live)
  {
    FreedAddsUp(root, looks, live);
    NothingLeft(root, looks, live);
  }

  /** Whatever fails, nothing that is gone is missing from the report. */
  lemma FreedIsAtLeastGone(root: Root, looks: seq<Look>, live: set<string>)
    requires Distinct(looks)
    ensures BytesIn(root, looks)
            <= SweptBytes(root, looks, live, false) + BytesIn(SweptRoot(root, looks, live, false), looks)
  {
    FreedAddsUp(root, looks, live);
  }

  /** A failed removal is reported all the same: five bytes freed, none gone. */
  lemma FreedButStillThere() returns (root: Root, looks: seq<Look>)
    ensures Distinct(looks)
    ensures SweptBytes(root, looks, {}, false) == 5 && SweptRoot(root, looks, {}, false) == root
    ensures BytesIn(root, looks) == 5
  {
    var dir := Entry(true, Some(0.0), 0.0, [], 5);
    var look := Look("restore-a", LEASE_STALE_SECONDS, Some(dir));
    root, looks := map["restore-a" := dir], [look];
    assert "restore-a"[..8] == "restore-";
    assert looks[..0] == [];
    assert Dead("restore-a", dir, {}, look.now);
    assert SweptRoot(root, [], {}, false) == root && SweptBytes(root, [], {}, false) == 0;
  }

  // ----- sweeps among everything else -----

  /**
   What can happen in the scratch root, one step at a time: the platform renews a lease, a restore creates,
   fills or removes its own directory, or a sweep takes one turn with the containers it has listed.
   */
  datatype Step =
    | Renew(name: string, at: real)
    | Create(name: string, entry: Entry, at: real)
    | Fill(name: string, children: seq<real>, size: nat, at: real)
    | Leave(name: string, at: real)
    | Sweep(look: Look, live: set<string>)

  function TimeOf(s: Step): real {
    match s
    case Renew(_, at) => at
    case Create(_, _, at) => at
    case Fill(_, _, _, at) => at
    case Leave(_, at) => at
    case Sweep(look, _) => look.now
  }

  function Next(root: Root, s: Step): Root {
    match s
    case Renew(name, at) => if name in root then root[name := root[name].(lease := Some(at))] else root
    case Create(name, entry, _) => if name in root then root else root[name := entry]
    case Fill(name, children, size, at) =>
      if name in root then root[name := root[name].(at := at, children := children, size := size)] else root
    case Leave(name, _) => root - {name}
    case Sweep(look, live) => Turn(root, look, live, false)
  }

  function After(root: Root, steps: seq<Step>): Root {
    if steps == [] then root else Next(After(root, steps[..|steps| - 1]), steps[|steps| - 1])
  }

  /** The turns of a whole sweep as steps. */
  function Sweeps(looks: seq<Look>, live: set<string>): seq<Step> {
    if looks == [] then [] else Sweeps(looks[..|looks| - 1], live) + [Sweep(looks[|looks| - 1], live)]
  }

  lemma {:induction false} AfterAppend(root: Root, a: seq<Step>, b: seq<Step>)
    ensures After(root, a + b) == After(After(root, a), b)
  {
    if b == [] {
      assert a + b == a;
    } else {
      var m := |b| - 1;
      AfterAppend(root, a, b[..m]);
      assert (a + b)[..|a + b| - 1] == a + b[..m];
    }
  }

  /** A sweep is its turns, one after the other. */
  lemma {:induction false} SweepIsSteps(root: Root, looks: seq<Look>, live: set<string>)
    ensures SweptRoot(root, looks, live, false) == After(root, Sweeps(looks, live))
  {
    if looks != [] {
      var n := |looks| - 1;
      SweepIsSteps(root, looks[..n], live);
      assert Sweeps(looks, live)[..n] == Sweeps(looks[..n], live) by {
        SweepsLength(looks[..n], live);
      }
      SweepsLength(looks[..n], live);
    }
  }

  lemma {:induction false} SweepsLength(looks: seq<Look>, live: set<string>)
    ensures |Sweeps(looks, live)| == |looks|
  {
    if looks != [] {
      SweepsLength(looks[..|looks| - 1], live);
    }
  }

  /** The restore `name` does not end by itself. */
  ghost predicate Running(name: string, steps: seq<Step>) {
    forall s :: s in steps ==> !(s.Leave? && s.name == name)
  }

  /** The time of the latest renewal in `steps`, or `since`. */
  function LastRenewal(name: string, since: real, steps: seq<Step>): real {
    if steps == [] then since
    else
      var s := steps[|steps| - 1];
      if s.Renew? && s.name == name then s.at else LastRenewal(name, since, steps[..|steps| - 1])
  }

  /** At no step is the lease as old as thirty minutes. */
  ghost predicate Renewed(name: string, since: real, steps: seq<Step>) {
    forall i :: 0 <= i < |steps| ==> TimeOf(steps[i]) - LastRenewal(name, since, steps[..i]) < 1800.0
  }

  /** No step touches a lease that is fresh, and no sweep anything of its restore. */
  lemma FreshLeaseStays(root: Root, name: string, s: Step)
    requires name in root && root[name].lease.Some? && !(s.Leave? && s.name == name)
    requires s.Sweep? && s.look.name == name ==> s.look.now - root[name].lease.value < 1800.0
    ensures var next := Next(root, s);
            && name in next && next[name].isDir == root[name].isDir
            && next[name].lease == (if s.Renew? && s.name == name then Some(s.at) else root[name].lease)
            && (s.Sweep? ==> next[name] == root[name])
  {
  }

  /** A restore that keeps renewing its lease is never deleted, however sweeps and all other steps interleave. */
  lemma {:induction false} RenewedIsNeverDeleted(root: Root, name: string, since: real, steps: seq<Step>)
    requires name in root && root[name].lease == Some(since)
    requires Running(name, steps) && Renewed(name, since, steps)
    ensures var after := After(root, steps);
            name in after && after[name].lease == Some(LastRenewal(name, since, steps))
    decreases |steps|
  {
    if steps != [] {
      var n := |steps| - 1;
      var before := steps[..n];
      assert Renewed(name, since, before) by {
        assert forall i :: 0 <= i < n ==> before[i] == steps[i] && before[..i] == steps[..i];
      }
      RenewedIsNeverDeleted(root, name, since, before);
      assert steps[n] in steps;
      assert TimeOf(steps[n]) - LastRenewal(name, since, steps[..n]) < 1800.0;
      FreshLeaseStays(After(root, before), name, steps[n]);
    }
  }

  /** At every sweep over `name` its lease is younger than thirty minutes. */
  ghost predicate FreshAtSweeps(name: string, since: real, steps: seq<Step>) {
    forall i :: 0 <= i < |steps| && steps[i].Sweep? && steps[i].look.name == name ==>
      steps[i].look.now - LastRenewal(name, since, steps[..i]) < 1800.0
  }

  lemma FreshAtSweepsSplits(name: string, since: real, steps: seq<Step>)
    requires steps != []
    ensures var n := |steps| - 1;
            FreshAtSweeps(name, since, steps) <==>
            FreshAtSweeps(name, since, steps[..n])
            && (steps[n].Sweep? && steps[n].look.name == name ==>
                  steps[n].look.now - LastRenewal(name, since, steps[..n]) < 1800.0)
  {
    var n := |steps| - 1;
    assert forall i :: 0 <= i < n ==> steps[..n][i] == steps[i] && steps[..n][..i] == steps[..i];
  }

  /** A step other than its own creation neither brings a restore back nor, short of a stale sweep, takes it away. */
  lemma StepDecides(root: Root, name: string, s: Step)
    requires IsRestore(name) && !(s.Create? && s.name == name) && !(s.Leave? && s.name == name)
    requires s.Sweep? ==> s.look.left.None?
    requires name in root ==> root[name].isDir && root[name].lease.Some?
    ensures name in Next(root, s) <==>
            name in root
            && (s.Sweep? && s.look.name == name ==> s.look.now - root[name].lease.value < 1800.0)
  {
  }

  /** The lease alone decides: a leased restore outlives a run exactly when every sweep over it found a fresh lease. */
  lemma {:induction false} LeaseDecidesExactly(root: Root, name: string, since: real, steps: seq<Step>)
    requires name in root && IsRestore(name) && root[name].isDir && root[name].lease == Some(since)
    requires Running(name, steps)
    requires forall s :: s in steps ==> !(s.Create? && s.name == name) && (s.Sweep? ==> s.look.left.None?)
    ensures var after := After(root, steps);
            && (name in after <==> FreshAtSweeps(name, since, steps))
            && (name in after ==> after[name].isDir && after[name].lease == Some(LastRenewal(name, since, steps)))
    decreases |steps|
  {
    if steps != [] {
      var n := |steps| - 1;
      var mid := After(root, steps[..n]);
      assert steps[n] in steps;
      LeaseDecidesExactly(root, name, since, steps[..n]);
      FreshAtSweepsSplits(name, since, steps);
      StepDecides(mid, name, steps[n]);
      if name in Next(mid, steps[n]) {
        FreshLeaseStays(mid, name, steps[n]);
      }
    }
  }

  /** The directory `e` after the renewals and writes among `steps`, sweeps aside. */
  function Tended(name: string, e: Entry, steps: seq<Step>): Entry {
    if steps == [] then e
    else
      var t := Tended(name, e, steps[..|steps| - 1]);
      match steps[|steps| - 1]
      case Renew(n, at) => if n == name then t.(lease := Some(at)) else t
      case Fill(n, children, size, at) => if n == name then t.(at := at, children := children, size := size) else t
      case _ => t
  }

  /** At every sweep over restore `r` something spares it. */
  ghost predicate SparedAtSweeps(r: string, e: Entry, steps: seq<Step>) {
    forall i :: 0 <= i < |steps| && SweepsOver("restore-" + r, steps[i]) ==>
      Spared(r, Tended("restore-" + r, e, steps[..i]), steps[i].live, steps[i].look.now)
  }

  predicate SweepsOver(name: string, s: Step) {
    s.Sweep? && s.look.name == name
  }

  lemma SparedSplits(r: string, e: Entry, steps: seq<Step>)
    requires steps != []
    ensures var n := |steps| - 1;
            SparedAtSweeps(r, e, steps) <==>
            SparedAtSweeps(r, e, steps[..n])
            && (SweepsOver("restore-" + r, steps[n]) ==>
                  Spared(r, Tended("restore-" + r, e, steps[..n]), steps[n].live, steps[n].look.now))
  {
    var n := |steps| - 1;
    assert forall i :: 0 <= i < n ==> steps[..n][i] == steps[i] && steps[..n][..i] == steps[..i];
  }

  /** One step of the life of restore `r`. */
  lemma StepSpares(root: Root, r: string, s: Step)
    requires var name := "restore-" + r; name in root && root[name].isDir && !(s.Leave? && s.name == name)
    ensures var name, next := "restore-" + r, Next(root, s);
            && (!SweepsOver(name, s) || Spared(r, root[name], s.live, s.look.now) ==>
                  name in next && next[name] == Tended(name, root[name], [s]))
            && (SweepsOver(name, s) && !Spared(r, root[name], s.live, s.look.now) && s.look.left.None? ==>
                  name !in next)
  {
    var name := "restore-" + r;
    assert name[8..] == r && "restore-" <= name && [s][..0] == [];
    assert Tended(name, root[name], []) == root[name];
    if SweepsOver(name, s) {
      JudgedExactly(root, s.look, s.live);
    }
  }

  lemma TendedOneMore(name: string, e: Entry, steps: seq<Step>)
    requires steps != []
    ensures var n := |steps| - 1; Tended(name, e, steps) == Tended(name, Tended(name, e, steps[..n]), [steps[n]])
    ensures Tended(name, e, steps).isDir == Tended(name, e, steps[..|steps| - 1]).isDir
  {
    var n := |steps| - 1;
    assert [steps[n]][..0] == [];
    assert Tended(name, Tended(name, e, steps[..n]), []) == Tended(name, e, steps[..n]);
  }

  /** A restore that something spares at every sweep is never deleted, however all steps interleave. */
  lemma {:induction false} SparedIsNeverDeleted(root: Root, r: string, steps: seq<Step>)
    requires var name := "restore-" + r; name in root && root[name].isDir && Running(name, steps)
    requires SparedAtSweeps(r, root["restore-" + r], steps)
    ensures var name, after := "restore-" + r, After(root, steps);
            name in after && after[name].isDir && after[name] == Tended(name, root[name], steps)
    decreases |steps|
  {
    if steps != [] {
      var n := |steps| - 1;
      SparedSplits(r, root["restore-" + r], steps);
      SparedIsNeverDeleted(root, r, steps[..n]);
      assert steps[n] in steps;
      StepSpares(After(root, steps[..n]), r, steps[n]);
      TendedOneMore("restore-" + r, root["restore-" + r], steps);
    }
  }

  /**
   Leases, containers and writes decide, and nothing else: a restore outlives a run of steps whose removals work if and
   only if something spares it at every sweep.
   */
  lemma {:induction false} FateExactly(root: Root, r: string, steps: seq<Step>)
    requires var name := "restore-" + r; name in root && root[name].isDir && Running(name, steps)
    requires forall s :: s in steps ==> !(s.Create? && s.name == "restore-" + r) && (s.Sweep? ==> s.look.left.None?)
    ensures "restore-" + r in After(root, steps) <==> SparedAtSweeps(r, root["restore-" + r], steps)
    decreases |steps|
  {
    if SparedAtSweeps(r, root["restore-" + r], steps) {
      SparedIsNeverDeleted(root, r, steps);
    } else {
      var n := |steps| - 1;
      SparedSplits(r, root["restore-" + r], steps);
      FateExactly(root, r, steps[..n]);
      assert steps[n] in steps;
      if SparedAtSweeps(r, root["restore-" + r], steps[..n]) {
        SparedIsNeverDeleted(root, r, steps[..n]);
        StepSpares(After(root, steps[..n]), r, steps[n]);
      }
    }
  }

  /** The lease of `name` is never renewed. */
  ghost predicate NeverLeased(name: string, steps: seq<Step>) {
    forall s :: s in steps ==> !(s.Renew? && s.name == name)
  }

  lemma {:induction false} StaysUnleased(name: string, e: Entry, steps: seq<Step>)
    requires e.lease.None? && NeverLeased(name, steps)
    ensures Tended(name, e, steps).lease.None?
    decreases |steps|
  {
    if steps != [] {
      assert steps[|steps| - 1] in steps;
      StaysUnleased(name, e, steps[..|steps| - 1]);
    }
  }

  /** At every sweep over restore `r` its container runs, or something in it is less than two hours old. */
  ghost predicate InUseAtSweeps(r: string, e: Entry, steps: seq<Step>) {
    forall i :: 0 <= i < |steps| && SweepsOver("restore-" + r, steps[i]) ==>
      var t, now := Tended("restore-" + r, e, steps[..i]), steps[i].look.now;
      "bf-pitr-" + r in steps[i].live || now - t.at < 7200.0 || exists c :: c in t.children && now - c < 7200.0
  }

  /** Without a lease: container and writes alone decide. */
  lemma UnleasedDecidesExactly(root: Root, r: string, steps: seq<Step>)
    requires var name := "restore-" + r;
             name in root && root[name].isDir && root[name].lease.None? && Running(name, steps)
             && NeverLeased(name, steps)
    requires forall s :: s in steps ==> !(s.Create? && s.name == "restore-" + r) && (s.Sweep? ==> s.look.left.None?)
    ensures "restore-" + r in After(root, steps) <==> InUseAtSweeps(r, root["restore-" + r], steps)
  {
    var name := "restore-" + r;
    FateExactly(root, r, steps);
    forall i | 0 <= i < |steps| ensures Tended(name, root[name], steps[..i]).lease.None? {
      StaysUnleased(name, root[name], steps[..i]);
    }
  }

  /** Whatever vanishes was taken away by its own restore or by a sweep when nothing spared it. */
  lemma {:induction false} DeletionsAreJustified(root: Root, name: string, steps: seq<Step>) returns (i: nat)
    requires name in root && name !in After(root, steps)
    ensures i < |steps| && name in After(root, steps[..i])
    ensures steps[i] == Leave(name, TimeOf(steps[i])) ||
            (steps[i].Sweep? && steps[i].look.name == name
             && Dead(name, After(root, steps[..i])[name], steps[i].live, steps[i].look.now))
    decreases |steps|
  {
    var n := |steps| - 1;
    if name in After(root, steps[..n]) {
      i := n;
      if steps[n].Sweep? {
        JudgedExactly(After(root, steps[..n]), steps[n].look, steps[n].live);
      }
    } else {
      i := DeletionsAreJustified(root, name, steps[..n]);
      assert steps[..n][..i] == steps[..i];
    }
  }
}
