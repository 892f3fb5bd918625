/** Where the chat panel comes to rest, and which conversations then stand on the server complete. */
module ChatRest {
  import opened ChatSync
  import opened ChatRuns
  import opened Options

  /** No timer is running and no request is on its way: nothing happens any more unless the user does something. */
  ghost predicate AtRest(s: State) {
    !s.due && s.creating == {} && s.appends == []
  }

  /** The server's log is the conversation; one in which nothing was said needs no row. */
  ghost predicate Complete(s: State, id: Id)
    requires id in s.chats
  {
    && (RowOf(s, id).None? ==> s.chats[id] == [])
    && (RowOf(s, id).Some? ==> RowOf(s, id).value in s.rows && s.rows[RowOf(s, id).value] == s.chats[id])
  }

  /** A request of conversation `id` comes back as failed. */
  ghost predicate Setback(s: State, e: Event, id: Id)
    requires Can(s, e) && id in s.chats
  {
    || (e.AppendFailed? && s.appends[e.k].local == id)
    || (e.CreateFailed? && e.id == id && s.chats[id] != [])
  }

  /** An answer after which the effect does not run again. */
  predicate Quiet(e: Event) {
    e.CreateFailed? || e.CreateLost? || e.AppendDone? || e.AppendFailed? || e.AppendLost?
  }

  // ----- the last firing -----

  /** The timer fires at `f`, and nothing but answers comes after. */
  ghost predicate LastFiring(events: seq<Event>, f: nat) {
    f < |events| && events[f].Fire? && forall j :: f < j < |events| ==> Quiet(events[j])
  }

  /** A run that began with the effect's first timer and ends without one has fired since the last change. */
  lemma {:induction false} FindFiring(states: seq<State>, events: seq<Event>, n: nat) returns (f: nat)
    requires Runs(states, events) && n <= |events| && states[0].due && !states[n].due
    ensures f < n && events[f].Fire? && forall j :: f < j < n ==> Quiet(events[j])
  {
    assert n > 0;
    assert states[n - 1 + 1] == Step(states[n - 1], events[n - 1]);
    if events[n - 1].Fire? {
      f := n - 1;
    } else {
      assert Quiet(events[n - 1]) && !states[n - 1].due;
      f := FindFiring(states, events, n - 1);
    }
  }

  // ----- nothing has gone wrong since -----

  /** All there was to do for `id` has been asked of the server. */
  ghost predicate Asked(s: State, id: Id)
    requires id in s.chats
  {
    if RowOf(s, id).None? then s.chats[id] == [] || id in s.creating else Synced(s, id) == |s.chats[id]|
  }

  lemma OwnTurnAsks(s: State, id: Id)
    requires id in s.chats && Synced(s, id) <= |s.chats[id]|
    ensures Asked(FlushOne(s, id), id)
  {
    var f := FlushOne(s, id);
    if RowOf(s, id).Some? {
      assert RowOf(f, id) == RowOf(s, id);
    }
  }

  lemma OtherTurnAsks(s: State, x: Id, id: Id)
    requires id in s.chats && x in s.chats && x != id
    ensures var f := FlushOne(s, x);
            && RowOf(f, id) == RowOf(s, id) && Synced(f, id) == Synced(s, id)
            && (Asked(s, id) ==> Asked(f, id))
  {
    var f := FlushOne(s, x);
    assert RowOf(f, id) == RowOf(s, id) && Synced(f, id) == Synced(s, id) && s.creating <= f.creating;
  }

  lemma {:induction false} FlushAsks(s: State, ids: seq<Id>, id: Id)
    requires forall x :: x in ids ==> x in s.chats
    requires forall i, j :: 0 <= i < j < |ids| ==> ids[i] != ids[j]
    requires id in s.chats && Synced(s, id) <= |s.chats[id]|
    ensures id in ids ==> Asked(Flush(s, ids), id)
    ensures id !in ids ==> Synced(Flush(s, ids), id) == Synced(s, id)
    decreases |ids|
  {
    if ids != [] {
      var n := |ids| - 1;
      FlushAsks(s, ids[..n], id);
      assert ids == ids[..n] + [ids[n]];
      if ids[n] == id {
        OwnTurnAsks(Flush(s, ids[..n]), id);
      } else {
        OtherTurnAsks(Flush(s, ids[..n]), ids[n], id);
      }
    }
  }

  lemma FiringAsks(s: State, ids: seq<Id>, id: Id)
    requires Faithful(s) && Can(s, Fire(ids)) && id in s.chats
    ensures Asked(Step(s, Fire(ids)), id)
  {
    assert Tracked(s, id) && Linked(s, id);
    var s0 := s.(due := false);
    assert RowOf(s0, id) == RowOf(s, id);
    if RowOf(s, id).Some? {
      FlushAsks(s0, ids, id);
    } else {
      NoRowAsks(s0, ids, id);
    }
  }

  lemma {:induction false} NoRowAsks(s: State, ids: seq<Id>, id: Id)
    requires forall x :: x in ids ==> x in s.chats
    requires id in s.chats && RowOf(s, id).None?
    ensures RowOf(Flush(s, ids), id).None? && (id in ids ==> Asked(Flush(s, ids), id))
    decreases |ids|
  {
    if ids != [] {
      var n := |ids| - 1;
      NoRowAsks(s, ids[..n], id);
      assert ids == ids[..n] + [ids[n]];
      if ids[n] != id {
        OtherTurnAsks(Flush(s, ids[..n]), ids[n], id);
      }
    }
  }

  /** An answer to another conversation, or one that is no setback, leaves a conversation asked. */
  lemma QuietKeepsAsked(s: State, e: Event, id: Id)
    requires Sound(s) && Can(s, e) && Quiet(e) && id in s.chats && !LosesRow(s, e) && !LosesLog(s, e)
    requires Asked(s, id) && !Setback(s, e, id)
    ensures id in Step(s, e).chats && Asked(Step(s, e), id)
  {
    assert Linked(s, id);
  }

  // ----- something has -----

  /** Nothing is on its way for `id`, and the server lacks something of it. */
  ghost predicate Behind(s: State, id: Id)
    requires id in s.chats
  {
    if RowOf(s, id).None? then s.chats[id] != [] && id !in s.creating
    else Synced(s, id) < |s.chats[id]| && OfChat(s.appends, id) == []
  }

  lemma SetbackIsBehind(s: State, e: Event, id: Id)
    requires Faithful(s) && Can(s, e) && id in s.chats && Setback(s, e, id)
    ensures id in Step(s, e).chats && Behind(Step(s, e), id)
  {
    assert Linked(s, id) && Tracked(s, id);
    if e.AppendFailed? {
      OfOneChat(s, e.k);
    }
  }

  lemma QuietKeepsBehind(s: State, e: Event, id: Id)
    requires Sound(s) && Can(s, e) && Quiet(e) && id in s.chats && !LosesRow(s, e)
    requires Behind(s, id)
    ensures id in Step(s, e).chats && Behind(Step(s, e), id)
  {
    assert Linked(s, id);
    if e.AppendDone? || e.AppendFailed? || e.AppendLost? {
      OfChatWithout(s.appends, e.k, id);
    }
  }

  // ----- exactly when -----

  /** A request of `id` has come back as failed between `from` and `n`. */
  ghost predicate SetBackSince(states: seq<State>, events: seq<Event>, from: nat, n: nat, id: Id)
    requires Runs(states, events) && n <= |events|
  {
    exists j :: from <= j < n && id in states[j].chats && Setback(states[j], events[j], id)
  }

  lemma SetBackSplits(states: seq<State>, events: seq<Event>, from: nat, n: nat, id: Id)
    requires Runs(states, events) && from < n <= |events| && id in states[n - 1].chats
    ensures SetBackSince(states, events, from, n, id) <==>
            SetBackSince(states, events, from, n - 1, id) || Setback(states[n - 1], events[n - 1], id)
  {
    if Setback(states[n - 1], events[n - 1], id) {
      assert from <= n - 1 < n;
    }
  }

  /** How a conversation stands: behind if it was set back, else asked. */
  ghost predicate Stands(s: State, id: Id, back: bool) {
    id in s.chats && if back then Behind(s, id) else Asked(s, id)
  }

  lemma QuietStands(s: State, e: Event, id: Id, back: bool)
    requires Faithful(s) && Can(s, e) && Quiet(e) && !LosesRow(s, e) && !LosesLog(s, e) && Stands(s, id, back)
    ensures Stands(Step(s, e), id, back || Setback(s, e, id))
  {
    if Setback(s, e, id) {
      SetbackIsBehind(s, e, id);
    } else if back {
      QuietKeepsBehind(s, e, id);
    } else {
      QuietKeepsAsked(s, e, id);
    }
  }

  lemma QuietChats(s: State, e: Event)
    requires Can(s, e) && (Quiet(e) || e.Fire?)
    ensures Step(s, e).chats == s.chats
  {
  }

  lemma CleanStep(states: seq<State>, events: seq<Event>, i: nat)
    requires Clean(states, events) && Fresh(states[0]) && i < |events|
    ensures Faithful(states[i]) && Can(states[i], events[i]) && states[i + 1] == Step(states[i], events[i])
    ensures !LosesRow(states[i], events[i]) && !LosesLog(states[i], events[i])
  {
    LogsArePrefixes(states, events, i);
  }

  lemma FiringStands(s: State, e: Event, id: Id)
    requires Faithful(s) && Can(s, e) && e.Fire? && id in Step(s, e).chats
    ensures Stands(Step(s, e), id, false)
  {
    QuietChats(s, e);
    FiringAsks(s, e.ids, id);
  }

  /** What holds at every event of a clean run. */
  ghost predicate Sane(s: State, e: Event, t: State) {
    Faithful(s) && Can(s, e) && t == Step(s, e) && !LosesRow(s, e) && !LosesLog(s, e)
  }

  lemma SaneStands(s: State, e: Event, t: State, id: Id, back: bool)
    requires Sane(s, e, t) && Quiet(e) && id in t.chats && (id in s.chats ==> Stands(s, id, back))
    ensures id in s.chats && Stands(t, id, back || Setback(s, e, id))
  {
    QuietChats(s, e);
    QuietStands(s, e, id, back);
  }

  lemma {:induction false} SinceFiring(states: seq<State>, events: seq<Event>, f: nat, n: nat, id: Id)
    returns (back: bool)
    requires Runs(states, events) && f < n <= |events|
    requires forall j :: 0 <= j < |events| ==> Sane(states[j], events[j], states[j + 1])
    requires events[f].Fire? && forall j :: f < j < n ==> Quiet(events[j])
    requires id in states[n].chats
    ensures back <==> SetBackSince(states, events, f + 1, n, id)
    ensures Stands(states[n], id, back)
    decreases n
  {
    assert Sane(states[n - 1], events[n - 1], states[n - 1 + 1]);
    if n == f + 1 {
      back := false;
      FiringStands(states[f], events[f], id);
    } else {
      QuietChats(states[n - 1], events[n - 1]);
      back := SinceFiring(states, events, f, n - 1, id);
      SaneStands(states[n - 1], events[n - 1], states[n], id, back);
      SetBackSplits(states, events, f + 1, n, id);
      back := back || Setback(states[n - 1], events[n - 1], id);
    }
  }

  lemma AskedIsComplete(s: State, id: Id)
    requires Faithful(s) && AtRest(s) && id in s.chats
    ensures Asked(s, id) ==> Complete(s, id)
    ensures Behind(s, id) ==> !Complete(s, id)
  {
    assert Tracked(s, id) && OfChat(s.appends, id) == [];
    if RowOf(s, id).Some? {
      assert s.chats[id][..|s.chats[id]|] == s.chats[id];
    }
  }

  /**
   At rest, exactly: in every run that loses no answer and overlaps no appends, a conversation stands complete on the
   server at rest if and only if none of its requests has come back as failed since the timer last fired.
   */
  lemma RestIsCompleteExactly(states: seq<State>, events: seq<Event>, id: Id) returns (f: nat)
    requires Clean(states, events) && Fresh(states[0]) && AtRest(states[|events|]) && id in states[|events|].chats
    ensures LastFiring(events, f)
    ensures Complete(states[|events|], id) <==> !SetBackSince(states, events, f + 1, |events|, id)
  {
    f := FindFiring(states, events, |events|);
    forall j | 0 <= j < |events| ensures Sane(states[j], events[j], states[j + 1]) {
      CleanStep(states, events, j);
    }
    var back := SinceFiring(states, events, f, |events|, id);
    LogsArePrefixes(states, events, |events|);
    AskedIsComplete(states[|events|], id);
  }

  /** A first create fails, and the message stays on no row until something else is said or done. */
  lemma FailureRests(id: Id, m: Msg) returns (states: seq<State>, events: seq<Event>)
    ensures Clean(states, events) && Fresh(states[0]) && AtRest(states[|events|])
    ensures states[|events|].chats == map[id := [m]] && states[|events|].rows == map[]
    ensures !Complete(states[|events|], id)
  {
    states, events := FirstMessage(id, m);
    var s := states[|events|];
    CleanThen(states, events, CreateFailed(id));
    states, events := states + [Step(s, CreateFailed(id))], events + [CreateFailed(id)];
  }
}
