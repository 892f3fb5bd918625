/** What a lost answer does to the chat panel's conversations, and what closing one leaves behind. */
module ChatFaults {
  import opened ChatSync
  import opened ChatRuns
  import opened ChatGuard
  import opened Options

  // ----- what can still happen -----

  /** Whatever happens from here, as long as no more answers to creates are lost, no conversation gets two rows. */
  ghost predicate RowsSecure(s: State) {
    forall states: seq<State>, events: seq<Event> ::
      Runs(states, events) && states[0] == s && NoRowLost(states, events) ==> OneRow(states[|events|])
  }

  /** Whatever happens from here, as long as no answer is lost and no appends overlap, all logs are prefixes. */
  ghost predicate LogsSecure(s: State) {
    forall states: seq<State>, events: seq<Event> ::
      Runs(states, events) && states[0] == s && NothingLost(states, events) && AlwaysGuarded(states, events) ==>
        AllPrefixes(states[|events|])
  }

  lemma SoundIsSecure(s: State)
    requires Sound(s)
    ensures RowsSecure(s)
  {
    forall states: seq<State>, events: seq<Event>
      | Runs(states, events) && states[0] == s && NoRowLost(states, events)
      ensures OneRow(states[|events|])
    {
      RunsSound(states, events, |events|);
      SoundMeansOne(states[|events|]);
    }
  }

  lemma FaithfulIsSecure(s: State)
    requires Faithful(s)
    ensures LogsSecure(s)
  {
    forall states: seq<State>, events: seq<Event>
      | Runs(states, events) && states[0] == s && NothingLost(states, events) && AlwaysGuarded(states, events)
      ensures AllPrefixes(states[|events|])
    {
      RunsFaithful(states, events, |events|);
      FaithfulIsPrefix(states[|events|]);
    }
  }

  // ----- names and lists -----

  lemma {:induction false} FreshId(used: set<Id>) returns (x: Id)
    ensures forall y :: y in used ==> |y| < |x|
    ensures x !in used
    decreases |used|
  {
    if used == {} {
      x := "";
    } else {
      var y :| y in used;
      var z := FreshId(used - {y});
      x := y + z + "x";
    }
  }

  lemma {:induction false} Listing(chats: map<Id, seq<Msg>>) returns (ids: seq<Id>)
    ensures Lists(ids, chats)
    decreases |chats|
  {
    if chats.Keys == {} {
      ids := [];
    } else {
      var x :| x in chats;
      ids := Listing(chats - {x});
      assert x !in ids;
      ids := ids + [x];
    }
  }

  // ----- a lost create -----

  /** Conversation `id` has something to say, no row, and no create on its way. */
  ghost predicate Waits(s: State, id: Id) {
    id in s.chats && s.chats[id] != [] && RowOf(s, id).None?
  }

  lemma TurnCreates(s: State, x: Id, id: Id)
    requires Waits(s, id) && x in s.chats
    ensures var f := FlushOne(s, x);
            && Waits(f, id) && f.owner == s.owner && f.used == s.used && f.chats == s.chats
            && s.creating <= f.creating && (x == id ==> id in f.creating)
  {
  }

  lemma {:induction false} FlushCreates(s: State, ids: seq<Id>, id: Id)
    requires Waits(s, id) && forall x :: x in ids ==> x in s.chats
    ensures var f := Flush(s, ids);
            && Waits(f, id) && f.owner == s.owner && f.used == s.used && f.chats == s.chats
            && (id in ids ==> id in f.creating)
    decreases |ids|
  {
    if ids != [] {
      var n := |ids| - 1;
      FlushCreates(s, ids[..n], id);
      TurnCreates(Flush(s, ids[..n]), ids[n], id);
      assert ids == ids[..n] + [ids[n]];
    }
  }

  /** A conversation with a row it does not know of asks for another: it speaks, the timer fires, a row is made. */
  lemma SecondRow(s: State, id: Id, row: Id) returns (states: seq<State>, events: seq<Event>)
    requires id in s.chats && RowOf(s, id).None? && row in s.owner && s.owner[row] == id && s.owner.Keys <= s.used
    ensures Runs(states, events) && states[0] == s && NoRowLost(states, events) && !OneRow(states[|events|])
  {
    var said := Step(s, Say(id, ""));
    var ids := Listing(said.chats);
    var fired := Step(said, Fire(ids));
    FlushCreates(said.(due := false), ids, id);
    var other := FreshId(fired.used);
    states, events := ThreeEvents(s, Say(id, ""), Fire(ids), CreateDone(id, other));
    assert states[3].owner[row] == states[3].owner[other] == id && row != other;
  }

  lemma ThreeEvents(s: State, a: Event, b: Event, c: Event) returns (states: seq<State>, events: seq<Event>)
    requires Can(s, a) && Can(Step(s, a), b) && Can(Step(Step(s, a), b), c)
    ensures Runs(states, events) && states[0] == s && events == [a, b, c]
    ensures states[|events|] == Step(Step(Step(s, a), b), c)
  {
    states, events := TwoEvents(s, a, b);
    RunsThen(states, events, c);
    states, events := states + [Step(states[2], c)], events + [c];
  }

  /** Where the answer to a create is lost, a second row can follow. */
  lemma LostRowBreaks(s: State, e: Event)
    requires Sound(s) && Can(s, e) && LosesRow(s, e)
    ensures !RowsSecure(Step(s, e))
  {
    assert e.CreateLost? ==> Linked(s, e.id);
    var states, events := SecondRow(Step(s, e), e.id, e.row);
    assert !OneRow(states[|events|]);
  }

  // ----- a lost append -----

  /** `d` is `s` but for appends that have failed, none of them of conversation `id`. */
  ghost predicate SameFor(s: State, d: State, id: Id) {
    d.chats == s.chats && d.rows == s.rows && RowOf(d, id) == RowOf(s, id) && Synced(d, id) == Synced(s, id)
  }

  /** All appends on their way fail. */
  lemma {:induction false} Drain(states: seq<State>, events: seq<Event>, id: Id)
    returns (states': seq<State>, events': seq<Event>)
    requires Clean(states, events) && OfChat(states[|events|].appends, id) == []
    ensures Clean(states', events') && states'[0] == states[0] && states'[|events'|].appends == []
    ensures SameFor(states[|events|], states'[|events'|], id)
    decreases |states[|events|].appends|
  {
    var last := states[|events|];
    if last.appends == [] {
      states', events' := states, events;
    } else {
      var e := AppendFailed(0);
      var next := Step(last, e);
      OfChatWithout(last.appends, 0, id);
      CleanThen(states, events, e);
      assert (states + [next])[|events + [e]|] == next;
      states', events' := Drain(states + [next], events + [e], id);
    }
  }

  /** A stretch the server already holds is sent once more, when something else is said. */
  lemma DoubledLog(s: State, id: Id, row: Id) returns (states: seq<State>, events: seq<Event>)
    requires id in s.chats && RowOf(s, id) == Some(row) && row in s.rows && OfChat(s.appends, id) == []
    requires Synced(s, id) <= |s.chats[id]| && |s.rows[row]| > Synced(s, id)
    ensures Clean(states, events) && states[0] == s && !AllPrefixes(states[|events|])
  {
    states, events := Drain([s], [], id);
    var said := Step(states[|events|], Say(id, ""));
    CleanThen(states, events, Say(id, ""));
    states, events := states + [said], events + [Say(id, "")];
    states, events := SendNews(states, events, id, row);
    assert !PrefixHolds(states[|events|], id);
  }

  /** The timer fires with nothing on its way, and the news of `id` is stored. */
  lemma SendNews(states: seq<State>, events: seq<Event>, id: Id, row: Id)
    returns (states': seq<State>, events': seq<Event>)
    requires Clean(states, events) && states[|events|].due && states[|events|].appends == []
    requires var s := states[|events|];
             id in s.chats && RowOf(s, id) == Some(row) && row in s.rows && Unsent(s, id)
    ensures Clean(states', events') && states'[0] == states[0]
    ensures var s, last := states[|events|], states'[|events'|];
            && last.chats == s.chats && RowOf(last, id) == Some(row) && row in last.rows
            && last.rows[row] == s.rows[row] + s.chats[id][Synced(s, id)..]
  {
    var s := states[|events|];
    var ids := Listing(s.chats);
    var fired := Step(s, Fire(ids));
    CleanThen(states, events, Fire(ids));
    states', events' := states + [fired], events + [Fire(ids)];
    var m := FlushSends(s.(due := false), ids, id);
    assert fired.appends[m] == News(s, id);
    CleanThen(states', events', AppendDone(m));
    states', events' := states' + [Step(fired, AppendDone(m))], events' + [AppendDone(m)];
  }

  /** Where the answer to an append is lost, the same messages can be stored twice. */
  lemma LostLogBreaks(s: State, e: Event)
    requires Faithful(s) && Can(s, e) && LosesLog(s, e)
    ensures !LogsSecure(Step(s, e))
  {
    var a := s.appends[e.k];
    var s' := Step(s, e);
    OfOneChat(s, e.k);
    assert Linked(s, a.local) && Tracked(s, a.local);
    var states, events := DoubledLog(s', a.local, a.row);
    assert !AllPrefixes(states[|events|]);
  }

  // ----- exactly when -----

  lemma {:induction false} FirstRowLoss(states: seq<State>, events: seq<Event>, n: nat) returns (i: nat)
    requires Runs(states, events) && n <= |events| && exists j :: 0 <= j < n && LosesRow(states[j], events[j])
    ensures i < n && LosesRow(states[i], events[i]) && forall j :: 0 <= j < i ==> !LosesRow(states[j], events[j])
  {
    if j :| 0 <= j < n - 1 && LosesRow(states[j], events[j]) {
      i := FirstRowLoss(states, events, n - 1);
    } else {
      i := n - 1;
    }
  }

  /**
   One row each, exactly: a run from a fresh panel is at all times secure against second rows if and only if it
   has lost no answer to a create of a conversation then open.
   */
  lemma OneRowExactly(states: seq<State>, events: seq<Event>)
    requires Runs(states, events) && Fresh(states[0])
    ensures (forall i :: 0 <= i < |states| ==> RowsSecure(states[i])) <==> NoRowLost(states, events)
  {
    FreshIsFaithful(states[0]);
    if NoRowLost(states, events) {
      forall i | 0 <= i < |states| ensures RowsSecure(states[i]) {
        RunsSound(states, events, i);
        SoundIsSecure(states[i]);
      }
    } else {
      var i := FirstRowLoss(states, events, |events|);
      RunsSound(states, events, i);
      LostRowBreaks(states[i], events[i]);
      assert states[i + 1] == Step(states[i], events[i]);
    }
  }

  ghost predicate LosesAt(states: seq<State>, events: seq<Event>, i: nat)
    requires Runs(states, events) && i < |events|
  {
    LosesRow(states[i], events[i]) || LosesLog(states[i], events[i])
  }

  lemma {:induction false} FirstLoss(states: seq<State>, events: seq<Event>, n: nat) returns (i: nat)
    requires Runs(states, events) && n <= |events| && exists j :: 0 <= j < n && LosesAt(states, events, j)
    ensures i < n && LosesAt(states, events, i) && forall j :: 0 <= j < i ==> !LosesAt(states, events, j)
  {
    if j :| 0 <= j < n - 1 && LosesAt(states, events, j) {
      i := FirstLoss(states, events, n - 1);
    } else {
      i := n - 1;
    }
  }

  /**
   Faithful logs, exactly: a run from a fresh panel that never overlaps appends is at all times secure against
   second rows and logs that are no prefixes if and only if it has lost no answer for a conversation then open.
   */
  lemma LogsExactly(states: seq<State>, events: seq<Event>)
    requires Runs(states, events) && Fresh(states[0]) && AlwaysGuarded(states, events)
    ensures (forall i :: 0 <= i < |states| ==> RowsSecure(states[i]) && LogsSecure(states[i]))
            <==> NothingLost(states, events)
  {
    FreshIsFaithful(states[0]);
    if NothingLost(states, events) {
      forall i | 0 <= i < |states| ensures RowsSecure(states[i]) && LogsSecure(states[i]) {
        RunsFaithful(states, events, i);
        SoundIsSecure(states[i]);
        FaithfulIsSecure(states[i]);
      }
    } else {
      var j :| 0 <= j < |events| && (LosesRow(states[j], events[j]) || LosesLog(states[j], events[j]));
      assert LosesAt(states, events, j);
      var i := FirstLoss(states, events, |events|);
      forall j | 0 <= j < i ensures !LosesRow(states[j], events[j]) && !LosesLog(states[j], events[j]) {
        assert !LosesAt(states, events, j);
      }
      RunsFaithful(states, events, i);
      assert states[i + 1] == Step(states[i], events[i]);
      if LosesRow(states[i], events[i]) {
        LostRowBreaks(states[i], events[i]);
      } else {
        LostLogBreaks(states[i], events[i]);
      }
    }
  }

  // ----- closing -----

  /** The server holds a row that was made for conversation `id`. */
  ghost predicate HasRow(s: State, id: Id) {
    exists r :: r in s.rows && r in s.owner && s.owner[r] == id
  }

  /** Conversation `id` is closed and has left nothing behind that could become a row. */
  ghost predicate Gone(s: State, id: Id) {
    && id in s.used && id !in s.chats && id !in s.creating && !HasRow(s, id)
    && s.owner.Keys <= s.used && s.chats.Keys <= s.used
  }

  lemma {:induction false} FlushKeeps(s: State, ids: seq<Id>)
    requires forall x :: x in ids ==> x in s.chats
    ensures var f := Flush(s, ids);
            && f.chats == s.chats && f.rows == s.rows && f.owner == s.owner && f.used == s.used
            && f.creating <= s.creating + s.chats.Keys
    decreases |ids|
  {
    if ids != [] {
      FlushKeeps(s, ids[..|ids| - 1]);
    }
  }

  lemma StepGone(s: State, e: Event, id: Id)
    requires Gone(s, id) && Can(s, e)
    ensures Gone(Step(s, e), id)
  {
    var s' := Step(s, e);
    if e.Fire? {
      FlushKeeps(s.(due := false), e.ids);
    }
    forall r | r in s'.rows && r in s'.owner ensures s'.owner[r] != id {
      if r in s.rows && r in s.owner {
        assert s'.owner[r] == s.owner[r] || r !in s.used;
      }
    }
  }

  lemma {:induction false} GoneForGood(states: seq<State>, events: seq<Event>, i: nat, id: Id)
    requires Runs(states, events) && i < |states| && Gone(states[0], id)
    ensures Gone(states[i], id)
    decreases i
  {
    if i > 0 {
      GoneForGood(states, events, i - 1, id);
      assert states[i - 1 + 1] == Step(states[i - 1], events[i - 1]);
      StepGone(states[i - 1], events[i - 1], id);
    }
  }

  /** The row `closeSession` asks the server to delete. */
  function ClosingRow(s: State, id: Id): Id {
    if id in s.serverId then s.serverId[id] else id
  }

  /** Every row made for `id` is the one that is deleted. */
  ghost predicate RowsDeleted(s: State, id: Id, deleted: bool) {
    forall r :: r in s.rows && r in s.owner && s.owner[r] == id ==> r == ClosingRow(s, id) && deleted
  }

  lemma ClosedIsGone(s: State, id: Id, deleted: bool, spare: Id)
    requires s.chats.Keys <= s.used && s.owner.Keys <= s.used && Can(s, Close(id, deleted, spare))
    requires id !in s.creating && RowsDeleted(s, id, deleted)
    ensures Gone(Closed(s, id, deleted, spare), id)
  {
    ClosedHasNoRow(s, id, deleted, spare);
    var closed := Closed(s, id, deleted, spare);
    if |s.chats| == 1 {
      assert closed.chats == map[spare := []];
    } else {
      assert closed.chats == s.chats - {id};
    }
  }

  lemma ClosedHasNoRow(s: State, id: Id, deleted: bool, spare: Id)
    requires id in s.chats
    ensures HasRow(Closed(s, id, deleted, spare), id) <==> !RowsDeleted(s, id, deleted)
  {
    var closed := Closed(s, id, deleted, spare);
    if !RowsDeleted(s, id, deleted) {
      var r :| r in s.rows && r in s.owner && s.owner[r] == id && !(r == ClosingRow(s, id) && deleted);
      assert r in closed.rows && closed.owner[r] == id;
    }
  }

  /** What closing a conversation at the wrong moment leaves behind. */
  lemma ClosingLeavesARow(s: State, id: Id, deleted: bool, spare: Id)
    returns (states: seq<State>, events: seq<Event>)
    requires Can(s, Close(id, deleted, spare)) && (id in s.creating || !RowsDeleted(s, id, deleted))
    ensures Runs(states, events) && states[0] == Closed(s, id, deleted, spare) && HasRow(states[|events|], id)
  {
    var closed := Closed(s, id, deleted, spare);
    states, events := [closed], [];
    if id in s.creating {
      var row := FreshId(closed.used);
      RunsThen(states, events, CreateDone(id, row));
      states, events := states + [Step(closed, CreateDone(id, row))], events + [CreateDone(id, row)];
      assert row in states[1].rows && states[1].owner[row] == id;
    } else {
      ClosedHasNoRow(s, id, deleted, spare);
    }
  }

  /** No run that begins with `s`, whatever fails or is lost in it, ever holds a row of `id`. */
  ghost predicate NeverARow(s: State, id: Id) {
    forall states: seq<State>, events: seq<Event> ::
      Runs(states, events) && states[0] == s ==> !HasRow(states[|events|], id)
  }

  /**
   When closing cleans up, whatever has happened before: no later run ever holds a row of the closed conversation if
   and only if no create of it was on its way and all rows made for it are the one that is deleted.
   */
  lemma ClosingCleansUpExactly(s: State, id: Id, deleted: bool, spare: Id)
    requires s.chats.Keys <= s.used && s.owner.Keys <= s.used && Can(s, Close(id, deleted, spare))
    ensures NeverARow(Step(s, Close(id, deleted, spare)), id) <==> id !in s.creating && RowsDeleted(s, id, deleted)
  {
    var closed := Closed(s, id, deleted, spare);
    if id !in s.creating && RowsDeleted(s, id, deleted) {
      ClosedIsGone(s, id, deleted, spare);
      forall states: seq<State>, events: seq<Event> | Runs(states, events) && states[0] == closed
        ensures !HasRow(states[|events|], id)
      {
        GoneForGood(states, events, |events|, id);
      }
    } else {
      var states, events := ClosingLeavesARow(s, id, deleted, spare);
      assert HasRow(states[|events|], id);
    }
  }

  /** For a conversation that lost no answer to a create: its row, if it has one, must be deleted. */
  lemma SoundClosingCleansUp(s: State, id: Id, deleted: bool, spare: Id)
    requires Sound(s) && Can(s, Close(id, deleted, spare))
    ensures NeverARow(Step(s, Close(id, deleted, spare)), id)
            <==> id !in s.creating && (deleted || RowOf(s, id).None?)
  {
    ClosingCleansUpExactly(s, id, deleted, spare);
    assert Linked(s, id);
  }

  /** A conversation closed while its create is on its way leaves a row behind that no open conversation owns. */
  lemma CloseDuringCreateLeavesARow(s: State, id: Id, deleted: bool, spare: Id, row: Id)
    requires Sound(s) && id in s.creating && Can(s, Close(id, deleted, spare)) && row !in s.used && row != spare
    ensures var closed := Step(s, Close(id, deleted, spare));
            && Can(closed, CreateDone(id, row))
            && var late := Step(closed, CreateDone(id, row));
            row in late.rows && late.owner[row] == id && id !in late.chats && row !in late.chats
  {
    assert Linked(s, id);
  }

  // ----- runs that go wrong -----

  /** The answer to the first create is lost; when something else is said, the conversation gets a second row. */
  lemma TwoRowsHappen(id: Id, m: Msg, row: Id, other: Id) returns (states: seq<State>, events: seq<Event>)
    requires id != row && id != other && row != other
    ensures Runs(states, events) && Fresh(states[0]) && id in states[|events|].chats
    ensures states[|events|].owner == map[row := id, other := id]
  {
    states, events := FirstMessage(id, m);
    var lost := Step(states[|events|], CreateLost(id, row));
    RunsThen(states, events, CreateLost(id, row));
    states, events := states + [lost], events + [CreateLost(id, row)];
    var said := Step(lost, Say(id, m));
    RunsThen(states, events, Say(id, m));
    states, events := states + [said], events + [Say(id, m)];
    FireOne(said.(due := false), id);
    var fired := Step(said, Fire([id]));
    RunsThen(states, events, Fire([id]));
    states, events := states + [fired], events + [Fire([id])];
    RunsThen(states, events, CreateDone(id, other));
    states, events := states + [Step(fired, CreateDone(id, other))], events + [CreateDone(id, other)];
  }

  /** The conversation `id` filed under `row`, whose log is `log`, with nothing counted as sent. */
  function Filed(id: Id, messages: seq<Msg>, row: Id, log: seq<Msg>): State {
    State(map[id := messages], map[id := 0], map[id := row], {}, [], map[row := log], map[row := id], {id, row}, true)
  }

  /** It sends all its messages. */
  function SentAll(id: Id, messages: seq<Msg>, row: Id, log: seq<Msg>): State {
    Filed(id, messages, row, log).(synced := map[id := |messages|], appends := [Append(row, id, 0, messages)],
                                   due := false)
  }

  lemma SendsAll(id: Id, messages: seq<Msg>, row: Id, log: seq<Msg>)
    requires id != row && messages != []
    ensures Can(Filed(id, messages, row, log), Fire([id]))
    ensures Step(Filed(id, messages, row, log), Fire([id])) == SentAll(id, messages, row, log)
  {
    var s := Filed(id, messages, row, log).(due := false);
    FireOne(s, id);
    assert s.chats[id][0..] == messages;
  }

  /** The conversation after its first message, filed under its row. */
  lemma FirstRow(id: Id, m: Msg, row: Id) returns (states: seq<State>, events: seq<Event>)
    requires id != row
    ensures Clean(states, events) && states[0] == Start(id) && states[|events|] == Filed(id, [m], row, [])
  {
    states, events := FirstMessage(id, m);
    CleanThen(states, events, CreateDone(id, row));
    assert Step(states[|events|], CreateDone(id, row)) == Filed(id, [m], row, []);
    states, events := states + [Filed(id, [m], row, [])], events + [CreateDone(id, row)];
  }

  lemma StoresAll(id: Id, messages: seq<Msg>, row: Id, log: seq<Msg>)
    requires id != row
    ensures var s := SentAll(id, messages, row, log);
            && Can(s, AppendDone(0)) && Step(s, AppendDone(0)).chats == s.chats
            && Step(s, AppendDone(0)).rows == map[row := log + messages]
  {
  }

  lemma LosesAll(id: Id, messages: seq<Msg>, row: Id, log: seq<Msg>)
    requires id != row
    ensures var s := SentAll(id, messages, row, log);
            && Can(s, AppendLost(0))
            && Step(s, AppendLost(0)) == Filed(id, messages, row, log + messages).(due := false)
  {
    var s := SentAll(id, messages, row, log);
    assert Without(s.appends, 0) == [];
    assert SetBack(s, 0) == map[id := 0] && Stored(s, 0) == map[row := log + messages];
  }

  /** The answer to the first append is lost, and something else is said. */
  lemma FirstAppendLost(id: Id, m: Msg, n: Msg, row: Id) returns (states: seq<State>, events: seq<Event>)
    requires id != row
    ensures Runs(states, events) && states[0] == Start(id) && states[|events|] == Filed(id, [m, n], row, [m])
  {
    states, events := FirstRow(id, m, row);
    SendsAll(id, [m], row, []);
    RunsThen(states, events, Fire([id]));
    states, events := states + [SentAll(id, [m], row, [])], events + [Fire([id])];
    LosesAll(id, [m], row, []);
    var lost := Filed(id, [m], row, [m]).(due := false);
    assert [] + [m] == [m];
    RunsThen(states, events, AppendLost(0));
    states, events := states + [lost], events + [AppendLost(0)];
    SaysMore(id, m, n, row);
    RunsThen(states, events, Say(id, n));
    states, events := states + [Filed(id, [m, n], row, [m])], events + [Say(id, n)];
  }

  lemma SaysMore(id: Id, m: Msg, n: Msg, row: Id)
    ensures Step(Filed(id, [m], row, [m]).(due := false), Say(id, n)) == Filed(id, [m, n], row, [m])
  {
    assert [m] + [n] == [m, n];
  }

  /** The answer to the first append is lost; when something else is said, the first message is stored twice. */
  lemma DoubledLogHappens(id: Id, m: Msg, n: Msg, row: Id) returns (states: seq<State>, events: seq<Event>)
    requires id != row
    ensures Runs(states, events) && Fresh(states[0])
    ensures states[|events|].chats == map[id := [m, n]] && states[|events|].rows == map[row := [m, m, n]]
  {
    states, events := FirstAppendLost(id, m, n, row);
    SendsAll(id, [m, n], row, [m]);
    RunsThen(states, events, Fire([id]));
    states, events := states + [SentAll(id, [m, n], row, [m])], events + [Fire([id])];
    StoresAll(id, [m, n], row, [m]);
    RunsThen(states, events, AppendDone(0));
    states, events := states + [Step(SentAll(id, [m, n], row, [m]), AppendDone(0))], events + [AppendDone(0)];
    assert [m] + [m, n] == [m, m, n];
  }

  /** A message said while all others are on their way. */
  lemma SaidIsUnguarded(id: Id, m: Msg, n: Msg, row: Id)
    requires id != row
    ensures var said := Step(SentAll(id, [m], row, []), Say(id, n));
            said.chats == map[id := [m, n]] && Can(said, Fire([id])) && !Guarded(said)
  {
    var sent := SentAll(id, [m], row, []);
    var said := Step(sent, Say(id, n));
    assert [m] + [n] == [m, n];
    OfChatOne(sent.appends[0], id);
    assert said.appends == [sent.appends[0]];
    assert Unsent(said, id) && OfChat(said.appends, id) != [];
  }

  /** Two messages that differ, the second said while the first append is on its way: the timer overlaps it. */
  lemma OverlapHappens(id: Id, m: Msg, n: Msg, row: Id) returns (states: seq<State>, events: seq<Event>)
    requires id != row && m != n
    ensures Clean(states, events) && Fresh(states[0])
    ensures Can(states[|events|], Fire([id])) && Telling(states[|events|]) && !Guarded(states[|events|])
  {
    states, events := FirstRow(id, m, row);
    SendsAll(id, [m], row, []);
    var sent := SentAll(id, [m], row, []);
    assert Guarded(Filed(id, [m], row, []));
    CleanThen(states, events, Fire([id]));
    states, events := states + [sent], events + [Fire([id])];
    CleanThen(states, events, Say(id, n));
    SaidIsUnguarded(id, m, n, row);
    states, events := states + [Step(sent, Say(id, n))], events + [Say(id, n)];
  }

  /** A conversation whose first create was lost is closed, and the row it does not know of stays. */
  lemma LostRowOutlivesClosing(id: Id, m: Msg, row: Id, spare: Id)
    returns (states: seq<State>, events: seq<Event>)
    requires id != row && spare != id && spare != row
    ensures Runs(states, events) && Fresh(states[0]) && HasRow(states[|events|], id) && id !in states[|events|].chats
    ensures |events| > 0 && events[|events| - 1] == Close(id, true, spare)
    ensures var s := states[|events| - 1]; id !in s.creating && RowOf(s, id).None?
  {
    states, events := FirstMessage(id, m);
    var lost := Step(states[|events|], CreateLost(id, row));
    RunsThen(states, events, CreateLost(id, row));
    states, events := states + [lost], events + [CreateLost(id, row)];
    var closed := Step(lost, Close(id, true, spare));
    RunsThen(states, events, Close(id, true, spare));
    states, events := states + [closed], events + [Close(id, true, spare)];
    assert row in closed.rows && closed.owner[row] == id;
  }
}
