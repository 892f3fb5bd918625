/** Runs of the chat panel's protocol: which keep one row for each conversation, and its log a beginning of it. */
module ChatRuns {
  import opened ChatSync
  import opened Options

  /** A run from `s` by way of `states`. */
  ghost predicate Runs(states: seq<State>, events: seq<Event>) {
    && |states| == |events| + 1
    && forall i :: 0 <= i < |events| ==> Can(states[i], events[i]) && states[i + 1] == Step(states[i], events[i])
  }

  /** A panel that has just loaded its conversations, or opened a first one, and started the effect's first timer. */
  ghost predicate Fresh(s: State) {
    && s.due && s.serverId == map[] && s.creating == {} && s.appends == []
    && s.rows.Keys == s.owner.Keys == s.synced.Keys
    && s.chats.Keys <= s.used && s.rows.Keys <= s.used
    && (forall r :: r in s.rows ==> s.owner[r] == r)
    && (forall id :: id in s.chats && id in s.rows ==> s.rows[id] == s.chats[id] && s.synced[id] == |s.chats[id]|)
  }

  lemma FreshIsFaithful(s: State)
    requires Fresh(s)
    ensures Faithful(s)
  {
    forall id | id in s.chats ensures Linked(s, id) && Tracked(s, id) {
      if id in s.rows {
        assert s.rows[id] == s.chats[id][..s.synced[id]];
      }
    }
  }

  /** No answer to a create of a conversation then open is lost. */
  ghost predicate NoRowLost(states: seq<State>, events: seq<Event>)
    requires Runs(states, events)
  {
    forall i :: 0 <= i < |events| ==> !LosesRow(states[i], events[i])
  }

  /** Nor the answer to an append of one. */
  ghost predicate NothingLost(states: seq<State>, events: seq<Event>)
    requires Runs(states, events)
  {
    forall i :: 0 <= i < |events| ==> !LosesRow(states[i], events[i]) && !LosesLog(states[i], events[i])
  }

  /** The timer never fires while a conversation with news has an append on its way. */
  ghost predicate AlwaysGuarded(states: seq<State>, events: seq<Event>)
    requires Runs(states, events)
  {
    forall i :: 0 <= i < |events| && events[i].Fire? ==> Guarded(states[i])
  }

  /** No open conversation was ever given two rows. */
  ghost predicate OneRow(s: State) {
    forall r, q :: r in s.owner && q in s.owner && s.owner[r] == s.owner[q] && s.owner[r] in s.chats ==> r == q
  }

  /** No two open conversations are filed under one row. */
  ghost predicate NoneShared(s: State) {
    forall x, y {:trigger RowOf(s, x), RowOf(s, y)} ::
      x in s.chats && y in s.chats && x != y && RowOf(s, x).Some? ==> RowOf(s, x) != RowOf(s, y)
  }

  lemma SoundMeansOne(s: State)
    requires Sound(s)
    ensures OneRow(s) && NoneShared(s)
  {
    forall r, q | r in s.owner && q in s.owner && s.owner[r] == s.owner[q] && s.owner[r] in s.chats ensures r == q {
      assert Linked(s, s.owner[r]);
    }
    forall x, y {:trigger RowOf(s, x), RowOf(s, y)} | x in s.chats && y in s.chats && x != y && RowOf(s, x).Some?
      ensures RowOf(s, x) != RowOf(s, y)
    {
      RowsApart(s, x, y);
    }
  }

  lemma {:induction false} RunsSound(states: seq<State>, events: seq<Event>, i: nat)
    requires Runs(states, events) && i < |states| && Sound(states[0])
    requires forall j :: 0 <= j < i ==> !LosesRow(states[j], events[j])
    ensures Sound(states[i])
    decreases i
  {
    if i > 0 {
      RunsSound(states, events, i - 1);
      assert states[i - 1 + 1] == Step(states[i - 1], events[i - 1]);
      StepSound(states[i - 1], events[i - 1]);
    }
  }

  lemma {:induction false} RunsFaithful(states: seq<State>, events: seq<Event>, i: nat)
    requires Runs(states, events) && i < |states| && Faithful(states[0]) && AlwaysGuarded(states, events)
    requires forall j :: 0 <= j < i ==> !LosesRow(states[j], events[j]) && !LosesLog(states[j], events[j])
    ensures Faithful(states[i])
    decreases i
  {
    if i > 0 {
      RunsFaithful(states, events, i - 1);
      assert states[i - 1 + 1] == Step(states[i - 1], events[i - 1]);
      StepFaithful(states[i - 1], events[i - 1]);
    }
  }

  /**
   In every run that loses no answer to a create, whatever fails and however requests overlap: no open
   conversation gets two rows on the server, and no two share one.
   */
  lemma OneRowEach(states: seq<State>, events: seq<Event>, i: nat)
    requires Runs(states, events) && i < |states| && Fresh(states[0]) && NoRowLost(states, events)
    ensures Sound(states[i]) && OneRow(states[i]) && NoneShared(states[i])
  {
    FreshIsFaithful(states[0]);
    RunsSound(states, events, i);
    SoundMeansOne(states[i]);
  }

  /**
   In every run that loses no answer and never overlaps two appends of one conversation the server's log is at
   all times a beginning of the conversation, across any pattern of failed creates and appends.
   */
  lemma LogsArePrefixes(states: seq<State>, events: seq<Event>, i: nat)
    requires Runs(states, events) && i < |states| && Fresh(states[0]) && AlwaysGuarded(states, events)
    requires NothingLost(states, events)
    ensures Faithful(states[i]) && AllPrefixes(states[i])
  {
    FreshIsFaithful(states[0]);
    RunsFaithful(states, events, i);
    FaithfulIsPrefix(states[i]);
  }

  ghost predicate AllPrefixes(s: State) {
    forall id :: id in s.chats ==> PrefixHolds(s, id)
  }

  lemma FaithfulIsPrefix(s: State)
    requires Faithful(s)
    ensures AllPrefixes(s)
  {
    forall id | id in s.chats ensures PrefixHolds(s, id) {
      TrackedIsPrefix(s, id);
    }
  }

  /** An append of a faithfully kept conversation is the only one on its way. */
  lemma OfOneChat(s: State, k: nat)
    requires Faithful(s) && k < |s.appends| && s.appends[k].local in s.chats
    ensures OfChat(s.appends, s.appends[k].local) == [s.appends[k]]
    ensures OfChat(Without(s.appends, k), s.appends[k].local) == []
  {
    assert Linked(s, s.appends[k].local) && Tracked(s, s.appends[k].local);
    OfChatWithout(s.appends, k, s.appends[k].local);
  }

  lemma {:induction false} InFlight(appends: seq<Append>, id: Id) returns (k: nat)
    requires OfChat(appends, id) != []
    ensures k < |appends| && appends[k].local == id
    decreases |appends|
  {
    var n := |appends| - 1;
    if appends[n].local == id {
      k := n;
    } else {
      k := InFlight(appends[..n], id);
    }
  }

  /** A run goes on with one more event. */
  lemma RunsThen(states: seq<State>, events: seq<Event>, e: Event)
    requires Runs(states, events) && Can(states[|events|], e)
    ensures Runs(states + [Step(states[|events|], e)], events + [e])
  {
    var states', events' := states + [Step(states[|events|], e)], events + [e];
    forall i | 0 <= i < |events'|
      ensures Can(states'[i], events'[i]) && states'[i + 1] == Step(states'[i], events'[i])
    {
      if i < |events| {
        assert states'[i] == states[i] && states'[i + 1] == states[i + 1] && events'[i] == events[i];
      }
    }
  }

  lemma TwoEvents(s: State, first: Event, second: Event) returns (states: seq<State>, events: seq<Event>)
    requires Can(s, first) && Can(Step(s, first), second)
    ensures Runs(states, events) && states[0] == s && events == [first, second]
    ensures states[|events|] == Step(Step(s, first), second)
  {
    RunsThen([s], [], first);
    assert [s] + [Step(s, first)] == [s, Step(s, first)] && [] + [first] == [first];
    RunsThen([s, Step(s, first)], [first], second);
    states, events := [s, Step(s, first)] + [Step(Step(s, first), second)], [first] + [second];
  }

  // ----- runs that lose nothing and overlap nothing -----

  ghost predicate Clean(states: seq<State>, events: seq<Event>) {
    Runs(states, events) && NothingLost(states, events) && AlwaysGuarded(states, events)
  }

  lemma CleanThen(states: seq<State>, events: seq<Event>, e: Event)
    requires Clean(states, events) && Can(states[|events|], e)
    requires !LosesRow(states[|events|], e) && !LosesLog(states[|events|], e)
    requires e.Fire? ==> Guarded(states[|events|])
    ensures Clean(states + [Step(states[|events|], e)], events + [e])
  {
    RunsThen(states, events, e);
    var states', events' := states + [Step(states[|events|], e)], events + [e];
    forall i | 0 <= i < |events'|
      ensures !LosesRow(states'[i], events'[i]) && !LosesLog(states'[i], events'[i])
      ensures events'[i].Fire? ==> Guarded(states'[i])
    {
      if i < |events| {
        assert states'[i] == states[i] && events'[i] == events[i];
      }
    }
  }

  lemma FireOne(s: State, id: Id)
    requires id in s.chats
    ensures Flush(s, [id]) == FlushOne(s, id)
  {
    assert [id][..0] == [] && Flush(s, []) == s;
  }

  /** A panel with one empty conversation and an empty server. */
  function Start(id: Id): State {
    State(map[id := []], map[], map[], {}, [], map[], map[], {id}, true)
  }

  /** The panel after its first message, with a create on its way. */
  function Asking(id: Id, m: Msg): State {
    Start(id).(chats := map[id := [m]], creating := {id}, due := false)
  }

  lemma FirstMessage(id: Id, m: Msg) returns (states: seq<State>, events: seq<Event>)
    ensures Clean(states, events) && states[0] == Start(id) && states[|events|] == Asking(id, m)
  {
    var s := Start(id);
    var said := Step(s, Say(id, m));
    assert s.chats[id] + [m] == [m];
    CleanThen([s], [], Say(id, m));
    states, events := [s] + [said], [] + [Say(id, m)];
    states, events := FireThenWait(states, events, id);
    assert FlushOne(said.(due := false), id) == Asking(id, m);
  }

  lemma FireThenWait(states: seq<State>, events: seq<Event>, id: Id)
    returns (states': seq<State>, events': seq<Event>)
    requires Clean(states, events) && states[|events|].chats.Keys == {id} && states[|events|].due
    requires Guarded(states[|events|])
    ensures Clean(states', events') && states'[0] == states[0]
    ensures states'[|events'|] == FlushOne(states[|events|].(due := false), id)
  {
    var s := states[|events|];
    FireOne(s.(due := false), id);
    assert Lists([id], s.chats);
    CleanThen(states, events, Fire([id]));
    states', events' := states + [Step(s, Fire([id]))], events + [Fire([id])];
  }
}
