/** What the chat panel shows: conversations last until they are closed, and hold what was said in them. */
module ChatTalk {
  import opened ChatSync
  import opened ChatRuns
  import ChatFaults

  /** What was said to conversation `id`, in order. */
  function SaidTo(events: seq<Event>, id: Id): seq<Msg> {
    if events == [] then []
    else
      var e := events[|events| - 1];
      SaidTo(events[..|events| - 1], id) + if e.Say? && e.id == id then [e.m] else []
  }

  predicate Closes(e: Event, id: Id) { e.Close? && e.id == id }

  /** The conversation an event opens, by the identifier it is shown under. */
  predicate Opens(e: Event, id: Id) {
    (e.NewChat? && e.row == id) || ((e.NewChatLost? || e.NewChatOffline?) && e.id == id) || (e.Close? && e.spare == id)
  }

  /** Identifiers of open conversations are given out, and stay so. */
  lemma StepUses(s: State, e: Event)
    requires Can(s, e) && s.chats.Keys <= s.used
    ensures Step(s, e).chats.Keys <= Step(s, e).used && s.used <= Step(s, e).used
  {
    if e.Fire? {
      ChatFaults.FlushKeeps(s.(due := false), e.ids);
    }
  }

  lemma StepShows(s: State, e: Event, id: Id)
    requires Can(s, e) && s.chats.Keys <= s.used && id in s.chats && !Closes(e, id)
    ensures id in Step(s, e).chats
    ensures Step(s, e).chats[id] == s.chats[id] + if e.Say? && e.id == id then [e.m] else []
  {
    if e.Close? && |s.chats| == 1 {
      OnlyChat(s.chats, e.id, id);
    }
  }

  /** What is opened is shown, and empty; closing opens something only in place of the last conversation. */
  lemma StepOpens(s: State, e: Event, id: Id)
    requires Can(s, e) && Opens(e, id) && (e.Close? ==> |s.chats| == 1)
    ensures id in Step(s, e).chats && Step(s, e).chats[id] == []
  {
  }

  /** A conversation nobody opens is not shown, and one that is closed no longer. */
  lemma StepHides(s: State, e: Event, id: Id)
    requires Can(s, e) && s.chats.Keys <= s.used && (Closes(e, id) || (id !in s.chats && !Opens(e, id)))
    ensures id !in Step(s, e).chats
  {
  }

  lemma {:induction false} RunUses(states: seq<State>, events: seq<Event>, i: nat)
    requires Runs(states, events) && i < |states| && states[0].chats.Keys <= states[0].used
    ensures states[i].chats.Keys <= states[i].used
  {
    if i > 0 {
      RunUses(states, events, i - 1);
      assert states[i - 1 + 1] == Step(states[i - 1], events[i - 1]);
      StepUses(states[i - 1], events[i - 1]);
    }
  }

  /**
   Whatever is created, sent, lost or closed meanwhile: a conversation that is not closed stays, and holds what it held
   and what has been said to it since, in order.
   */
  lemma {:induction false} ShownIsSaid(states: seq<State>, events: seq<Event>, i: nat, id: Id)
    requires Runs(states, events) && i < |states| && states[0].chats.Keys <= states[0].used && id in states[0].chats
    requires forall e :: e in events[..i] ==> !Closes(e, id)
    ensures id in states[i].chats && states[i].chats[id] == states[0].chats[id] + SaidTo(events[..i], id)
    decreases i
  {
    if i == 0 {
      assert states[0].chats[id] + [] == states[0].chats[id];
    } else {
      var n := i - 1;
      assert events[n] in events[..i] && forall e :: e in events[..n] ==> e in events[..i];
      ShownIsSaid(states, events, n, id);
      RunUses(states, events, n);
      assert states[n + 1] == Step(states[n], events[n]);
      StepShows(states[n], events[n], id);
      SaidSplits(events, n, id, states[0].chats[id]);
    }
  }

  lemma SaidSplits(events: seq<Event>, n: nat, id: Id, before: seq<Msg>)
    requires n < |events|
    ensures before + SaidTo(events[..n + 1], id)
            == before + SaidTo(events[..n], id) + if events[n].Say? && events[n].id == id then [events[n].m] else []
  {
    assert events[..n + 1][..n] == events[..n];
  }

  /** A conversation that is closed stays closed, unless its identifier were given out again. */
  lemma {:induction false} ClosedStays(states: seq<State>, events: seq<Event>, j: nat, i: nat, id: Id)
    requires Runs(states, events) && j < i < |states| && states[0].chats.Keys <= states[0].used
    requires Closes(events[j], id) && forall k :: j < k < i ==> !Opens(events[k], id)
    ensures id !in states[i].chats
    decreases i
  {
    var n := i - 1;
    RunUses(states, events, n);
    assert states[n + 1] == Step(states[n], events[n]);
    if n > j {
      ClosedStays(states, events, j, n, id);
    }
    StepHides(states[n], events[n], id);
  }
}
