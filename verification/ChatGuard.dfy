/** When the timer of the chat panel may fire although an append is still on its way. */
module ChatGuard {
  import opened ChatSync
  import opened ChatRuns
  import opened Options

  /** Only appends come back. */
  ghost predicate Arrivals(events: seq<Event>) {
    forall e :: e in events ==> e.AppendDone? || e.AppendFailed?
  }

  /** However the appends on their way come back, every log stays a beginning of its conversation. */
  ghost predicate SafeAfter(s: State) {
    forall states: seq<State>, events: seq<Event> ::
      Runs(states, events) && states[0] == s && Arrivals(events) ==> AllPrefixes(states[|events|])
  }

  /** The append the timer sends for a conversation with news. */
  function News(s: State, id: Id): Append
    requires id in s.chats && Unsent(s, id)
  {
    Append(RowOf(s, id).value, id, Synced(s, id), s.chats[id][Synced(s, id)..])
  }

  lemma FlushOneSends(s: State, x: Id, id: Id)
    requires x in s.chats && id in s.chats
    ensures var f := FlushOne(s, x);
            && s.appends <= f.appends && f.rows == s.rows && RowOf(f, id) == RowOf(s, id)
            && (x != id ==> Synced(f, id) == Synced(s, id))
            && (x == id && Unsent(s, id) ==> f.appends == s.appends + [News(s, id)])
  {
    var f := FlushOne(s, x);
    if f != s && RowOf(s, x).Some? {
      assert f.appends == s.appends + [News(s, x)];
      assert RowOf(f, id) == RowOf(s, id);
    }
  }

  /** After some turns of the timer's loop: older appends are still there, and `id` has had its turn at `m`. */
  ghost predicate Sends(s: State, f: State, done: bool, id: Id, m: nat)
    requires id in s.chats && Unsent(s, id)
  {
    && f.chats == s.chats && s.appends <= f.appends && f.rows == s.rows && RowOf(f, id) == RowOf(s, id)
    && (if done then |s.appends| <= m < |f.appends| && f.appends[m] == News(s, id)
        else Synced(f, id) == Synced(s, id))
  }

  lemma SendsMore(s: State, f: State, done: bool, id: Id, m: nat, x: Id)
    requires id in s.chats && Unsent(s, id) && Sends(s, f, done, id, m) && x in s.chats && (x == id ==> !done)
    ensures Sends(s, FlushOne(f, x), done || x == id, id, if x == id then |f.appends| else m)
  {
    FlushOneSends(f, x, id);
    if x == id {
      assert News(f, id) == News(s, id);
    }
  }

  lemma {:induction false} FlushSends(s: State, ids: seq<Id>, id: Id) returns (m: nat)
    requires forall x :: x in ids ==> x in s.chats
    requires forall i, j :: 0 <= i < j < |ids| ==> ids[i] != ids[j]
    requires id in s.chats && Unsent(s, id)
    ensures Sends(s, Flush(s, ids), id in ids, id, m)
    decreases |ids|
  {
    m := 0;
    if ids != [] {
      var n := |ids| - 1;
      m := FlushSends(s, ids[..n], id);
      SendsMore(s, Flush(s, ids[..n]), id in ids[..n], id, m, ids[n]);
      assert ids == ids[..n] + [ids[n]];
      m := if ids[n] == id then |Flush(s, ids[..n]).appends| else m;
    }
  }

  /** `id` has news for the timer to send, or none. */
  function Sending(s: State, id: Id): seq<Append>
    requires id in s.chats
  {
    if Unsent(s, id) then [News(s, id)] else []
  }

  /** Some turns of the timer's loop have added the news of `id`, if it has had its turn, and nothing else of it. */
  ghost predicate Added(s: State, f: State, done: bool, id: Id)
    requires id in s.chats
  {
    && f.chats == s.chats && f.rows == s.rows && RowOf(f, id) == RowOf(s, id)
    && OfChat(f.appends, id) == OfChat(s.appends, id) + (if done then Sending(s, id) else [])
    && (!done ==> Synced(f, id) == Synced(s, id))
  }

  lemma OtherAdds(s: State, f: State, done: bool, id: Id, x: Id)
    requires id in s.chats && x in s.chats && x != id && Added(s, f, done, id)
    ensures Added(s, FlushOne(f, x), done, id)
  {
    FlushOneLeaves(f, x, id);
    FlushOneSends(f, x, id);
  }

  lemma OwnSends(s: State, id: Id)
    requires id in s.chats
    ensures var f := FlushOne(s, id);
            && f.chats == s.chats && f.rows == s.rows && RowOf(f, id) == RowOf(s, id)
            && f.appends == s.appends + Sending(s, id)
  {
    FlushOneSends(s, id, id);
    if !Unsent(s, id) {
      assert FlushOne(s, id).appends == s.appends;
    }
  }

  lemma SendingIsOwn(appends: seq<Append>, sent: seq<Append>, id: Id)
    requires |sent| <= 1 && forall x :: x in sent ==> x.local == id
    ensures OfChat(appends + sent, id) == OfChat(appends, id) + sent
  {
    if sent == [] {
      assert appends + sent == appends;
    } else {
      var a := sent[0];
      assert sent == [a] && a in sent;
      OneMore(appends, a, id);
    }
  }

  lemma OwnAdds(s: State, f: State, id: Id)
    requires id in s.chats && Added(s, f, false, id)
    ensures Added(s, FlushOne(f, id), true, id)
  {
    OwnSends(f, id);
    assert Sending(f, id) == Sending(s, id);
    SendingIsOwn(f.appends, Sending(f, id), id);
  }

  /** The timer adds the news of each conversation behind what is on its way. */
  lemma {:induction false} FlushAdds(s: State, ids: seq<Id>, id: Id)
    requires forall x :: x in ids ==> x in s.chats
    requires forall i, j :: 0 <= i < j < |ids| ==> ids[i] != ids[j]
    requires id in s.chats
    ensures Added(s, Flush(s, ids), id in ids, id)
    decreases |ids|
  {
    if ids != [] {
      var n := |ids| - 1;
      var mid := Flush(s, ids[..n]);
      FlushAdds(s, ids[..n], id);
      assert ids == ids[..n] + [ids[n]];
      if ids[n] == id {
        OwnAdds(s, mid, id);
      } else {
        OtherAdds(s, mid, id in ids[..n], id, ids[n]);
      }
    }
  }

  // ----- the exact guard -----

  /** What is on its way for a conversation and what it has to say since make the same log in either order. */
  ghost predicate Commutes(s: State, id: Id)
    requires id in s.chats && Unsent(s, id) && OfChat(s.appends, id) != []
  {
    var sent, news := OfChat(s.appends, id)[0].pending, News(s, id).pending;
    sent + news == news + sent
  }

  /** Every overlap the timer would cause is of stretches that commute. */
  ghost predicate OverlapsCommute(s: State) {
    forall id :: id in s.chats && Unsent(s, id) && OfChat(s.appends, id) != [] ==> Commutes(s, id)
  }

  /** What can be left on its way, and stand in the log, when `a` and `b` were sent behind `p`. */
  predicate Remaining(waiting: seq<Append>, log: seq<Msg>, p: seq<Msg>, a: seq<Msg>, b: seq<Msg>) {
    match |waiting|
    case 0 => log == p || log == p + a || log == p + b || log == p + a + b
    case 1 =>
      || (waiting[0].pending == a && (log == p || log == p + b))
      || (waiting[0].pending == b && (log == p || log == p + a))
    case 2 => waiting[0].pending == a && waiting[1].pending == b && log == p
    case _ => false
  }

  /** Of `a` and `b`, sent behind `p`, some have arrived and some are on their way; in any order they make one log. */
  ghost predicate Arriving(s: State, id: Id, p: seq<Msg>, a: seq<Msg>, b: seq<Msg>)
    requires id in s.chats
  {
    RowOf(s, id).Some? ==>
      && RowOf(s, id).value in s.rows && p + a + b <= s.chats[id] && a + b == b + a
      && Remaining(OfChat(s.appends, id), s.rows[RowOf(s, id).value], p, a, b)
  }

  lemma RemainingIsPrefix(waiting: seq<Append>, log: seq<Msg>, p: seq<Msg>, a: seq<Msg>, b: seq<Msg>)
    requires a + b == b + a && Remaining(waiting, log, p, a, b)
    ensures log <= p + a + b
  {
    assert p + a + b == p + (a + b) == p + (b + a) == p + b + a;
  }

  lemma OneArrives(u: seq<Append>, x: Append, v: seq<Append>, log: seq<Msg>, p: seq<Msg>, a: seq<Msg>, b: seq<Msg>)
    requires a + b == b + a && Remaining(u + [x] + v, log, p, a, b)
    ensures Remaining(u + v, log, p, a, b) && Remaining(u + v, log + x.pending, p, a, b)
  {
    assert p + a + b == p + (a + b) == p + (b + a) == p + b + a;
    assert |u + [x] + v| == |u + v| + 1;
    if |u + v| == 1 {
      if u == [] {
        assert u + [x] + v == [x] + v && u + v == v;
      } else {
        assert v == [] && u + v == u && u + [x] + v == u + [x];
      }
    } else if |u + v| == 0 {
      assert u + [x] + v == [x];
    }
  }

  lemma ArrivalKeeps(s: State, k: nat, stored: bool, id: Id, p: seq<Msg>, a: seq<Msg>, b: seq<Msg>)
    requires Sound(s) && Can(s, AppendReturn(k, stored, true)) && id in s.chats && Arriving(s, id, p, a, b)
    ensures Arriving(Step(s, AppendReturn(k, stored, true)), id, p, a, b)
  {
    if s.appends[k].local != id {
      ArrivalLeaves(s, k, stored, id);
      UntouchedArrives(s, Step(s, AppendReturn(k, stored, true)), id, p, a, b);
    } else {
      OwnArrival(s, k, stored, p, a, b);
    }
  }

  lemma UntouchedArrives(s: State, s': State, id: Id, p: seq<Msg>, a: seq<Msg>, b: seq<Msg>)
    requires id in s.chats && id in s'.chats && Untouched(s, s', id) && Arriving(s, id, p, a, b)
    ensures Arriving(s', id, p, a, b)
  {
  }

  lemma OwnArrival(s: State, k: nat, stored: bool, p: seq<Msg>, a: seq<Msg>, b: seq<Msg>)
    requires Sound(s) && Can(s, AppendReturn(k, stored, true)) && s.appends[k].local in s.chats
    requires Arriving(s, s.appends[k].local, p, a, b)
    ensures Arriving(Step(s, AppendReturn(k, stored, true)), s.appends[k].local, p, a, b)
  {
    var x := s.appends[k];
    var s' := Step(s, AppendReturn(k, stored, true));
    assert Linked(s, x.local);
    assert RowOf(s, x.local) == RowOf(s', x.local) == Some(x.row);
    var u, v := OfChatAround(s.appends, k, x.local);
    OneArrives(u, x, v, s.rows[x.row], p, a, b);
    assert s'.rows[x.row] == if stored then s.rows[x.row] + x.pending else s.rows[x.row];
  }

  lemma OfChatAround(appends: seq<Append>, k: nat, id: Id) returns (u: seq<Append>, v: seq<Append>)
    requires k < |appends| && appends[k].local == id
    ensures OfChat(appends, id) == u + [appends[k]] + v && OfChat(Without(appends, k), id) == u + v
  {
    var before, x, behind := appends[..k], appends[k], appends[k + 1..];
    assert appends == before + ([x] + behind);
    OfChatThree(before, x, behind, id);
    OfChatAppend(before, behind, id);
    u, v := OfChat(before, id), OfChat(behind, id);
  }

  lemma {:induction false} ArrivalsKeep(states: seq<State>, events: seq<Event>, i: nat, id: Id,
                                        p: seq<Msg>, a: seq<Msg>, b: seq<Msg>)
    requires Runs(states, events) && Arrivals(events) && i < |states| && Sound(states[0])
    requires id in states[0].chats && Arriving(states[0], id, p, a, b)
    ensures Sound(states[i]) && states[i].chats == states[0].chats && Arriving(states[i], id, p, a, b)
    decreases i
  {
    if i > 0 {
      var e := events[i - 1];
      ArrivalsKeep(states, events, i - 1, id, p, a, b);
      assert states[i - 1 + 1] == Step(states[i - 1], e);
      assert e in events;
      assert e == AppendReturn(e.k, e.AppendDone?, true);
      StepSound(states[i - 1], e);
      ArrivalKeeps(states[i - 1], e.k, e.AppendDone?, id, p, a, b);
    }
  }

  /** What a firing sends for one conversation, told as stretches of its messages. */
  lemma FiredArrives(s: State, ids: seq<Id>, id: Id) returns (p: seq<Msg>, a: seq<Msg>, b: seq<Msg>)
    requires Faithful(s) && Can(s, Fire(ids)) && id in s.chats
    requires Unsent(s, id) && OfChat(s.appends, id) != [] ==> Commutes(s, id)
    ensures Arriving(Step(s, Fire(ids)), id, p, a, b)
  {
    var s0 := s.(due := false);
    FlushAdds(s0, ids, id);
    assert Tracked(s, id) && Sending(s0, id) == Sending(s, id);
    p, a, b := [], [], [];
    if RowOf(s, id).Some? {
      p, a, b := Stretches(s, id);
    }
  }

  /** The stretches of one conversation: what is stored, what is on its way, and what it has to say since. */
  lemma Stretches(s: State, id: Id) returns (p: seq<Msg>, a: seq<Msg>, b: seq<Msg>)
    requires id in s.chats && RowOf(s, id).Some? && Tracked(s, id)
    requires Unsent(s, id) && OfChat(s.appends, id) != [] ==> Commutes(s, id)
    ensures p + a + b <= s.chats[id] && a + b == b + a
    ensures Remaining(OfChat(s.appends, id) + Sending(s, id), s.rows[RowOf(s, id).value], p, a, b)
  {
    var messages, sent := s.chats[id], Synced(s, id);
    var waiting := OfChat(s.appends, id);
    p := s.rows[RowOf(s, id).value];
    a := if waiting == [] then [] else waiting[0].pending;
    b := if Unsent(s, id) then messages[sent..] else [];
    assert p + a == messages[..sent];
    assert messages == messages[..sent] + messages[sent..];
  }

  /** The newer append arrives before the older one. */
  lemma ArriveSwapped(s: State, ids: seq<Id>, id: Id) returns (states: seq<State>, events: seq<Event>)
    requires Faithful(s) && Can(s, Fire(ids))
    requires id in s.chats && Unsent(s, id) && OfChat(s.appends, id) != [] && !Commutes(s, id)
    ensures Runs(states, events) && states[0] == Step(s, Fire(ids)) && Arrivals(events)
    ensures id in states[|events|].chats && !PrefixHolds(states[|events|], id)
  {
    assert Linked(s, id) && Tracked(s, id);
    var k := InFlight(s.appends, id);
    OfOneChat(s, k);
    var fired := Step(s, Fire(ids));
    var m := FlushSends(s.(due := false), ids, id);
    assert fired.appends[k] == s.appends[k] && fired.appends[m] == News(s, id);
    states, events := NewThenOld(fired, k, m);
    SwappedLog(s, id, s.appends[k]);
  }

  lemma NewThenOld(s: State, k: nat, m: nat) returns (states: seq<State>, events: seq<Event>)
    requires k < m < |s.appends| && s.appends[k].row == s.appends[m].row && s.appends[k].row in s.rows
    ensures Runs(states, events) && states[0] == s && Arrivals(events)
    ensures var last, row := states[|events|], s.appends[k].row;
            && last.chats == s.chats && last.serverId == s.serverId && last.synced == s.synced
            && row in last.rows && last.rows[row] == s.rows[row] + s.appends[m].pending + s.appends[k].pending
  {
    WithoutKeeps(s.appends, m);
    states, events := TwoEvents(s, AppendDone(m), AppendDone(k));
  }

  lemma SwappedLog(s: State, id: Id, a: Append)
    requires id in s.chats && Unsent(s, id) && Tracked(s, id) && OfChat(s.appends, id) == [a] && !Commutes(s, id)
    ensures !(s.rows[RowOf(s, id).value] + News(s, id).pending + a.pending <= s.chats[id])
  {
    var p, news, messages := s.rows[RowOf(s, id).value], News(s, id).pending, s.chats[id];
    assert messages == p + (a.pending + news);
    assert p + news + a.pending == p + (news + a.pending);
    if p + (news + a.pending) == messages {
      CancelFront(p, news + a.pending, a.pending + news);
    }
  }

  lemma CancelFront(p: seq<Msg>, x: seq<Msg>, y: seq<Msg>)
    requires p + x == p + y
    ensures x == y
  {
    assert (p + x)[|p|..] == x && (p + y)[|p|..] == y;
  }

  /**
   The guard the timer needs, exactly: a firing is safe, however the appends then on their way come back, if and only
   if for each conversation with news and an append still on its way the two stretches commute.
   */
  lemma GuardExactly(s: State, ids: seq<Id>)
    requires Faithful(s) && Can(s, Fire(ids))
    ensures OverlapsCommute(s) <==> SafeAfter(Step(s, Fire(ids)))
  {
    var fired := Step(s, Fire(ids));
    if OverlapsCommute(s) {
      FireSound(s, ids);
      forall states: seq<State>, events: seq<Event> | Runs(states, events) && states[0] == fired && Arrivals(events)
        ensures AllPrefixes(states[|events|])
      {
        ArrivedArePrefixes(s, ids, states, events);
      }
    } else {
      var id :| id in s.chats && Unsent(s, id) && OfChat(s.appends, id) != [] && !Commutes(s, id);
      var states, events := ArriveSwapped(s, ids, id);
      assert !AllPrefixes(states[|events|]);
    }
  }

  lemma ArrivedArePrefixes(s: State, ids: seq<Id>, states: seq<State>, events: seq<Event>)
    requires Faithful(s) && Can(s, Fire(ids)) && OverlapsCommute(s)
    requires Runs(states, events) && states[0] == Step(s, Fire(ids)) && Arrivals(events) && Sound(states[0])
    ensures AllPrefixes(states[|events|])
  {
    ChatsStay(states, events, |events|);
    forall id | id in states[|events|].chats ensures PrefixHolds(states[|events|], id) {
      var p, a, b := FiredArrives(s, ids, id);
      ArrivalsKeep(states, events, |events|, id, p, a, b);
      var last := states[|events|];
      if RowOf(last, id).Some? {
        RemainingIsPrefix(OfChat(last.appends, id), last.rows[RowOf(last, id).value], p, a, b);
      }
    }
  }

  lemma {:induction false} ChatsStay(states: seq<State>, events: seq<Event>, i: nat)
    requires Runs(states, events) && Arrivals(events) && i < |states|
    ensures states[i].chats == states[0].chats
    decreases i
  {
    if i > 0 {
      ChatsStay(states, events, i - 1);
      assert states[i - 1 + 1] == Step(states[i - 1], events[i - 1]);
      assert events[i - 1] in events;
    }
  }

  /** No conversation says the same thing twice. */
  ghost predicate Telling(s: State) {
    forall id, i, j :: id in s.chats && 0 <= i < j < |s.chats[id]| ==> s.chats[id][i] != s.chats[id][j]
  }

  /** Where nothing is said twice, no two stretches of one conversation commute. */
  lemma TellingDoesNotCommute(s: State, id: Id)
    requires Faithful(s) && Telling(s) && id in s.chats && Unsent(s, id) && OfChat(s.appends, id) != []
    ensures !Commutes(s, id)
  {
    var k := InFlight(s.appends, id);
    OfOneChat(s, k);
    assert Linked(s, id) && Tracked(s, id);
    var a, news := s.appends[k], News(s, id);
    assert a.pending[0] == s.chats[id][a.already] && news.pending[0] == s.chats[id][Synced(s, id)];
    assert (a.pending + news.pending)[0] != (news.pending + a.pending)[0];
  }

  /** So there the guard is simply that no conversation with news has an append on its way. */
  lemma GuardIsExact(s: State, ids: seq<Id>)
    requires Faithful(s) && Can(s, Fire(ids)) && Telling(s)
    ensures Guarded(s) <==> SafeAfter(Step(s, Fire(ids)))
  {
    GuardExactly(s, ids);
    if !Guarded(s) {
      var id :| id in s.chats && Unsent(s, id) && OfChat(s.appends, id) != [];
      TellingDoesNotCommute(s, id);
    }
  }
}
