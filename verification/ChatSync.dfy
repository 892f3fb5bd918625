/**
 How the chat panel carries its conversations to the server, `ai-assistant.tsx`: the sync effect, `newChat`
 and `closeSession`, with creates and appends in flight. Identifiers are never given out twice.
 */
module ChatSync {
  import opened Options

  type Id = string
  type Msg = string

  /** An append on its way: to which row, for which conversation, and which stretch of its messages. */
  datatype Append = Append(row: Id, local: Id, already: nat, pending: seq<Msg>)

  datatype State = State(
    chats: map<Id, seq<Msg>>,                    // the open conversations
    synced: map<Id, nat>, serverId: map<Id, Id>, // `syncedCountRef` and `serverIdRef`
    creating: set<Id>,                           // `creatingRef`: creates on their way
    appends: seq<Append>,                        // appends on their way
    rows: map<Id, seq<Msg>>,                     // the server's conversations
    owner: map<Id, Id>,                          // for which conversation a row was made
    used: set<Id>,
    due: bool)                                   // the effect has started its timer, which has not fired yet

  datatype Event =
    | Say(id: Id, m: Msg)                  // a message is added to an open conversation
    | Fire(ids: seq<Id>)                   // the timer of the sync effect, with the open conversations in order
    | CreateDone(id: Id, row: Id)          // a create comes back with a new row
    | CreateLost(id: Id, row: Id)          // a row is made, but the create comes back as failed
    | CreateFailed(id: Id)                 // no row is made, and the create comes back as failed
    | AppendDone(k: nat)                   // an append comes back, stored
    | AppendLost(k: nat)                   // stored, but the append comes back as failed
    | AppendFailed(k: nat)                 // not stored, and the append comes back as failed
    | NewChat(row: Id)                     // `newChat`, the server having made a row
    | NewChatLost(id: Id, row: Id)         // a row is made for it, but `newChat` does not learn of it
    | NewChatOffline(id: Id)               // `newChat` without the server
    | Close(id: Id, deleted: bool, spare: Id) // `closeSession`, the deletion taking effect or not

  /** What becomes of a create: a row or none, and whether its answer arrives. */
  function CreateReturn(id: Id, row: Option<Id>, told: bool): Event {
    if row.None? then CreateFailed(id) else if told then CreateDone(id, row.value) else CreateLost(id, row.value)
  }

  function AppendReturn(k: nat, stored: bool, told: bool): Event {
    if !stored then AppendFailed(k) else if told then AppendDone(k) else AppendLost(k)
  }

  function NewChatReturn(id: Id, row: Option<Id>, told: bool): Event {
    if row.None? then NewChatOffline(id) else if told then NewChat(row.value) else NewChatLost(id, row.value)
  }

  /** The row an open conversation is filed under, as the effect finds it. */
  function RowOf(s: State, id: Id): Option<Id> {
    if id in s.serverId then Some(s.serverId[id]) else if id in s.synced then Some(id) else None
  }

  function Synced(s: State, id: Id): nat { if id in s.synced then s.synced[id] else 0 }

  /** One turn of the effect's loop. */
  function FlushOne(s: State, id: Id): State
    requires id in s.chats
  {
    var messages := s.chats[id];
    match RowOf(s, id)
    case None =>
      if messages == [] || id in s.creating then s else s.(creating := s.creating + {id})
    case Some(row) =>
      var already := Synced(s, id);
      if |messages| <= already then s
      else s.(synced := s.synced[id := |messages|],
              appends := s.appends + [Append(row, id, already, messages[already..])])
  }

  function Flush(s: State, ids: seq<Id>): State
    requires forall id :: id in ids ==> id in s.chats
    ensures Flush(s, ids).chats == s.chats
    decreases |ids|
  {
    if ids == [] then s
    else
      var n := |ids| - 1;
      FlushOne(Flush(s, ids[..n]), ids[n])
  }

  function Without(appends: seq<Append>, k: nat): seq<Append>
    requires k < |appends|
  {
    appends[..k] + appends[k + 1..]
  }

  /** The open conversations, each once. */
  ghost predicate Lists(ids: seq<Id>, chats: map<Id, seq<Msg>>) {
    (forall i, j :: 0 <= i < j < |ids| ==> ids[i] != ids[j]) && forall id :: id in ids <==> id in chats
  }

  /** An event that can happen; `used` keeps identifiers apart. */
  ghost predicate Can(s: State, e: Event) {
    match e
    case Say(id, _) => id in s.chats
    case Fire(ids) => s.due && Lists(ids, s.chats)
    case CreateDone(id, row) => id in s.creating && row !in s.used
    case CreateLost(id, row) => id in s.creating && row !in s.used
    case CreateFailed(id) => id in s.creating
    case AppendDone(k) => k < |s.appends| && s.appends[k].row in s.rows
    case AppendLost(k) => k < |s.appends| && s.appends[k].row in s.rows
    case AppendFailed(k) => k < |s.appends|
    case NewChat(row) => row !in s.used
    case NewChatLost(id, row) => id !in s.used && row !in s.used && id != row
    case NewChatOffline(id) => id !in s.used
    case Close(id, _, spare) => id in s.chats && spare !in s.used
  }

  /** `closeSession`; the last conversation is replaced by an empty one. */
  function Closed(s: State, id: Id, deleted: bool, spare: Id): State {
    var row := if id in s.serverId then s.serverId[id] else id;
    var s' := s.(rows := if deleted then s.rows - {row} else s.rows,
                 synced := s.synced - {id}, serverId := s.serverId - {id}, due := true);
    if |s.chats| == 1 then s'.(chats := map[spare := []], used := s.used + {spare})
    else s'.(chats := s.chats - {id})
  }

  /** The server's logs with append `k` written down. */
  function Stored(s: State, k: nat): map<Id, seq<Msg>>
    requires k < |s.appends| && s.appends[k].row in s.rows
  {
    var a := s.appends[k];
    s.rows[a.row := s.rows[a.row] + a.pending]
  }

  /** The counters with append `k` taken back. */
  function SetBack(s: State, k: nat): map<Id, nat>
    requires k < |s.appends|
  {
    s.synced[s.appends[k].local := s.appends[k].already]
  }

  /** The answer to a create of an open conversation, or of one that is opened in its place, is lost. */
  predicate LosesRow(s: State, e: Event) {
    (e.CreateLost? && e.id in s.chats) || e.NewChatLost?
  }

  /** The answer to an append of an open conversation is lost. */
  ghost predicate LosesLog(s: State, e: Event)
    requires Can(s, e)
  {
    e.AppendLost? && s.appends[e.k].local in s.chats
  }

  /**
   What an event does. The effect runs again, and starts its timer anew, whenever the list of conversations is set:
   not when a request comes back as failed, nor when an append is stored.
   */
  function Step(s: State, e: Event): State
    requires Can(s, e)
  {
    match e
    case Say(id, m) => s.(chats := s.chats[id := s.chats[id] + [m]], due := true)
    case Fire(ids) => Flush(s.(due := false), ids)
    case CreateDone(id, row) =>
      s.(serverId := s.serverId[id := row], synced := s.synced[id := 0], creating := s.creating - {id},
         rows := s.rows[row := []], owner := s.owner[row := id], used := s.used + {row}, due := true)
    case CreateLost(id, row) =>
      s.(creating := s.creating - {id},
         rows := s.rows[row := []], owner := s.owner[row := id], used := s.used + {row})
    case CreateFailed(id) => s.(creating := s.creating - {id})
    case AppendDone(k) => s.(rows := Stored(s, k), appends := Without(s.appends, k))
    case AppendLost(k) => s.(rows := Stored(s, k), synced := SetBack(s, k), appends := Without(s.appends, k))
    case AppendFailed(k) => s.(synced := SetBack(s, k), appends := Without(s.appends, k))
    case NewChat(row) =>
      s.(chats := s.chats[row := []], synced := s.synced[row := 0],
         rows := s.rows[row := []], owner := s.owner[row := row], used := s.used + {row}, due := true)
    case NewChatLost(id, row) =>
      s.(chats := s.chats[id := []],
         rows := s.rows[row := []], owner := s.owner[row := id], used := s.used + {id, row}, due := true)
    case NewChatOffline(id) =>
      s.(chats := s.chats[id := []], used := s.used + {id}, due := true)
    case Close(id, deleted, spare) => Closed(s, id, deleted, spare)
  }

  // ----- one row per conversation -----

  /** Row and conversation belong together, and no other row was ever made for the conversation. */
  ghost predicate Linked(s: State, id: Id)
    requires id in s.chats
  {
    match RowOf(s, id)
    case None =>
      && (forall r :: r in s.owner ==> s.owner[r] != id)
      && forall k :: 0 <= k < |s.appends| ==> s.appends[k].local != id
    case Some(row) =>
      && id in s.synced && id !in s.creating && row in s.rows && row in s.owner && s.owner[row] == id
      && (forall r :: r in s.owner && s.owner[r] == id ==> r == row)
      && forall k :: 0 <= k < |s.appends| && s.appends[k].local == id ==> s.appends[k].row == row
  }

  ghost predicate Orderly(s: State) {
    && s.chats.Keys <= s.used && s.rows.Keys <= s.used && s.owner.Keys <= s.used && s.serverId.Keys <= s.used
    && s.synced.Keys <= s.used && s.creating <= s.used
    && (forall r :: r in s.owner ==> s.owner[r] in s.used)
    && (forall r :: r in s.rows ==> r in s.owner)
    && (forall k :: 0 <= k < |s.appends| ==>
          s.appends[k].local in s.used && s.appends[k].row in s.used && s.appends[k].row in s.owner
          && s.owner[s.appends[k].row] == s.appends[k].local && s.appends[k].pending != [])
    && (forall id :: id in s.chats && id in s.rows ==> s.owner[id] == id)
  }

  ghost predicate Sound(s: State) {
    Orderly(s) && forall id :: id in s.chats ==> Linked(s, id)
  }

  // ----- nothing lost, nothing doubled -----

  /** The appends of one conversation on their way, in order. */
  function OfChat(appends: seq<Append>, id: Id): seq<Append> {
    if appends == [] then []
    else
      var n := |appends| - 1;
      OfChat(appends[..n], id) + (if appends[n].local == id then [appends[n]] else [])
  }

  /**
   What the server holds and the one append on its way, if any, make up what has been counted as sent:
   nothing is missing, doubled or out of order.
   */
  ghost predicate Tracked(s: State, id: Id)
    requires id in s.chats
  {
    RowOf(s, id).Some? ==>
      var row, messages, sent := RowOf(s, id).value, s.chats[id], Synced(s, id);
      && row in s.rows && sent <= |messages|
      && match |OfChat(s.appends, id)|
         case 0 => s.rows[row] == messages[..sent]
         case 1 =>
           var a := OfChat(s.appends, id)[0];
           a.already <= sent && s.rows[row] == messages[..a.already] && a.pending == messages[a.already..sent]
         case _ => false
  }

  ghost predicate Faithful(s: State) {
    Sound(s) && forall id :: id in s.chats ==> Tracked(s, id)
  }

  predicate Unsent(s: State, id: Id)
    requires id in s.chats
  {
    RowOf(s, id).Some? && |s.chats[id]| > Synced(s, id)
  }

  /** The timer finds no conversation with news whose last append is still on its way. */
  ghost predicate Guarded(s: State) {
    forall id :: id in s.chats && Unsent(s, id) ==> OfChat(s.appends, id) == []
  }

  /** The server's log of an open conversation is a beginning of it. */
  ghost predicate PrefixHolds(s: State, id: Id)
    requires id in s.chats
  {
    RowOf(s, id).Some? && RowOf(s, id).value in s.rows ==> s.rows[RowOf(s, id).value] <= s.chats[id]
  }

  lemma TrackedIsPrefix(s: State, id: Id)
    requires id in s.chats && Tracked(s, id)
    ensures PrefixHolds(s, id)
  {
  }

  // ----- every step keeps the links -----

  lemma FlushOneSound(s: State, id: Id)
    requires Sound(s) && id in s.chats
    ensures Sound(FlushOne(s, id))
  {
    assert Linked(s, id);
    if RowOf(s, id).None? {
      CreatingSound(s, id);
    } else if |s.chats[id]| > Synced(s, id) {
      SendingSound(s, id, RowOf(s, id).value);
    }
  }

  lemma CreatingSound(s: State, id: Id)
    requires Sound(s) && id in s.chats && RowOf(s, id).None?
    ensures Sound(s.(creating := s.creating + {id}))
  {
    var s' := s.(creating := s.creating + {id});
    forall x | x in s'.chats ensures Linked(s', x) {
      assert Linked(s, x);
    }
  }

  lemma SendingSound(s: State, id: Id, row: Id)
    requires Sound(s) && id in s.chats && RowOf(s, id) == Some(row) && |s.chats[id]| > Synced(s, id)
    ensures Sound(FlushOne(s, id))
  {
    var s' := FlushOne(s, id);
    assert Linked(s, id);
    forall x | x in s'.chats ensures Linked(s', x) {
      assert Linked(s, x);
      assert RowOf(s', x) == RowOf(s, x);
    }
  }

  lemma {:induction false} FlushSound(s: State, ids: seq<Id>)
    requires Sound(s) && forall id :: id in ids ==> id in s.chats
    ensures Sound(Flush(s, ids))
    decreases |ids|
  {
    if ids != [] {
      FlushSound(s, ids[..|ids| - 1]);
      FlushOneSound(Flush(s, ids[..|ids| - 1]), ids[|ids| - 1]);
    }
  }

  /** A timer more or less does not matter. */
  lemma TimerDoesNotMatter(s: State, due: bool)
    requires Sound(s)
    ensures Sound(s.(due := due))
    ensures Faithful(s) ==> Faithful(s.(due := due))
  {
    var s' := s.(due := due);
    forall x | x in s.chats ensures Linked(s', x) && (Faithful(s) ==> Tracked(s', x)) {
      assert Linked(s, x);
      assert Faithful(s) ==> Tracked(s, x);
    }
  }

  lemma FireSound(s: State, ids: seq<Id>)
    requires Sound(s) && Can(s, Fire(ids))
    ensures Sound(Step(s, Fire(ids)))
  {
    TimerDoesNotMatter(s, false);
    FlushSound(s.(due := false), ids);
  }

  lemma SaySound(s: State, id: Id, m: Msg)
    requires Sound(s) && Can(s, Say(id, m))
    ensures Sound(Step(s, Say(id, m)))
  {
    var s' := Step(s, Say(id, m));
    forall x | x in s'.chats ensures Linked(s', x) {
      assert Linked(s, x);
    }
  }

  lemma CreateSound(s: State, id: Id, row: Id)
    requires Sound(s) && Can(s, CreateDone(id, row))
    ensures Sound(Step(s, CreateDone(id, row)))
  {
    var s' := Step(s, CreateDone(id, row));
    forall x | x in s'.chats ensures Linked(s', x) {
      assert Linked(s, x);
    }
  }

  lemma CreateFailedSound(s: State, id: Id)
    requires Sound(s) && Can(s, CreateFailed(id))
    ensures Sound(Step(s, CreateFailed(id)))
  {
    var s' := Step(s, CreateFailed(id));
    forall x | x in s'.chats ensures Linked(s', x) {
      assert Linked(s, x);
    }
  }

  lemma AppendSound(s: State, k: nat, stored: bool)
    requires Sound(s) && Can(s, if stored then AppendDone(k) else AppendFailed(k))
    ensures Sound(Step(s, if stored then AppendDone(k) else AppendFailed(k)))
  {
    var s' := Step(s, if stored then AppendDone(k) else AppendFailed(k));
    var a := s.appends[k];
    WithoutKeeps(s.appends, k);
    forall x | x in s'.chats ensures Linked(s', x) {
      assert Linked(s, x);
    }
  }

  /** What the rows hold does not matter for whose they are. */
  lemma ContentsDoNotMatter(s: State, rows: map<Id, seq<Msg>>)
    requires Sound(s) && rows.Keys == s.rows.Keys
    ensures Sound(s.(rows := rows))
  {
    forall x | x in s.chats ensures Linked(s.(rows := rows), x) {
      assert Linked(s, x);
    }
  }

  lemma AppendLostSound(s: State, k: nat)
    requires Sound(s) && Can(s, AppendLost(k))
    ensures Sound(Step(s, AppendLost(k)))
  {
    AppendSound(s, k, false);
    ContentsDoNotMatter(Step(s, AppendFailed(k)), Stored(s, k));
  }

  lemma CreateLostSound(s: State, id: Id, row: Id)
    requires Sound(s) && Can(s, CreateLost(id, row)) && id !in s.chats
    ensures Sound(Step(s, CreateLost(id, row)))
  {
    var s' := Step(s, CreateLost(id, row));
    forall x | x in s'.chats ensures Linked(s', x) {
      assert Linked(s, x);
      assert RowOf(s', x) == RowOf(s, x);
    }
  }

  lemma WithoutKeeps(appends: seq<Append>, k: nat)
    requires k < |appends|
    ensures forall i :: 0 <= i < |Without(appends, k)| ==>
              Without(appends, k)[i] == appends[if i < k then i else i + 1]
    ensures forall i :: 0 <= i < |appends| && i != k ==> appends[i] == Without(appends, k)[if i < k then i else i - 1]
  {
    var w := Without(appends, k);
    forall i | 0 <= i < |w| ensures w[i] == appends[if i < k then i else i + 1] {
      assert i >= k ==> w[i] == appends[k + 1..][i - k];
    }
    forall i | 0 <= i < |appends| && i != k ensures appends[i] == w[if i < k then i else i - 1] {
      assert i > k ==> w[i - 1] == appends[k + 1..][i - 1 - k];
    }
  }

  lemma NewChatSound(s: State, row: Id)
    requires Sound(s) && Can(s, NewChat(row))
    ensures Sound(Step(s, NewChat(row)))
  {
    var s' := Step(s, NewChat(row));
    forall x | x in s'.chats ensures Linked(s', x) {
      if x != row {
        assert Linked(s, x);
        assert RowOf(s', x) == RowOf(s, x);
      }
    }
  }

  lemma NewChatOfflineSound(s: State, id: Id)
    requires Sound(s) && Can(s, NewChatOffline(id))
    ensures Sound(Step(s, NewChatOffline(id)))
  {
    var s' := Step(s, NewChatOffline(id));
    forall x | x in s'.chats ensures Linked(s', x) {
      if x != id {
        assert Linked(s, x);
      }
    }
  }

  lemma CloseSound(s: State, id: Id, deleted: bool, spare: Id)
    requires Sound(s) && Can(s, Close(id, deleted, spare))
    ensures Sound(Step(s, Close(id, deleted, spare)))
  {
    assert Linked(s, id);
    if |s.chats| == 1 {
      CloseLastSound(s, id, deleted, spare);
    } else {
      CloseOneSound(s, id, deleted, spare);
    }
  }

  /** The row `closeSession` asks to delete belongs to no other conversation. */
  lemma ClosedRow(s: State, id: Id, row: Id)
    requires Sound(s) && id in s.chats && row == if id in s.serverId then s.serverId[id] else id
    ensures row in s.rows ==> s.owner[row] == id
  {
    assert Linked(s, id);
  }

  lemma OnlyChat(chats: map<Id, seq<Msg>>, id: Id, x: Id)
    requires id in chats && x in chats && x != id
    ensures |chats| > 1
  {
    assert |chats - {id}| == |chats| - 1;
    assert x in chats - {id};
  }

  lemma CloseLastSound(s: State, id: Id, deleted: bool, spare: Id)
    requires Sound(s) && Can(s, Close(id, deleted, spare)) && |s.chats| == 1
    ensures Sound(Step(s, Close(id, deleted, spare)))
  {
    var s' := Step(s, Close(id, deleted, spare));
    assert s'.chats.Keys == {spare};
    assert RowOf(s', spare) == None;
    assert Orderly(s');
  }

  lemma CloseOneSound(s: State, id: Id, deleted: bool, spare: Id)
    requires Sound(s) && Can(s, Close(id, deleted, spare)) && |s.chats| != 1
    ensures Sound(Step(s, Close(id, deleted, spare)))
  {
    var s' := Step(s, Close(id, deleted, spare));
    ClosedRow(s, id, if id in s.serverId then s.serverId[id] else id);
    forall x | x in s'.chats ensures Linked(s', x) {
      assert Linked(s, x) && x != id;
      assert RowOf(s', x) == RowOf(s, x);
    }
  }

  /** Every step but one that loses the answer to a create. */
  lemma StepSound(s: State, e: Event)
    requires Sound(s) && Can(s, e) && !LosesRow(s, e)
    ensures Sound(Step(s, e))
  {
    match e
    case Say(id, m) => SaySound(s, id, m);
    case Fire(ids) => FireSound(s, ids);
    case CreateDone(id, row) => CreateSound(s, id, row);
    case CreateLost(id, row) => CreateLostSound(s, id, row);
    case CreateFailed(id) => CreateFailedSound(s, id);
    case AppendDone(k) => AppendSound(s, k, true);
    case AppendLost(k) => AppendLostSound(s, k);
    case AppendFailed(k) => AppendSound(s, k, false);
    case NewChat(row) => NewChatSound(s, row);
    case NewChatOffline(id) => NewChatOfflineSound(s, id);
    case Close(id, deleted, spare) => CloseSound(s, id, deleted, spare);
  }

  // ----- every guarded step keeps the logs -----

  /** Nothing of conversation `x` has changed but perhaps its messages, which have only grown. */
  ghost predicate Untouched(s: State, s': State, x: Id)
    requires x in s.chats && x in s'.chats
  {
    && RowOf(s', x) == RowOf(s, x) && Synced(s', x) == Synced(s, x)
    && s.chats[x] <= s'.chats[x]
    && (RowOf(s, x).Some? ==>
          var row := RowOf(s, x).value; (row in s.rows ==> row in s'.rows && s'.rows[row] == s.rows[row]))
    && OfChat(s'.appends, x) == OfChat(s.appends, x)
  }

  lemma UntouchedIsTracked(s: State, s': State, x: Id)
    requires x in s.chats && x in s'.chats && Tracked(s, x) && Untouched(s, s', x)
    ensures Tracked(s', x)
  {
    if RowOf(s, x).Some? {
      var sent := Synced(s, x);
      assert s.chats[x][..sent] == s'.chats[x][..sent];
      if |OfChat(s.appends, x)| == 1 {
        var a := OfChat(s.appends, x)[0];
        assert s.chats[x][..a.already] == s'.chats[x][..a.already];
        assert s.chats[x][a.already..sent] == s'.chats[x][a.already..sent];
      }
    }
  }

  lemma {:induction false} OfChatAppend(a: seq<Append>, b: seq<Append>, id: Id)
    ensures OfChat(a + b, id) == OfChat(a, id) + OfChat(b, id)
    decreases |b|
  {
    if b == [] {
      assert a + b == a;
    } else {
      assert (a + b)[..|a + b| - 1] == a + b[..|b| - 1];
      OfChatAppend(a, b[..|b| - 1], id);
    }
  }

  lemma OfChatOne(a: Append, id: Id)
    ensures OfChat([a], id) == if a.local == id then [a] else []
  {
    assert [a][..0] == [];
  }

  /** Taking one append away takes it away from its conversation only. */
  lemma OfChatWithout(appends: seq<Append>, k: nat, id: Id)
    requires k < |appends|
    ensures appends[k].local != id ==> OfChat(Without(appends, k), id) == OfChat(appends, id)
    ensures appends[k].local == id ==>
              |OfChat(Without(appends, k), id)| == |OfChat(appends, id)| - 1
              && (|OfChat(appends, id)| == 1 ==> OfChat(appends, id)[0] == appends[k])
  {
    var a, x, b := appends[..k], appends[k], appends[k + 1..];
    assert appends == a + ([x] + b);
    OfChatThree(a, x, b, id);
    OfChatAppend(a, b, id);
  }

  lemma OfChatThree(a: seq<Append>, x: Append, b: seq<Append>, id: Id)
    ensures OfChat(a + ([x] + b), id) == OfChat(a, id) + (if x.local == id then [x] else []) + OfChat(b, id)
  {
    OfChatAppend(a, [x] + b, id);
    OfChatAppend([x], b, id);
    OfChatOne(x, id);
  }

  lemma {:induction false} OfChatNone(appends: seq<Append>, id: Id)
    requires forall k :: 0 <= k < |appends| ==> appends[k].local != id
    ensures OfChat(appends, id) == []
  {
    if appends != [] {
      OfChatNone(appends[..|appends| - 1], id);
    }
  }

  /** Two open conversations never share a row. */
  lemma RowsApart(s: State, x: Id, y: Id)
    requires Sound(s) && x in s.chats && y in s.chats && x != y && RowOf(s, x).Some?
    ensures RowOf(s, x) != RowOf(s, y)
  {
    assert Linked(s, x) && Linked(s, y);
  }

  lemma FlushOneFaithful(s: State, id: Id)
    requires Faithful(s) && id in s.chats && (Unsent(s, id) ==> OfChat(s.appends, id) == [])
    ensures Faithful(FlushOne(s, id))
    ensures forall x :: x in s.chats && x != id ==> Untouched(s, FlushOne(s, id), x)
  {
    var s' := FlushOne(s, id);
    FlushOneSound(s, id);
    assert Linked(s, id) && Tracked(s, id);
    forall x | x in s.chats && x != id ensures Untouched(s, s', x) {
      FlushOneLeaves(s, id, x);
    }
    forall x | x in s'.chats ensures Tracked(s', x) {
      assert Tracked(s, x);
      if x != id {
        UntouchedIsTracked(s, s', x);
      } else {
        FlushOneTracks(s, id);
      }
    }
  }

  lemma OneMore(appends: seq<Append>, a: Append, x: Id)
    ensures OfChat(appends + [a], x) == OfChat(appends, x) + if a.local == x then [a] else []
  {
    OfChatAppend(appends, [a], x);
    OfChatOne(a, x);
  }

  lemma SendingLeaves(s: State, n: nat, a: Append, x: Id)
    requires x in s.chats && x != a.local
    ensures Untouched(s, s.(synced := s.synced[a.local := n], appends := s.appends + [a]), x)
  {
    OneMore(s.appends, a, x);
  }

  lemma FlushOneLeaves(s: State, id: Id, x: Id)
    requires id in s.chats && x in s.chats && x != id
    ensures Untouched(s, FlushOne(s, id), x)
  {
    var messages := s.chats[id];
    if RowOf(s, id).Some? && |messages| > Synced(s, id) {
      SendingLeaves(s, |messages|, Append(RowOf(s, id).value, id, Synced(s, id), messages[Synced(s, id)..]), x);
    }
  }

  lemma FlushOneTracks(s: State, id: Id)
    requires id in s.chats && Linked(s, id) && Tracked(s, id) && (Unsent(s, id) ==> OfChat(s.appends, id) == [])
    ensures Tracked(FlushOne(s, id), id)
  {
    if Unsent(s, id) {
      OneMore(s.appends, Append(RowOf(s, id).value, id, Synced(s, id), s.chats[id][Synced(s, id)..]), id);
    }
  }

  lemma {:induction false} FlushFaithful(s: State, ids: seq<Id>)
    requires Faithful(s) && Guarded(s) && forall i, j :: 0 <= i < j < |ids| ==> ids[i] != ids[j]
    requires forall id :: id in ids ==> id in s.chats
    ensures Faithful(Flush(s, ids))
    ensures forall x :: x in s.chats && x !in ids ==> Untouched(s, Flush(s, ids), x)
    decreases |ids|
  {
    if ids != [] {
      var n := |ids| - 1;
      var mid, id := Flush(s, ids[..n]), ids[n];
      FlushFaithful(s, ids[..n]);
      assert id !in ids[..n];
      assert Untouched(s, mid, id);
      FlushOneFaithful(mid, id);
      forall x | x in s.chats && x !in ids ensures Untouched(s, Flush(s, ids), x) {
        assert x !in ids[..n] && x != id;
        assert Untouched(s, mid, x) && Untouched(mid, Flush(s, ids), x);
      }
    }
  }

  lemma FireFaithful(s: State, ids: seq<Id>)
    requires Faithful(s) && Guarded(s) && Can(s, Fire(ids))
    ensures Faithful(Step(s, Fire(ids)))
  {
    var s' := s.(due := false);
    TimerDoesNotMatter(s, false);
    assert Guarded(s') by {
      forall id | id in s'.chats && Unsent(s', id) ensures OfChat(s'.appends, id) == [] {
        assert Unsent(s, id);
      }
    }
    FlushFaithful(s', ids);
  }

  lemma SayFaithful(s: State, id: Id, m: Msg)
    requires Faithful(s) && Can(s, Say(id, m))
    ensures Faithful(Step(s, Say(id, m)))
  {
    var s' := Step(s, Say(id, m));
    SaySound(s, id, m);
    forall x | x in s'.chats ensures Tracked(s', x) {
      assert Tracked(s, x);
      UntouchedIsTracked(s, s', x);
    }
  }

  lemma CreateFaithful(s: State, id: Id, row: Id)
    requires Faithful(s) && Can(s, CreateDone(id, row))
    ensures Faithful(Step(s, CreateDone(id, row)))
  {
    var s' := Step(s, CreateDone(id, row));
    CreateSound(s, id, row);
    forall x | x in s'.chats ensures Tracked(s', x) {
      assert Tracked(s, x) && Linked(s, x);
      if x == id {
        OfChatNone(s.appends, id);
      } else {
        UntouchedIsTracked(s, s', x);
      }
    }
  }

  lemma CreateFailedFaithful(s: State, id: Id)
    requires Faithful(s) && Can(s, CreateFailed(id))
    ensures Faithful(Step(s, CreateFailed(id)))
  {
    var s' := Step(s, CreateFailed(id));
    CreateFailedSound(s, id);
    forall x | x in s'.chats ensures Tracked(s', x) {
      assert Tracked(s, x);
      UntouchedIsTracked(s, s', x);
    }
  }

  lemma AppendFaithful(s: State, k: nat, stored: bool)
    requires Faithful(s) && Can(s, if stored then AppendDone(k) else AppendFailed(k))
    ensures Faithful(Step(s, if stored then AppendDone(k) else AppendFailed(k)))
  {
    var s' := Step(s, if stored then AppendDone(k) else AppendFailed(k));
    AppendSound(s, k, stored);
    forall x | x in s'.chats ensures Tracked(s', x) {
      if x == s.appends[k].local {
        ArrivalTracks(s, k, stored);
      } else {
        ArrivalLeaves(s, k, stored, x);
        UntouchedIsTracked(s, s', x);
      }
    }
  }

  lemma ArrivalLeaves(s: State, k: nat, stored: bool, x: Id)
    requires Sound(s) && Can(s, if stored then AppendDone(k) else AppendFailed(k))
    requires x in s.chats && x != s.appends[k].local
    ensures Untouched(s, Step(s, if stored then AppendDone(k) else AppendFailed(k)), x)
  {
    assert Linked(s, x);
    OfChatWithout(s.appends, k, x);
  }

  /** An append that comes back settles its stretch, one way or the other. */
  lemma ArrivalTracks(s: State, k: nat, stored: bool)
    requires Faithful(s) && Can(s, if stored then AppendDone(k) else AppendFailed(k)) && s.appends[k].local in s.chats
    ensures Tracked(Step(s, if stored then AppendDone(k) else AppendFailed(k)), s.appends[k].local)
  {
    var a := s.appends[k];
    var messages := s.chats[a.local];
    assert Linked(s, a.local) && Tracked(s, a.local);
    OfChatWithout(s.appends, k, a.local);
    assert RowOf(s, a.local) == Some(a.row);
    assert messages[..a.already] + messages[a.already..Synced(s, a.local)] == messages[..Synced(s, a.local)];
  }

  lemma CreateLostFaithful(s: State, id: Id, row: Id)
    requires Faithful(s) && Can(s, CreateLost(id, row)) && id !in s.chats
    ensures Faithful(Step(s, CreateLost(id, row)))
  {
    var s' := Step(s, CreateLost(id, row));
    CreateLostSound(s, id, row);
    forall x | x in s'.chats ensures Tracked(s', x) {
      assert Tracked(s, x) && Linked(s, x);
      UntouchedIsTracked(s, s', x);
    }
  }

  lemma AppendLostFaithful(s: State, k: nat)
    requires Faithful(s) && Can(s, AppendLost(k)) && s.appends[k].local !in s.chats
    ensures Faithful(Step(s, AppendLost(k)))
  {
    var s' := Step(s, AppendLost(k));
    AppendLostSound(s, k);
    forall x | x in s'.chats ensures Tracked(s', x) {
      assert Linked(s, x);
      OfChatWithout(s.appends, k, x);
      assert Untouched(s, s', x);
      UntouchedIsTracked(s, s', x);
    }
  }

  lemma NewChatFaithful(s: State, row: Id)
    requires Faithful(s) && Can(s, NewChat(row))
    ensures Faithful(Step(s, NewChat(row)))
  {
    var s' := Step(s, NewChat(row));
    NewChatSound(s, row);
    forall x | x in s'.chats ensures Tracked(s', x) {
      if x == row {
        OfChatNone(s.appends, row);
      } else {
        assert Tracked(s, x) && Linked(s, x);
        UntouchedIsTracked(s, s', x);
      }
    }
  }

  lemma NewChatOfflineFaithful(s: State, id: Id)
    requires Faithful(s) && Can(s, NewChatOffline(id))
    ensures Faithful(Step(s, NewChatOffline(id)))
  {
    var s' := Step(s, NewChatOffline(id));
    NewChatOfflineSound(s, id);
    forall x | x in s'.chats ensures Tracked(s', x) {
      if x != id {
        assert Tracked(s, x);
        UntouchedIsTracked(s, s', x);
      }
    }
  }

  lemma CloseFaithful(s: State, id: Id, deleted: bool, spare: Id)
    requires Faithful(s) && Can(s, Close(id, deleted, spare))
    ensures Faithful(Step(s, Close(id, deleted, spare)))
  {
    var s' := Step(s, Close(id, deleted, spare));
    CloseSound(s, id, deleted, spare);
    forall x | x in s'.chats ensures Tracked(s', x) {
      if x in s.chats {
        CloseLeaves(s, id, deleted, spare, x);
        UntouchedIsTracked(s, s', x);
      }
    }
  }

  lemma CloseLeaves(s: State, id: Id, deleted: bool, spare: Id, x: Id)
    requires Sound(s) && Can(s, Close(id, deleted, spare)) && x in s.chats && x in Closed(s, id, deleted, spare).chats
    ensures Untouched(s, Closed(s, id, deleted, spare), x)
  {
    ClosedRow(s, id, if id in s.serverId then s.serverId[id] else id);
    assert Linked(s, x);
    if |s.chats| == 1 && x != id {
      OnlyChat(s.chats, id, x);
    }
  }

  /** Every step that loses no answer keeps the logs faithful, provided the timer fires only while it is guarded. */
  lemma StepFaithful(s: State, e: Event)
    requires Faithful(s) && Can(s, e) && (e.Fire? ==> Guarded(s)) && !LosesRow(s, e) && !LosesLog(s, e)
    ensures Faithful(Step(s, e))
  {
    match e
    case Say(id, m) => SayFaithful(s, id, m);
    case Fire(ids) => FireFaithful(s, ids);
    case CreateDone(id, row) => CreateFaithful(s, id, row);
    case CreateLost(id, row) => CreateLostFaithful(s, id, row);
    case CreateFailed(id) => CreateFailedFaithful(s, id);
    case AppendDone(k) => AppendFaithful(s, k, true);
    case AppendLost(k) => AppendLostFaithful(s, k);
    case AppendFailed(k) => AppendFaithful(s, k, false);
    case NewChat(row) => NewChatFaithful(s, row);
    case NewChatOffline(id) => NewChatOfflineFaithful(s, id);
    case Close(id, deleted, spare) => CloseFaithful(s, id, deleted, spare);
  }
}
