/** The refs of the chat panel, updated in place by the sync effect and by what comes back from the server. */
module ChatPanel {
  import opened ChatSync
  import ChatRuns
  import opened Options

  class Panel {
    var chats: map<Id, seq<Msg>>
    var synced: map<Id, nat>
    var serverId: map<Id, Id>
    var creating: set<Id>
    // requests on their way, the server, and the identifiers given out
    var appends: seq<Append>
    var rows: map<Id, seq<Msg>>
    var owner: map<Id, Id>
    var used: set<Id>
    // whether the effect's timer is running
    var due: bool

    /** A panel with one empty conversation and an empty server. */
    constructor (first: Id)
      ensures ChatRuns.Fresh(Snapshot())
    {
      chats, synced, serverId, creating := map[first := []], map[], map[], {};
      appends, rows, owner, used, due := [], map[], map[], {first}, true;
    }

    function Snapshot(): State
      reads this
    {
      State(chats, synced, serverId, creating, appends, rows, owner, used, due)
    }

    method Say(id: Id, m: Msg)
      requires Can(Snapshot(), ChatSync.Say(id, m))
      modifies this`chats, this`due
      ensures Snapshot() == Step(old(Snapshot()), ChatSync.Say(id, m))
    {
      chats := chats[id := chats[id] + [m]];
      due := true;
    }

    /** One conversation's turn: its row is asked for, or its news is sent and counted as sent. */
    method FlushChat(id: Id)
      requires id in chats
      modifies this`synced, this`creating, this`appends
      ensures Snapshot() == FlushOne(old(Snapshot()), id)
    {
      var messages := chats[id];
      var row := if id in serverId then Some(serverId[id]) else if id in synced then Some(id) else None;
      if row.None? {
        if messages != [] && id !in creating {
          creating := creating + {id};
        }
      } else {
        var already := if id in synced then synced[id] else 0;
        if |messages| > already {
          var pending := messages[already..];
          synced := synced[id := |messages|];
          appends := appends + [Append(row.value, id, already, pending)];
        }
      }
    }

    /** The body of the effect's timer. */
    method Fire(ids: seq<Id>)
      requires Can(Snapshot(), ChatSync.Fire(ids))
      modifies this`synced, this`creating, this`appends, this`due
      ensures Snapshot() == Step(old(Snapshot()), ChatSync.Fire(ids))
    {
      due := false;
      ghost var start := Snapshot();
      var k := 0;
      while k < |ids|
        invariant 0 <= k <= |ids|
        invariant Snapshot() == Flush(start, ids[..k])
      {
        assert ids[..k + 1][..k] == ids[..k];
        assert ids[k] in chats;
        FlushChat(ids[k]);
        k := k + 1;
      }
      assert ids[..|ids|] == ids;
    }

    /** A create comes back: with its row, or as failed, although a row may have been made. */
    method CreateReturns(id: Id, row: Option<Id>, told: bool)
      requires Can(Snapshot(), CreateReturn(id, row, told))
      modifies this
      ensures Snapshot() == Step(old(Snapshot()), CreateReturn(id, row, told))
    {
      if row.Some? {
        rows, owner, used := rows[row.value := []], owner[row.value := id], used + {row.value};
        if told {
          serverId := serverId[id := row.value];
          synced := synced[id := 0];
          due := true;
        }
      }
      creating := creating - {id};
    }

    /** An append comes back: as stored, or as failed, although it may have been stored. */
    method AppendReturns(k: nat, stored: bool, told: bool)
      requires Can(Snapshot(), AppendReturn(k, stored, told))
      modifies this`rows, this`synced, this`appends
      ensures Snapshot() == Step(old(Snapshot()), AppendReturn(k, stored, told))
    {
      var a := appends[k];
      if stored {
        rows := rows[a.row := rows[a.row] + a.pending];
      }
      if !stored || !told {
        synced := synced[a.local := a.already];
      }
      appends := appends[..k] + appends[k + 1..];
    }

    /** A new chat under the row the server made for it, or under `id` if none is made or none is known of. */
    method OpenChat(id: Id, row: Option<Id>, told: bool)
      requires Can(Snapshot(), NewChatReturn(id, row, told))
      modifies this
      ensures Snapshot() == Step(old(Snapshot()), NewChatReturn(id, row, told))
    {
      if row.Some? && told {
        rows, owner := rows[row.value := []], owner[row.value := row.value];
        synced := synced[row.value := 0];
        chats := chats[row.value := []];
        used := used + {row.value};
      } else {
        if row.Some? {
          rows, owner, used := rows[row.value := []], owner[row.value := id], used + {row.value};
        }
        chats := chats[id := []];
        used := used + {id};
      }
      due := true;
    }

    /** The conversation is dropped from the list; the last one is replaced by an empty one. */
    method DropChat(id: Id, spare: Id)
      requires id in chats
      modifies this`chats, this`used, this`due
      ensures due && used == if |old(chats)| == 1 then old(used) + {spare} else old(used)
      ensures chats == if |old(chats)| == 1 then map[spare := []] else old(chats) - {id}
    {
      if |chats| == 1 {
        chats := map[spare := []];
        used := used + {spare};
      } else {
        chats := chats - {id};
      }
      due := true;
    }

    method CloseChat(id: Id, deleted: bool, spare: Id)
      requires id in chats
      modifies this
      ensures Snapshot() == Closed(old(Snapshot()), id, deleted, spare)
    {
      var row := if id in serverId then serverId[id] else id;
      if deleted {
        rows := rows - {row};
      }
      synced := synced - {id};
      serverId := serverId - {id};
      DropChat(id, spare);
    }
  }
}
