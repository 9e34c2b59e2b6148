/** The live-update server: the registry of connected clients and the
    `message` handler, which writes through the store and sends to clients.
    `HandleMessage` is proved to do exactly what LiveSpec.Dispatch describes. */
module Hub {
  import opened HintText
  import opened QuizDb
  import opened LiveSpec
  import opened Store

  class LiveHub {
    const store: QuizStore
    var open: set<ClientId>
    var outboxes: map<ClientId, seq<OutMsg>>

    function WireState(): Wire
      reads this
    {
      Wire(open, outboxes)
    }

    function LiveState(): Live
      reads this, store
    {
      Live(store.Snapshot(), WireState())
    }

    ghost predicate Valid()
      reads this, store
    {
      store.Valid() && WireValid(WireState())
    }

    constructor (store: QuizStore)
      requires store.Valid()
      ensures Valid() && this.store == store
      ensures open == {} && outboxes == map[]
    {
      this.store := store;
      open, outboxes := {}, map[];
    }

    /** A new connection: open, with nothing sent to it yet. */
    method Connect(c: ClientId)
      requires Valid() && c !in outboxes
      modifies this
      ensures Valid()
      ensures open == old(open) + {c} && outboxes == old(outboxes)[c := []]
    {
      open := open + {c};
      outboxes := outboxes[c := []];
    }

    /** A closed connection: no longer open, so no longer sent anything; what
        it was sent stays as it was. */
    method Disconnect(c: ClientId)
      requires Valid()
      modifies this
      ensures Valid()
      ensures open == old(open) - {c} && outboxes == old(outboxes)
    {
      open := open - {c};
    }

    /** `ws.send(m)` to one client. */
    method Send(c: ClientId, m: OutMsg)
      requires Valid() && c in open
      modifies this
      ensures Valid()
      ensures open == old(open) && outboxes == SendTo(old(outboxes), c, m)
    {
      outboxes := outboxes[c := outboxes[c] + [m]];
    }

    /** `wss.clients.forEach(client => if open, client.send(m))`: one open
        client after another is sent `m`. */
    method Broadcast(m: OutMsg)
      requires Valid()
      modifies this
      ensures Valid()
      ensures open == old(open) && outboxes == SendToAll(old(outboxes), old(open), m)
    {
      var pending := open;
      while pending != {}
        invariant open == old(open) && pending <= open && outboxes.Keys == old(outboxes).Keys
        invariant forall c :: c in old(outboxes) && (c !in open || c in pending) ==> outboxes[c] == old(outboxes)[c]
        invariant forall c :: c in open && c !in pending ==> outboxes[c] == old(outboxes)[c] + [m]
        decreases pending
      {
        var c :| c in pending;
        outboxes := outboxes[c := outboxes[c] + [m]];
        pending := pending - {c};
      }
    }

    /** The `message` handler for an inbound message from `sender`. */
    method HandleMessage(sender: ClientId, msg: Inbound, hintId: string, now: Timestamp, storeFails: bool)
      requires Valid() && sender in open
      modifies this, store
      ensures Valid()
      ensures LiveState() == Dispatch(old(LiveState()), sender, msg, hintId, now, storeFails)
    {
      if msg.kind == JString("hint") {
        var text := msg.hintText;
        if !ValidHintText(text) {
          Send(sender, ErrorMsg(InvalidHintText));
          return;
        }
        Broadcast(HintMsg(text.s));
        if storeFails {
          Send(sender, ErrorMsg(HintSaveFailed));
        } else {
          store.CreateHint(Hint(hintId, text.s, now));
        }
      } else if msg.kind == JString("lock") || msg.kind == JString("unlock") {
        var tag, locking := msg.kind.s, msg.kind == JString("lock");
        var ok := false;
        if !storeFails && msg.teamName.JString? {
          ok := store.UpdateTeamLock(msg.teamName.s, locking);
        }
        if ok {
          var name := msg.teamName.s;
          Broadcast(TeamLockMsg(tag, name, "Team " + name + (if locking then " locked!" else " unlocked!")));
        } else {
          Send(sender, NoticeMsg("Failed to " + tag + " team " + Render(msg.teamName)));
        }
      } else if msg.kind == JString("lock_all") || msg.kind == JString("unlock_all") {
        var tag, locking := msg.kind.s, msg.kind == JString("lock_all");
        if storeFails {
          Send(sender, NoticeMsg("Failed to " + tag + " all teams"));
        } else {
          store.UpdateAllTeamLocks(locking);
          Broadcast(AllLockMsg(tag, "All teams " + (if locking then "locked!" else "unlocked!")));
        }
      }
    }
  }
}
