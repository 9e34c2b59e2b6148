/** The live channel as a value: the open clients, what each client has been
    sent, and how one inbound message changes those and the database. A
    success is sent to every open client; a failure only to the sender. */
module LiveSpec {
  import opened HintText
  import opened QuizDb

  type ClientId = nat

  /** A parsed inbound message: its `type` tag and the two fields the handlers read. */
  datatype Inbound = Inbound(kind: JsonValue, hintText: JsonValue, teamName: JsonValue)

  /** The outbound JSON objects. */
  datatype OutMsg =
    | HintMsg(hint: string)                                         // {type: 'hint', hint}
    | TeamLockMsg(kind: string, teamName: string, message: string)  // {type, team_name, message}
    | AllLockMsg(kind: string, message: string)                     // {type, message}
    | ErrorMsg(error: string)                                       // {error}
    | NoticeMsg(message: string)                                    // {message}

  /** The connected clients that are open, and everything sent to each client. */
  datatype Wire = Wire(open: set<ClientId>, outboxes: map<ClientId, seq<OutMsg>>)

  predicate WireValid(w: Wire) {
    w.open <= w.outboxes.Keys
  }

  datatype Live = Live(db: Db, wire: Wire)

  const InvalidHintText: string := "Invalid hintText provided"
  const HintSaveFailed: string := "Failed to save hint"

  /** `wss.clients.forEach(...)`: every open client is sent `m` once; nobody
      else is sent anything. */
  function SendToAll(outboxes: map<ClientId, seq<OutMsg>>, open: set<ClientId>, m: OutMsg): (r: map<ClientId, seq<OutMsg>>)
    requires open <= outboxes.Keys
    ensures r.Keys == outboxes.Keys
    ensures forall c :: c in open ==> r[c] == outboxes[c] + [m]
    ensures forall c :: c in outboxes && c !in open ==> r[c] == outboxes[c]
  {
    map c | c in outboxes :: if c in open then outboxes[c] + [m] else outboxes[c]
  }

  /** `ws.send(...)`: the sender alone is sent `m`. */
  function SendTo(outboxes: map<ClientId, seq<OutMsg>>, c: ClientId, m: OutMsg): (r: map<ClientId, seq<OutMsg>>)
    requires c in outboxes
    ensures r.Keys == outboxes.Keys
    ensures r[c] == outboxes[c] + [m]
    ensures forall d :: d in outboxes && d != c ==> r[d] == outboxes[d]
  {
    outboxes[c := outboxes[c] + [m]]
  }

  /** The `hint` message: an invalid text is answered to the sender only and
      nothing is stored; a valid one is sent to every open client, the sender
      included, and then stored once, untrimmed. A failed store is reported to
      the sender and does not take back what was sent. */
  function OnHint(s: Live, sender: ClientId, text: JsonValue, hintId: string, now: Timestamp, storeFails: bool): (r: Live)
    requires WireValid(s.wire) && sender in s.wire.open
    ensures r.wire.open == s.wire.open && r.wire.outboxes.Keys == s.wire.outboxes.Keys
    ensures !ValidHintText(text) ==>
              r.db == s.db && r.wire.outboxes == SendTo(s.wire.outboxes, sender, ErrorMsg(InvalidHintText))
    ensures ValidHintText(text) ==>
              && (forall c :: c in s.wire.open && c != sender ==> r.wire.outboxes[c] == s.wire.outboxes[c] + [HintMsg(text.s)])
              && r.wire.outboxes[sender] == s.wire.outboxes[sender] + [HintMsg(text.s)]
                                            + (if storeFails then [ErrorMsg(HintSaveFailed)] else [])
              && r.db == (if storeFails then s.db else SaveHint(s.db, Hint(hintId, text.s, now)))
    ensures forall c :: c in s.wire.outboxes && c !in s.wire.open ==> r.wire.outboxes[c] == s.wire.outboxes[c]
  {
    if !ValidHintText(text) then
      Live(s.db, s.wire.(outboxes := SendTo(s.wire.outboxes, sender, ErrorMsg(InvalidHintText))))
    else
      var sent := SendToAll(s.wire.outboxes, s.wire.open, HintMsg(text.s));
      if storeFails then Live(s.db, s.wire.(outboxes := SendTo(sent, sender, ErrorMsg(HintSaveFailed))))
      else Live(SaveHint(s.db, Hint(hintId, text.s, now)), s.wire.(outboxes := sent))
  }

  /** The `lock` / `unlock` message: the update succeeds only on the name of an
      existing team and when the store does not fail; then every open client
      hears of it, otherwise only the sender hears of the failure. */
  function OnLock(s: Live, sender: ClientId, tag: string, locking: bool, teamName: JsonValue, storeFails: bool): (r: Live)
    requires WireValid(s.wire) && sender in s.wire.open
    ensures r.wire.open == s.wire.open
    ensures var ok := !storeFails && teamName.JString? && teamName.s in s.db.teams;
            && (ok ==> && r.db == SetLock(s.db, teamName.s, locking)
                       && r.wire.outboxes == SendToAll(s.wire.outboxes, s.wire.open,
                            TeamLockMsg(tag, teamName.s, "Team " + teamName.s + (if locking then " locked!" else " unlocked!"))))
            && (!ok ==> && r.db == s.db
                        && r.wire.outboxes == SendTo(s.wire.outboxes, sender,
                             NoticeMsg("Failed to " + tag + " team " + Render(teamName))))
  {
    if !storeFails && teamName.JString? && teamName.s in s.db.teams then
      var name := teamName.s;
      var note := "Team " + name + (if locking then " locked!" else " unlocked!");
      Live(SetLock(s.db, name, locking),
           s.wire.(outboxes := SendToAll(s.wire.outboxes, s.wire.open, TeamLockMsg(tag, name, note))))
    else
      Live(s.db, s.wire.(outboxes := SendTo(s.wire.outboxes, sender, NoticeMsg("Failed to " + tag + " team " + Render(teamName)))))
  }

  /** The `lock_all` / `unlock_all` message: the bulk update, announced to every
      open client; a failed update is reported to the sender only. */
  function OnLockAll(s: Live, sender: ClientId, tag: string, locking: bool, storeFails: bool): (r: Live)
    requires WireValid(s.wire) && sender in s.wire.open
    ensures r.wire.open == s.wire.open
    ensures !storeFails ==>
              && r.db == SetAllLocks(s.db, locking)
              && r.wire.outboxes == SendToAll(s.wire.outboxes, s.wire.open,
                   AllLockMsg(tag, "All teams " + (if locking then "locked!" else "unlocked!")))
    ensures storeFails ==>
              r.db == s.db && r.wire.outboxes == SendTo(s.wire.outboxes, sender, NoticeMsg("Failed to " + tag + " all teams"))
  {
    if !storeFails then
      Live(SetAllLocks(s.db, locking),
           s.wire.(outboxes := SendToAll(s.wire.outboxes, s.wire.open,
                                         AllLockMsg(tag, "All teams " + (if locking then "locked!" else "unlocked!")))))
    else
      Live(s.db, s.wire.(outboxes := SendTo(s.wire.outboxes, sender, NoticeMsg("Failed to " + tag + " all teams"))))
  }

  predicate IsKnownTag(kind: JsonValue) {
    kind in {JString("hint"), JString("lock"), JString("unlock"), JString("lock_all"), JString("unlock_all")}
  }

  /** The `message` handler: route on the `type` tag; any other tag, or a tag
      that is not a string, has no effect at all. Whatever the message, the
      database stays valid and the set of open clients is unchanged. */
  function Dispatch(s: Live, sender: ClientId, msg: Inbound, hintId: string, now: Timestamp, storeFails: bool): (r: Live)
    requires Valid(s.db) && WireValid(s.wire) && sender in s.wire.open
    ensures Valid(r.db) && WireValid(r.wire)
    ensures r.wire.open == s.wire.open && r.wire.outboxes.Keys == s.wire.outboxes.Keys
    ensures !IsKnownTag(msg.kind) ==> r == s
  {
    if msg.kind == JString("hint") then
      OnHint(s, sender, msg.hintText, hintId, now, storeFails)
    else if msg.kind == JString("lock") || msg.kind == JString("unlock") then
      var r := OnLock(s, sender, msg.kind.s, msg.kind == JString("lock"), msg.teamName, storeFails);
      assert Valid(r.db) by {
        if r.db != s.db { OnlyLocksDifferKeepsValid(s.db, r.db); }
      }
      r
    else if msg.kind == JString("lock_all") || msg.kind == JString("unlock_all") then
      var r := OnLockAll(s, sender, msg.kind.s, msg.kind == JString("lock_all"), storeFails);
      assert Valid(r.db) by {
        if r.db != s.db { OnlyLocksDifferKeepsValid(s.db, r.db); }
      }
      r
    else s
  }

  /** `after` is `before` with messages appended. */
  predicate Extends(before: seq<OutMsg>, after: seq<OutMsg>) {
    |before| <= |after| && after[..|before|] == before
  }

  /** One handler's effect on a client's outbox: messages appended, and
      nothing at all for a client that is not open. */
  ghost predicate AppendsOnly(s: Live, r: Live, c: ClientId)
    requires c in s.wire.outboxes && c in r.wire.outboxes
  {
    Extends(s.wire.outboxes[c], r.wire.outboxes[c])
    && (c !in s.wire.open ==> r.wire.outboxes[c] == s.wire.outboxes[c])
  }

  lemma OnHintAppendsOnly(s: Live, sender: ClientId, text: JsonValue, hintId: string, now: Timestamp, storeFails: bool, c: ClientId)
    requires WireValid(s.wire) && sender in s.wire.open && c in s.wire.outboxes
    ensures var r := OnHint(s, sender, text, hintId, now, storeFails);
            c in r.wire.outboxes && AppendsOnly(s, r, c)
  {
    if ValidHintText(text) {
      ValidHintAppendsOnly(s, sender, text, hintId, now, storeFails, c);
    } else {
      var r := OnHint(s, sender, text, hintId, now, storeFails);
      var before, after := s.wire.outboxes[c], r.wire.outboxes[c];
      assert after == before || after == before + [ErrorMsg(InvalidHintText)];
    }
  }

  lemma ValidHintAppendsOnly(s: Live, sender: ClientId, text: JsonValue, hintId: string, now: Timestamp, storeFails: bool, c: ClientId)
    requires WireValid(s.wire) && sender in s.wire.open && c in s.wire.outboxes
    requires ValidHintText(text)
    ensures var r := OnHint(s, sender, text, hintId, now, storeFails);
            c in r.wire.outboxes && AppendsOnly(s, r, c)
  {
    var r := OnHint(s, sender, text, hintId, now, storeFails);
    var sent := SendToAll(s.wire.outboxes, s.wire.open, HintMsg(text.s));
    var before, mid := s.wire.outboxes[c], sent[c];
    assert Extends(before, mid) by {
      assert mid == before || mid == before + [HintMsg(text.s)];
    }
    if storeFails {
      assert r.wire.outboxes == SendTo(sent, sender, ErrorMsg(HintSaveFailed));
      var after := r.wire.outboxes[c];
      assert after == mid || after == mid + [ErrorMsg(HintSaveFailed)];
      assert after[..|before|] == mid[..|before|];
    } else {
      assert r.wire.outboxes == sent;
    }
  }

  lemma OnLockAppendsOnly(s: Live, sender: ClientId, tag: string, locking: bool, teamName: JsonValue, storeFails: bool, c: ClientId)
    requires WireValid(s.wire) && sender in s.wire.open && c in s.wire.outboxes
    ensures var r := OnLock(s, sender, tag, locking, teamName, storeFails);
            c in r.wire.outboxes && AppendsOnly(s, r, c)
  {
    var r := OnLock(s, sender, tag, locking, teamName, storeFails);
    var before, after := s.wire.outboxes[c], r.wire.outboxes[c];
    if !storeFails && teamName.JString? && teamName.s in s.db.teams {
      var name := teamName.s;
      var m := TeamLockMsg(tag, name, "Team " + name + (if locking then " locked!" else " unlocked!"));
      assert r.wire.outboxes == SendToAll(s.wire.outboxes, s.wire.open, m);
      assert after == if c in s.wire.open then before + [m] else before;
    } else {
      var m := NoticeMsg("Failed to " + tag + " team " + Render(teamName));
      assert r.wire.outboxes == SendTo(s.wire.outboxes, sender, m);
      assert after == if c == sender then before + [m] else before;
    }
  }

  lemma OnLockAllAppendsOnly(s: Live, sender: ClientId, tag: string, locking: bool, storeFails: bool, c: ClientId)
    requires WireValid(s.wire) && sender in s.wire.open && c in s.wire.outboxes
    ensures var r := OnLockAll(s, sender, tag, locking, storeFails);
            c in r.wire.outboxes && AppendsOnly(s, r, c)
  {
    var r := OnLockAll(s, sender, tag, locking, storeFails);
    var before, after := s.wire.outboxes[c], r.wire.outboxes[c];
    if !storeFails {
      var m := AllLockMsg(tag, "All teams " + (if locking then "locked!" else "unlocked!"));
      assert after == if c in s.wire.open then before + [m] else before;
    } else {
      var m := NoticeMsg("Failed to " + tag + " all teams");
      assert after == if c == sender then before + [m] else before;
    }
  }

  /** Messages are only ever appended to an outbox, and a client that is not
      open is sent nothing. */
  lemma DispatchOnlyAppends(s: Live, sender: ClientId, msg: Inbound, hintId: string, now: Timestamp, storeFails: bool, c: ClientId)
    requires Valid(s.db) && WireValid(s.wire) && sender in s.wire.open
    requires c in s.wire.outboxes
    ensures var r := Dispatch(s, sender, msg, hintId, now, storeFails);
            && Extends(s.wire.outboxes[c], r.wire.outboxes[c])
            && (c !in s.wire.open ==> r.wire.outboxes[c] == s.wire.outboxes[c])
  {
    var r := Dispatch(s, sender, msg, hintId, now, storeFails);
    if msg.kind == JString("hint") {
      assert r == OnHint(s, sender, msg.hintText, hintId, now, storeFails);
      OnHintAppendsOnly(s, sender, msg.hintText, hintId, now, storeFails, c);
    } else if msg.kind == JString("lock") || msg.kind == JString("unlock") {
      assert r == OnLock(s, sender, msg.kind.s, msg.kind == JString("lock"), msg.teamName, storeFails);
      OnLockAppendsOnly(s, sender, msg.kind.s, msg.kind == JString("lock"), msg.teamName, storeFails, c);
    } else if msg.kind == JString("lock_all") || msg.kind == JString("unlock_all") {
      assert r == OnLockAll(s, sender, msg.kind.s, msg.kind == JString("lock_all"), storeFails);
      OnLockAllAppendsOnly(s, sender, msg.kind.s, msg.kind == JString("lock_all"), storeFails, c);
    } else {
      assert r.wire.outboxes[c][..|s.wire.outboxes[c]|] == s.wire.outboxes[c];
    }
  }

  // ---------------------------------------------------------------- properties of the channel

  /** A failure is never broadcast: when a lock message does not change the
      database, no client but the sender is sent anything, and the sender is
      sent one notice. */
  lemma LockFailureStaysPrivate(s: Live, sender: ClientId, msg: Inbound, hintId: string, now: Timestamp, storeFails: bool)
    requires Valid(s.db) && WireValid(s.wire) && sender in s.wire.open
    requires msg.kind in {JString("lock"), JString("unlock"), JString("lock_all"), JString("unlock_all")}
    requires storeFails || (msg.kind in {JString("lock"), JString("unlock")} && !(msg.teamName.JString? && msg.teamName.s in s.db.teams))
    ensures var r := Dispatch(s, sender, msg, hintId, now, storeFails);
            && r.db == s.db
            && (forall c :: c in s.wire.outboxes && c != sender ==> r.wire.outboxes[c] == s.wire.outboxes[c])
            && |r.wire.outboxes[sender]| == |s.wire.outboxes[sender]| + 1
            && r.wire.outboxes[sender][|s.wire.outboxes[sender]|].NoticeMsg?
  {
  }

  /** A valid hint reaches every open client, the sender included, exactly
      once, and is stored exactly once at the end of the hint list. */
  lemma ValidHintReachesEveryone(s: Live, sender: ClientId, text: string, other: JsonValue, hintId: string, now: Timestamp)
    requires Valid(s.db) && WireValid(s.wire) && sender in s.wire.open
    requires ValidHintText(JString(text))
    ensures var r := Dispatch(s, sender, Inbound(JString("hint"), JString(text), other), hintId, now, false);
            && (forall c :: c in s.wire.open ==> r.wire.outboxes[c] == s.wire.outboxes[c] + [HintMsg(text)])
            && r.db.hints == s.db.hints + [Hint(hintId, text, now)]
            && r.db.teams == s.db.teams && r.db.progress == s.db.progress && r.db.questions == s.db.questions
  {
    var r := Dispatch(s, sender, Inbound(JString("hint"), JString(text), other), hintId, now, false);
    assert r.db.hints == s.db.hints + [Hint(hintId, text, now)];
  }

  /** An invalid hint is answered to the sender alone and stores nothing. */
  lemma InvalidHintStaysPrivate(s: Live, sender: ClientId, text: JsonValue, other: JsonValue, hintId: string,
                                now: Timestamp, storeFails: bool)
    requires Valid(s.db) && WireValid(s.wire) && sender in s.wire.open
    requires !ValidHintText(text)
    ensures var r := Dispatch(s, sender, Inbound(JString("hint"), text, other), hintId, now, storeFails);
            && r.db == s.db
            && (forall c :: c in s.wire.outboxes && c != sender ==> r.wire.outboxes[c] == s.wire.outboxes[c])
            && r.wire.outboxes[sender] == s.wire.outboxes[sender] + [ErrorMsg(InvalidHintText)]
  {
  }

  /** After a successful live lock or unlock, the read handler reports the
      flag the message asked for. */
  lemma LiveLockReadBack(s: Live, sender: ClientId, locking: bool, name: TeamName, other: JsonValue,
                         hintId: string, now: Timestamp)
    requires Valid(s.db) && WireValid(s.wire) && sender in s.wire.open
    requires name in s.db.teams
    ensures var tag := if locking then "lock" else "unlock";
            var r := Dispatch(s, sender, Inbound(JString(tag), other, JString(name)), hintId, now, false);
            TeamLocked(r.db, name) == LockState(name, locking)
  {
  }
}
