/** Properties that hold across any sequence of state-changing requests, each
    handled atomically and one after another. */
module QuizTrace {
  import opened Answers
  import opened QuizDb
  import opened HintText
  import opened LiveSpec

  /** Every request or live message that writes to the database. */
  datatype Op =
    | SubmitOp(team: TeamName, question: QuestionId, answer: string, freshId: ProgressId, now: Timestamp)
    | RegisterOp(name: TeamName, password: string, users: seq<User>)
    | AddQuestionOp(id: QuestionId, created: Question)
    | ToggleOp(name: TeamName)
    | SetLockOp(name: TeamName, locked: bool)
    | SetAllLocksOp(locked: bool)
    | SaveHintOp(hint: Hint)

  /** The database after one request; a single-team lock on an unknown team
      fails and writes nothing. */
  function Step(db: Db, op: Op): (r: Db)
    requires Valid(db)
    ensures Valid(r)
  {
    match op
    case SubmitOp(t, q, a, id, now) => Submit(db, t, q, a, id, now).db
    case RegisterOp(n, p, us) => Register(db, n, p, us).db
    case AddQuestionOp(id, question) => AddQuestion(db, id, question).db
    case ToggleOp(n) =>
      OnlyLocksDifferKeepsValid(db, ToggleLock(db, n).db);
      ToggleLock(db, n).db
    case SetLockOp(n, locked) =>
      if n in db.teams then
        OnlyLocksDifferKeepsValid(db, SetLock(db, n, locked));
        SetLock(db, n, locked)
      else db
    case SetAllLocksOp(locked) =>
      OnlyLocksDifferKeepsValid(db, SetAllLocks(db, locked));
      SetAllLocks(db, locked)
    case SaveHintOp(h) => SaveHint(db, h)
  }

  /** The database after a sequence of requests, handled in order. */
  function Run(db: Db, ops: seq<Op>): (r: Db)
    requires Valid(db)
    ensures Valid(r)
    decreases |ops|
  {
    if ops == [] then db else Run(Step(db, ops[0]), ops[1..])
  }

  /** What no request ever undoes: teams stay, with their passwords and users;
      questions stay unchanged; progress rows stay, with their ids, and a
      completed row never changes again; saved hints stay, in order. */
  ghost predicate Evolves(db: Db, db': Db) {
    && (forall n :: n in db.teams ==>
          n in db'.teams && db'.teams[n].password == db.teams[n].password && db'.teams[n].users == db.teams[n].users)
    && (forall q :: q in db.questions ==> q in db'.questions && db'.questions[q] == db.questions[q])
    && (forall p :: p in db.progress ==> p in db'.progress && db'.progress[p].id == db.progress[p].id)
    && (forall p :: p in db.progress && db.progress[p].completed ==> db'.progress[p] == db.progress[p])
    && |db.hints| <= |db'.hints| && db'.hints[..|db.hints|] == db.hints
  }

  lemma EvolvesTransitive(a: Db, b: Db, c: Db)
    requires Evolves(a, b) && Evolves(b, c)
    ensures Evolves(a, c)
  {
    assert c.hints[..|a.hints|] == c.hints[..|b.hints|][..|a.hints|];
  }

  /** Rewriting lock flags alone undoes nothing. */
  lemma LockWritesEvolve(db: Db, db': Db)
    requires OnlyLocksDiffer(db, db')
    ensures Evolves(db, db')
  {
    forall n | n in db.teams ensures db'.teams[n].password == db.teams[n].password && db'.teams[n].users == db.teams[n].users {
      assert db'.teams[n] == db.teams[n].(locked := db'.teams[n].locked);
    }
    assert db'.hints[..|db.hints|] == db.hints;
  }

  /** Each single request evolves the database. */
  lemma StepEvolves(db: Db, op: Op)
    requires Valid(db)
    ensures Evolves(db, Step(db, op))
  {
    match op
    case SubmitOp(t, q, a, id, now) =>
    case RegisterOp(n, p, us) =>
    case AddQuestionOp(id, question) =>
    case ToggleOp(n) =>
      LockWritesEvolve(db, ToggleLock(db, n).db);
    case SetLockOp(n, locked) =>
      if n in db.teams {
        LockWritesEvolve(db, SetLock(db, n, locked));
      }
    case SetAllLocksOp(locked) =>
      LockWritesEvolve(db, SetAllLocks(db, locked));
    case SaveHintOp(h) =>
  }

  /** Any sequence of requests evolves the database. */
  lemma {:induction false} RunEvolves(db: Db, ops: seq<Op>)
    requires Valid(db)
    ensures Evolves(db, Run(db, ops))
    decreases |ops|
  {
    if ops == [] {
      assert db.hints[..|db.hints|] == db.hints;
    } else {
      var db1 := Step(db, ops[0]);
      StepEvolves(db, ops[0]);
      RunEvolves(db1, ops[1..]);
      EvolvesTransitive(db, db1, Run(db1, ops[1..]));
    }
  }

  /** Completion is terminal: once a pair is completed, no sequence of
      requests makes it incomplete again or replaces its row. */
  lemma CompletionIsTerminal(db: Db, ops: seq<Op>, team: TeamName, question: QuestionId)
    requires Valid(db)
    requires Completed(db, team, question)
    ensures Completed(Run(db, ops), team, question)
    ensures Run(db, ops).progress[(team, question)] == db.progress[(team, question)]
  {
    RunEvolves(db, ops);
  }

  /** Once completed, every later submission for the pair is refused, whatever
      else happened in between. */
  lemma CompletedPairRefusesSubmissions(db: Db, ops: seq<Op>, team: TeamName, question: QuestionId,
                                        answer: string, id: ProgressId, now: Timestamp)
    requires Valid(db)
    requires Completed(db, team, question)
    ensures Submit(Run(db, ops), team, question, answer, id, now).outcome == AlreadyCompleted
  {
    CompletionIsTerminal(db, ops, team, question);
    RunEvolves(db, ops);
  }

  /** The hint list is append-only. */
  lemma HintsAppendOnly(db: Db, ops: seq<Op>)
    requires Valid(db)
    ensures |db.hints| <= |Run(db, ops).hints|
    ensures Run(db, ops).hints[..|db.hints|] == db.hints
  {
    RunEvolves(db, ops);
  }

  /** The request a live message writes to the database, if it writes at all. */
  function DispatchWrite(db: Db, msg: Inbound, hintId: string, now: Timestamp, storeFails: bool): Option<Op> {
    if storeFails then None
    else if msg.kind == JString("hint") then
      if ValidHintText(msg.hintText) then Some(SaveHintOp(Hint(hintId, msg.hintText.s, now))) else None
    else if msg.kind == JString("lock") || msg.kind == JString("unlock") then
      if msg.teamName.JString? && msg.teamName.s in db.teams
      then Some(SetLockOp(msg.teamName.s, msg.kind == JString("lock"))) else None
    else if msg.kind == JString("lock_all") || msg.kind == JString("unlock_all") then
      Some(SetAllLocksOp(msg.kind == JString("lock_all")))
    else None
  }

  lemma StepSavesHint(db: Db, h: Hint)
    requires Valid(db)
    ensures Step(db, SaveHintOp(h)) == SaveHint(db, h)
  {
  }

  /** A live message writes to the database at most one of the requests
      above, so every property proved of request sequences also covers
      live messages. */
  lemma DispatchIsStep(s: Live, sender: ClientId, msg: Inbound, hintId: string, now: Timestamp, storeFails: bool)
    requires Valid(s.db) && WireValid(s.wire) && sender in s.wire.open
    ensures var r := Dispatch(s, sender, msg, hintId, now, storeFails);
            match DispatchWrite(s.db, msg, hintId, now, storeFails)
            case None => r.db == s.db
            case Some(op) => r.db == Step(s.db, op)
  {
    var r := Dispatch(s, sender, msg, hintId, now, storeFails);
    if msg.kind == JString("hint") {
      assert r == OnHint(s, sender, msg.hintText, hintId, now, storeFails);
      if ValidHintText(msg.hintText) && !storeFails {
        var h := Hint(hintId, msg.hintText.s, now);
        assert r.db == SaveHint(s.db, h);
        StepSavesHint(s.db, h);
      }
    } else if msg.kind == JString("lock") || msg.kind == JString("unlock") {
      assert r == OnLock(s, sender, msg.kind.s, msg.kind == JString("lock"), msg.teamName, storeFails);
    } else if msg.kind == JString("lock_all") || msg.kind == JString("unlock_all") {
      assert r == OnLockAll(s, sender, msg.kind.s, msg.kind == JString("lock_all"), storeFails);
    }
  }

  /** No live message undoes anything: it evolves the database. */
  lemma DispatchEvolves(s: Live, sender: ClientId, msg: Inbound, hintId: string, now: Timestamp, storeFails: bool)
    requires Valid(s.db) && WireValid(s.wire) && sender in s.wire.open
    ensures Evolves(s.db, Dispatch(s, sender, msg, hintId, now, storeFails).db)
  {
    DispatchIsStep(s, sender, msg, hintId, now, storeFails);
    match DispatchWrite(s.db, msg, hintId, now, storeFails)
    case None =>
      assert s.db.hints[..|s.db.hints|] == s.db.hints;
    case Some(op) =>
      StepEvolves(s.db, op);
  }
}
