/** The quiz database as a value, and every request handler of the quiz server
    as a function from the database before the request to the handler's outcome
    and the database after it. Each handler is atomic: a request either takes
    effect as a whole or not at all. */
module QuizDb {
  import opened Answers

  type TeamName = string
  type QuestionId = string
  type ProgressId = string
  type Timestamp = int

  datatype Option<T> = None | Some(value: T)

  /** A member of a team, identified by an enrollment number. */
  datatype User = User(enrollNo: string, name: string)

  /** A team row: plaintext password, the lock flag, and its users. */
  datatype Team = Team(password: string, locked: bool, users: seq<User>)

  datatype Question = Question(text: string, description: string, answer: string)

  /** A progress row for one (team, question) pair. */
  datatype Progress = Progress(id: ProgressId, completed: bool, solvedAt: Option<Timestamp>)

  datatype Hint = Hint(id: string, text: string, createdAt: Timestamp)

  type Pair = (TeamName, QuestionId)

  /** The four tables: teams by name, questions by id, progress by
      (team, question), and the hints in the order they were saved. */
  datatype Db = Db(
    teams: map<TeamName, Team>,
    questions: map<QuestionId, Question>,
    progress: map<Pair, Progress>,
    hints: seq<Hint>)

  const Empty: Db := Db(map[], map[], map[], [])

  /** What a request handler answers, one constructor per distinct response. */
  datatype Outcome =
    | Correct(created: bool)   // right answer; `created` when a new progress row was made
    | Incorrect
    | AlreadyCompleted
    | TeamNotFound
    | QuestionNotFound
    | Registered
    | NameTaken
    | UserInAnotherTeam
    | QuestionAdded
    | QuestionRejected
    | LoggedIn(teamName: TeamName)
    | InvalidCredentials
    | Toggled(locked: bool)
    | LockState(teamName: TeamName, locked: bool)
    | Internal

  /** The outcomes a handler answers with a 2xx status. */
  predicate Succeeded(o: Outcome) {
    o.Correct? || o == Registered || o == QuestionAdded || o.LoggedIn? || o.Toggled? || o.LockState?
  }

  /** The HTTP status the handler sends with an outcome: 201 when a row was
      created, 200 for the other successes, 404 for a missing team or question,
      401 for a failed login, 500 for a write the store refused, 400 otherwise. */
  function Status(o: Outcome): (code: int)
    ensures 200 <= code < 300 <==> Succeeded(o)
    ensures code == 201 <==> o in {Correct(true), Registered, QuestionAdded}
    ensures code == 404 <==> o in {TeamNotFound, QuestionNotFound}
    ensures code == 401 <==> o == InvalidCredentials
    ensures code == 500 <==> o == Internal
    ensures code in {200, 201, 400, 401, 404, 500}
  {
    match o
    case Correct(created) => if created then 201 else 200
    case Incorrect => 400
    case AlreadyCompleted => 400
    case TeamNotFound => 404
    case QuestionNotFound => 404
    case Registered => 201
    case NameTaken => 400
    case UserInAnotherTeam => 400
    case QuestionAdded => 201
    case QuestionRejected => 400
    case LoggedIn(_) => 200
    case InvalidCredentials => 401
    case Toggled(_) => 200
    case LockState(_, _) => 200
    case Internal => 500
  }

  /** A handler's outcome together with the database it leaves behind. */
  datatype Handled = Handled(outcome: Outcome, db: Db)

  // ---------------------------------------------------------------- invariants

  /** Foreign keys: a progress row names an existing team and question. */
  ghost predicate ProgressRefsExist(db: Db) {
    forall p :: p in db.progress ==> p.0 in db.teams && p.1 in db.questions
  }

  /** `progress_id` is the primary key of the progress table. */
  ghost predicate ProgressIdsDistinct(progress: map<Pair, Progress>) {
    forall p, p' :: p in progress && p' in progress && p != p' ==> progress[p].id != progress[p'].id
  }

  /** No enrollment number belongs to two users, in one team or in two. */
  ghost predicate EnrollmentsDistinct(teams: map<TeamName, Team>) {
    forall a, b, i, j ::
      a in teams && b in teams && 0 <= i < |teams[a].users| && 0 <= j < |teams[b].users| && (a != b || i != j)
      ==> teams[a].users[i].enrollNo != teams[b].users[j].enrollNo
  }

  ghost predicate Valid(db: Db) {
    ProgressRefsExist(db) && ProgressIdsDistinct(db.progress) && EnrollmentsDistinct(db.teams)
  }

  predicate Completed(db: Db, team: TeamName, question: QuestionId) {
    (team, question) in db.progress && db.progress[(team, question)].completed
  }

  predicate ProgressIdInUse(progress: map<Pair, Progress>, id: ProgressId) {
    exists p :: p in progress && progress[p].id == id
  }

  predicate EnrolledIn(teams: map<TeamName, Team>, enrollNo: string) {
    exists a, i :: a in teams && 0 <= i < |teams[a].users| && teams[a].users[i].enrollNo == enrollNo
  }

  /** Creating a team with these users would break the unique enrollment
      number: one of them is enrolled already, or two of them share a number. */
  predicate RequestClashes(teams: map<TeamName, Team>, users: seq<User>) {
    || (exists i :: 0 <= i < |users| && EnrolledIn(teams, users[i].enrollNo))
    || (exists i, j :: 0 <= i < j < |users| && users[i].enrollNo == users[j].enrollNo)
  }

  /** The two databases differ at most in the teams' lock flags. */
  ghost predicate OnlyLocksDiffer(db: Db, db': Db) {
    && db'.teams.Keys == db.teams.Keys
    && (forall n :: n in db.teams ==> db'.teams[n] == db.teams[n].(locked := db'.teams[n].locked))
    && db'.questions == db.questions
    && db'.progress == db.progress
    && db'.hints == db.hints
  }

  lemma OnlyLocksDifferKeepsValid(db: Db, db': Db)
    requires Valid(db) && OnlyLocksDiffer(db, db')
    ensures Valid(db')
  {
    forall a | a in db.teams ensures db'.teams[a].users == db.teams[a].users {
      assert db'.teams[a] == db.teams[a].(locked := db'.teams[a].locked);
    }
  }

  // ---------------------------------------------------------------- submit-answer

  /** Writes one completed progress row for an existing team and question:
      either an incomplete row rewritten under its own id, or a new row under
      an id not yet in use. No other row changes. */
  function Record(db: Db, pair: Pair, row: Progress): (r: Db)
    requires Valid(db) && pair.0 in db.teams && pair.1 in db.questions && row.completed
    requires pair in db.progress ==> !db.progress[pair].completed && row.id == db.progress[pair].id
    requires pair !in db.progress ==> !ProgressIdInUse(db.progress, row.id)
    ensures Valid(r)
    ensures r.teams == db.teams && r.questions == db.questions && r.hints == db.hints
    ensures r.progress.Keys == db.progress.Keys + {pair} && r.progress[pair] == row
    ensures |r.progress| == |db.progress| + (if pair in db.progress then 0 else 1)
    ensures forall p :: p in db.progress && p != pair ==> r.progress[p] == db.progress[p]
    ensures forall p :: p in db.progress ==> r.progress[p].id == db.progress[p].id
  {
    WriteKeepsIdsDistinct(db.progress, pair, row);
    WriteKeepsOtherRows(db.progress, pair, row);
    db.(progress := db.progress[pair := row])
  }

  /** Writing one row adds at most its pair, and keeps every other row and
      every id. */
  lemma WriteKeepsOtherRows(progress: map<Pair, Progress>, pair: Pair, row: Progress)
    requires pair in progress ==> row.id == progress[pair].id
    ensures var after := progress[pair := row];
            && after.Keys == progress.Keys + {pair} && after[pair] == row
            && |after| == |progress| + (if pair in progress then 0 else 1)
            && (forall p :: p in progress && p != pair ==> after[p] == progress[p])
            && (forall p :: p in progress ==> after[p].id == progress[p].id)
  {
  }

  /** Writing a row under its pair's own id, or under an id not yet in use,
      keeps the progress ids distinct. */
  lemma WriteKeepsIdsDistinct(progress: map<Pair, Progress>, pair: Pair, row: Progress)
    requires ProgressIdsDistinct(progress)
    requires pair in progress ==> row.id == progress[pair].id
    requires pair !in progress ==> !ProgressIdInUse(progress, row.id)
    ensures ProgressIdsDistinct(progress[pair := row])
  {
    var after := progress[pair := row];
    forall p, p' | p in after && p' in after && p != p' ensures after[p].id != after[p'].id {
      if p != pair && p' != pair {
        assert after[p].id == progress[p].id && after[p'].id == progress[p'].id;
      }
    }
  }

  /** `/submit-answer`: look the team up; then, by the progress row of the pair,
      refuse a completed pair, complete an incomplete one on a right answer, or,
      with no row, look the question up and create a completed row on a right
      answer. A wrong answer is never recorded. */
  function Submit(db: Db, team: TeamName, question: QuestionId, answer: string,
                  freshId: ProgressId, now: Timestamp): (r: Handled)
    requires Valid(db)
    ensures Valid(r.db)
    ensures r.db.teams == db.teams && r.db.questions == db.questions && r.db.hints == db.hints
    ensures !r.outcome.Correct? ==> r.db == db
    ensures r.outcome == TeamNotFound <==> team !in db.teams
    ensures r.outcome == AlreadyCompleted <==> team in db.teams && Completed(db, team, question)
    ensures r.outcome == QuestionNotFound <==>
              team in db.teams && (team, question) !in db.progress && question !in db.questions
    ensures r.outcome == Incorrect <==>
              && team in db.teams && !Completed(db, team, question) && question in db.questions
              && !SameAnswer(db.questions[question].answer, answer)
    ensures r.outcome.Correct? <==>
              && team in db.teams && !Completed(db, team, question) && question in db.questions
              && SameAnswer(db.questions[question].answer, answer)
              && ((team, question) in db.progress || !ProgressIdInUse(db.progress, freshId))
    ensures r.outcome.Correct? ==>
              && r.outcome.created == ((team, question) !in db.progress)
              && Completed(r.db, team, question) && r.db.progress[(team, question)].solvedAt == Some(now)
              && r.db.progress.Keys == db.progress.Keys + {(team, question)}
              && forall p :: p in db.progress && p != (team, question) ==> r.db.progress[p] == db.progress[p]
    ensures r.outcome == Correct(true) ==> (team, question) in r.db.progress && r.db.progress[(team, question)].id == freshId
    ensures r.outcome in {TeamNotFound, AlreadyCompleted, QuestionNotFound, Incorrect, Correct(true), Correct(false), Internal}
    ensures |r.db.progress| == |db.progress| + (if r.outcome == Correct(true) then 1 else 0)
    ensures forall p :: p in db.progress ==> p in r.db.progress && r.db.progress[p].id == db.progress[p].id
    ensures forall p :: p in db.progress && db.progress[p].completed ==> r.db.progress[p] == db.progress[p]
  {
    var pair := (team, question);
    if team !in db.teams then Handled(TeamNotFound, db)
    else if pair in db.progress then
      var row := db.progress[pair];
      if row.completed then Handled(AlreadyCompleted, db)
      else if SameAnswer(db.questions[question].answer, answer) then
        Handled(Correct(false), Record(db, pair, row.(completed := true, solvedAt := Some(now))))
      else Handled(Incorrect, db)
    else if question !in db.questions then Handled(QuestionNotFound, db)
    else if SameAnswer(db.questions[question].answer, answer) then
      if ProgressIdInUse(db.progress, freshId) then Handled(Internal, db)
      else Handled(Correct(true), Record(db, pair, Progress(freshId, true, Some(now))))
    else Handled(Incorrect, db)
  }

  // ---------------------------------------------------------------- register-team, login-team, add-question

  /** `/register-team`: refuse a taken name; otherwise create the team,
      unlocked, with its users, unless that would enroll a user twice. */
  function Register(db: Db, name: TeamName, password: string, users: seq<User>): (r: Handled)
    requires Valid(db)
    ensures Valid(r.db)
    ensures r.outcome in {Registered, NameTaken, UserInAnotherTeam}
    ensures r.outcome == NameTaken <==> name in db.teams
    ensures r.outcome == UserInAnotherTeam <==> name !in db.teams && RequestClashes(db.teams, users)
    ensures r.outcome != Registered ==> r.db == db
    ensures r.outcome == Registered ==>
              && r.db.teams == db.teams[name := Team(password, false, users)]
              && r.db.questions == db.questions && r.db.progress == db.progress && r.db.hints == db.hints
  {
    if name in db.teams then Handled(NameTaken, db)
    else if RequestClashes(db.teams, users) then Handled(UserInAnotherTeam, db)
    else
      var teams' := db.teams[name := Team(password, false, users)];
      assert EnrollmentsDistinct(teams') by {
        forall a, b, i, j |
          a in teams' && b in teams' && 0 <= i < |teams'[a].users| && 0 <= j < |teams'[b].users| && (a != b || i != j)
          ensures teams'[a].users[i].enrollNo != teams'[b].users[j].enrollNo
        {
          if a == name && b != name {
            assert EnrolledIn(db.teams, teams'[b].users[j].enrollNo);
          } else if a != name && b == name {
            assert EnrolledIn(db.teams, teams'[a].users[i].enrollNo);
          } else if a == name && b == name {
            if i < j {
              assert users[i].enrollNo != users[j].enrollNo;
            } else {
              assert users[j].enrollNo != users[i].enrollNo;
            }
          }
        }
      }
      Handled(Registered, db.(teams := teams'))
  }

  /** `/login-team`: success only on an existing name whose stored password is
      exactly the one given; an unknown name and a wrong password get the same
      answer. Nothing is written. */
  function Login(db: Db, name: TeamName, password: string): (o: Outcome)
    ensures o == LoggedIn(name) <==> name in db.teams && db.teams[name].password == password
    ensures o != LoggedIn(name) ==> o == InvalidCredentials
  {
    if name !in db.teams then InvalidCredentials
    else if db.teams[name].password == password then LoggedIn(name)
    else InvalidCredentials
  }

  /** `/add-question`: store a question under a freshly generated id; an id
      already in use is refused by the primary key. */
  function AddQuestion(db: Db, id: QuestionId, question: Question): (r: Handled)
    requires Valid(db)
    ensures Valid(r.db)
    ensures r.outcome in {QuestionAdded, QuestionRejected}
    ensures r.outcome == QuestionRejected <==> id in db.questions
    ensures r.outcome == QuestionRejected ==> r.db == db
    ensures r.outcome == QuestionAdded ==>
              && r.db.questions == db.questions[id := question]
              && r.db.teams == db.teams && r.db.progress == db.progress && r.db.hints == db.hints
  {
    if id in db.questions then Handled(QuestionRejected, db)
    else Handled(QuestionAdded, db.(questions := db.questions[id := question]))
  }

  // ---------------------------------------------------------------- lock gate

  /** `/team-locked`: the lock flag of a named team. Nothing is written. */
  function TeamLocked(db: Db, name: TeamName): (o: Outcome)
    ensures o.LockState? <==> name in db.teams
    ensures o.LockState? ==> o.teamName == name && o.locked == db.teams[name].locked
    ensures !o.LockState? ==> o == TeamNotFound
  {
    if name in db.teams then LockState(name, db.teams[name].locked) else TeamNotFound
  }

  /** The single-team update `team.update({locked})`: sets one existing
      team's flag and changes nothing else. */
  function SetLock(db: Db, name: TeamName, locked: bool): (r: Db)
    requires name in db.teams
    ensures OnlyLocksDiffer(db, r)
    ensures r.teams[name].locked == locked
    ensures forall n :: n in db.teams && n != name ==> r.teams[n] == db.teams[n]
  {
    db.(teams := db.teams[name := db.teams[name].(locked := locked)])
  }

  /** `/toggle-team-lock`: flip one team's flag and report the new value. */
  function ToggleLock(db: Db, name: TeamName): (r: Handled)
    ensures name !in db.teams ==> r == Handled(TeamNotFound, db)
    ensures OnlyLocksDiffer(db, r.db)
    ensures name in db.teams ==>
              && r.outcome == Toggled(!db.teams[name].locked)
              && r.db.teams[name].locked == !db.teams[name].locked
    ensures forall n :: n in db.teams && n != name ==> r.db.teams[n] == db.teams[n]
  {
    if name !in db.teams then Handled(TeamNotFound, db)
    else
      var locked := !db.teams[name].locked;
      Handled(Toggled(locked), SetLock(db, name, locked))
  }

  /** `team.updateMany({locked})`, behind `/lock-all-teams`, `/unlock-all-teams`
      and the live `lock_all` / `unlock_all` messages: every team gets the same
      flag, and nothing but the flags changes. */
  function SetAllLocks(db: Db, locked: bool): (r: Db)
    ensures OnlyLocksDiffer(db, r)
    ensures forall n :: n in r.teams ==> r.teams[n].locked == locked
  {
    db.(teams := map n | n in db.teams :: db.teams[n].(locked := locked))
  }

  // ---------------------------------------------------------------- hints

  /** `hint.create`: hints are only ever appended. */
  function SaveHint(db: Db, hint: Hint): (r: Db)
    ensures |r.hints| == |db.hints| + 1 && r.hints[..|db.hints|] == db.hints && r.hints[|db.hints|] == hint
    ensures r.teams == db.teams && r.questions == db.questions && r.progress == db.progress
  {
    db.(hints := db.hints + [hint])
  }

  // ---------------------------------------------------------------- properties across requests

  /** The status `/submit-answer` answers with, by the state of the database:
      201 when a new completed row is made, 200 when an existing row is
      completed, 404 for a missing team or question, 400 for a completed pair
      or a wrong answer, and 500 when the new row's id is already taken. */
  lemma SubmitStatus(db: Db, team: TeamName, question: QuestionId, answer: string, freshId: ProgressId, now: Timestamp)
    requires Valid(db)
    ensures var code, pair := Status(Submit(db, team, question, answer, freshId, now).outcome), (team, question);
            && (code == 201 <==>
                  && team in db.teams && pair !in db.progress && question in db.questions
                  && SameAnswer(db.questions[question].answer, answer) && !ProgressIdInUse(db.progress, freshId))
            && (code == 200 <==>
                  && team in db.teams && pair in db.progress && question in db.questions && !db.progress[pair].completed
                  && SameAnswer(db.questions[question].answer, answer))
            && (code == 404 <==> team !in db.teams || (pair !in db.progress && question !in db.questions))
            && (code == 400 <==>
                  team in db.teams && (Completed(db, team, question)
                                       || (question in db.questions && !SameAnswer(db.questions[question].answer, answer))))
            && (code == 500 <==>
                  && team in db.teams && pair !in db.progress && question in db.questions
                  && SameAnswer(db.questions[question].answer, answer) && ProgressIdInUse(db.progress, freshId))
  {
  }

  /** The statuses of the login and lock handlers: 200 on success, 401 for a
      failed login, 404 for an unknown team. */
  lemma LoginAndLockStatus(db: Db, name: TeamName, password: string)
    requires Valid(db)
    ensures Status(Login(db, name, password)) == (if name in db.teams && db.teams[name].password == password then 200 else 401)
    ensures Status(ToggleLock(db, name).outcome) == (if name in db.teams then 200 else 404)
    ensures Status(TeamLocked(db, name)) == (if name in db.teams then 200 else 404)
  {
  }

  /** After a right answer, any later submission for the same pair, right or
      wrong, is refused as already completed and changes nothing; so two
      submissions can never complete the same pair twice. */
  lemma SecondSubmissionRefused(db: Db, team: TeamName, question: QuestionId, first: string, second: string,
                                id1: ProgressId, id2: ProgressId, t1: Timestamp, t2: Timestamp)
    requires Valid(db)
    requires Submit(db, team, question, first, id1, t1).outcome.Correct?
    ensures var db1 := Submit(db, team, question, first, id1, t1).db;
            Submit(db1, team, question, second, id2, t2) == Handled(AlreadyCompleted, db1)
  {
  }

  /** A wrong answer leaves nothing behind, so the team may keep guessing and
      a later right answer still completes the pair. */
  lemma GuessingIsFree(db: Db, team: TeamName, question: QuestionId, wrong: string, right: string,
                       id1: ProgressId, id2: ProgressId, t1: Timestamp, t2: Timestamp)
    requires Valid(db)
    requires Submit(db, team, question, wrong, id1, t1).outcome == Incorrect
    requires SameAnswer(db.questions[question].answer, right)
    requires !ProgressIdInUse(db.progress, id2)
    ensures Submit(db, team, question, wrong, id1, t1).db == db
    ensures Submit(Submit(db, team, question, wrong, id1, t1).db, team, question, right, id2, t2).outcome.Correct?
  {
  }

  /** Toggling a team twice gives back the database it started from. */
  lemma ToggleTwice(db: Db, name: TeamName)
    ensures ToggleLock(ToggleLock(db, name).db, name).db == db
  {
    var db2 := ToggleLock(ToggleLock(db, name).db, name).db;
    if name in db.teams {
      assert db2.teams[name] == db.teams[name];
      assert db2.teams == db.teams;
    }
  }

  /** The read handler reports exactly what toggle and the bulk update wrote. */
  lemma TeamLockedAfterWrites(db: Db, name: TeamName, locked: bool)
    requires name in db.teams
    ensures TeamLocked(ToggleLock(db, name).db, name) == LockState(name, !db.teams[name].locked)
    ensures TeamLocked(SetAllLocks(db, locked), name) == LockState(name, locked)
    ensures TeamLocked(SetLock(db, name, locked), name) == LockState(name, locked)
  {
  }

  /** The lock flag is advisory: no lock write changes what a submission answers. */
  lemma LockDoesNotGateSubmit(db: Db, locked: bool, team: TeamName, question: QuestionId, answer: string,
                              id: ProgressId, now: Timestamp)
    requires Valid(db)
    ensures Valid(SetAllLocks(db, locked))
    ensures Submit(SetAllLocks(db, locked), team, question, answer, id, now).outcome
         == Submit(db, team, question, answer, id, now).outcome
  {
    OnlyLocksDifferKeepsValid(db, SetAllLocks(db, locked));
  }

  /** A team just registered can log in with its password and with no other,
      starts unlocked, and cannot be registered again. */
  lemma RegisteredTeamCanLogIn(db: Db, name: TeamName, password: string, users: seq<User>,
                               other: string, password2: string, users2: seq<User>)
    requires Valid(db)
    requires Register(db, name, password, users).outcome == Registered
    ensures var db1 := Register(db, name, password, users).db;
            && Login(db1, name, password) == LoggedIn(name)
            && (other != password ==> Login(db1, name, other) == InvalidCredentials)
            && TeamLocked(db1, name) == LockState(name, false)
            && Register(db1, name, password2, users2) == Handled(NameTaken, db1)
  {
  }
}
