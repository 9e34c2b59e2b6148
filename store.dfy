/** The server's database connection as an object whose tables the request
    handlers read and rewrite in place. Each handler method is proved to leave
    exactly the state, and give exactly the outcome, that the matching function
    of QuizDb describes. */
module Store {
  import opened Answers
  import opened QuizDb

  class QuizStore {
    var teams: map<TeamName, Team>
    var questions: map<QuestionId, Question>
    var progress: map<Pair, Progress>
    var hints: seq<Hint>

    /** The tables as one value. */
    function Snapshot(): Db
      reads this
    {
      Db(teams, questions, progress, hints)
    }

    ghost predicate Valid()
      reads this
    {
      QuizDb.Valid(Snapshot())
    }

    constructor ()
      ensures Valid() && Snapshot() == Empty
    {
      teams, questions, progress, hints := map[], map[], map[], [];
    }

    /** `/submit-answer`. */
    method SubmitAnswer(team: TeamName, question: QuestionId, answer: string, freshId: ProgressId, now: Timestamp)
      returns (o: Outcome)
      requires Valid()
      modifies this
      ensures Valid()
      ensures Handled(o, Snapshot()) == Submit(old(Snapshot()), team, question, answer, freshId, now)
    {
      if team !in teams {
        return TeamNotFound;
      }
      var pair := (team, question);
      if pair in progress {
        var row := progress[pair];
        if row.completed {
          return AlreadyCompleted;
        }
        if SameAnswer(questions[question].answer, answer) {
          progress := progress[pair := row.(completed := true, solvedAt := Some(now))];
          return Correct(false);
        }
        return Incorrect;
      }
      if question !in questions {
        return QuestionNotFound;
      }
      if SameAnswer(questions[question].answer, answer) {
        if ProgressIdInUse(progress, freshId) {
          return Internal;
        }
        progress := progress[pair := Progress(freshId, true, Some(now))];
        return Correct(true);
      }
      return Incorrect;
    }

    /** `/register-team`. */
    method RegisterTeam(name: TeamName, password: string, users: seq<User>) returns (o: Outcome)
      requires Valid()
      modifies this
      ensures Valid()
      ensures Handled(o, Snapshot()) == Register(old(Snapshot()), name, password, users)
    {
      if name in teams {
        return NameTaken;
      }
      if RequestClashes(teams, users) {
        return UserInAnotherTeam;
      }
      ghost var expected := Register(Snapshot(), name, password, users);
      teams := teams[name := Team(password, false, users)];
      o := Registered;
      assert Snapshot() == expected.db;
    }

    /** `/login-team`: reads only. */
    method LoginTeam(name: TeamName, password: string) returns (o: Outcome)
      ensures o == Login(Snapshot(), name, password)
      ensures o == LoggedIn(name) <==> name in teams && teams[name].password == password
    {
      if name !in teams {
        return InvalidCredentials;
      }
      if teams[name].password == password {
        return LoggedIn(name);
      }
      return InvalidCredentials;
    }

    /** `/add-question`. */
    method CreateQuestion(id: QuestionId, question: Question) returns (o: Outcome)
      requires Valid()
      modifies this
      ensures Valid()
      ensures Handled(o, Snapshot()) == AddQuestion(old(Snapshot()), id, question)
    {
      if id in questions {
        return QuestionRejected;
      }
      questions := questions[id := question];
      return QuestionAdded;
    }

    /** `/team-locked`: reads only. */
    method QueryTeamLocked(name: TeamName) returns (o: Outcome)
      ensures o == TeamLocked(Snapshot(), name)
      ensures o.LockState? <==> name in teams
    {
      if name !in teams {
        return TeamNotFound;
      }
      return LockState(name, teams[name].locked);
    }

    /** `team.update({where: {team_name}, data: {locked}})`: fails on an
        unknown name and then writes nothing. */
    method UpdateTeamLock(name: TeamName, locked: bool) returns (ok: bool)
      requires Valid()
      modifies this
      ensures Valid()
      ensures ok == (name in old(teams))
      ensures ok ==> Snapshot() == SetLock(old(Snapshot()), name, locked)
      ensures !ok ==> Snapshot() == old(Snapshot())
    {
      if name !in teams {
        return false;
      }
      ghost var before := Snapshot();
      teams := teams[name := teams[name].(locked := locked)];
      OnlyLocksDifferKeepsValid(before, Snapshot());
      return true;
    }

    /** `/toggle-team-lock`: read the flag, write its negation. */
    method ToggleTeamLock(name: TeamName) returns (o: Outcome)
      requires Valid()
      modifies this
      ensures Valid()
      ensures Handled(o, Snapshot()) == ToggleLock(old(Snapshot()), name)
    {
      if name !in teams {
        return TeamNotFound;
      }
      var locked := !teams[name].locked;
      var _ := UpdateTeamLock(name, locked);
      return Toggled(locked);
    }

    /** `team.updateMany({data: {locked}})`, behind `/lock-all-teams`,
        `/unlock-all-teams` and the live `lock_all` / `unlock_all` messages:
        sets the flag of one team after another until every team has it. */
    method UpdateAllTeamLocks(locked: bool)
      requires Valid()
      modifies this
      ensures Valid()
      ensures Snapshot() == SetAllLocks(old(Snapshot()), locked)
    {
      var pending := teams.Keys;
      while pending != {}
        invariant pending <= teams.Keys == old(teams).Keys
        invariant forall n :: n in pending ==> teams[n] == old(teams)[n]
        invariant forall n :: n in old(teams) && n !in pending ==> teams[n] == old(teams)[n].(locked := locked)
        invariant questions == old(questions) && progress == old(progress) && hints == old(hints)
        decreases pending
      {
        var n :| n in pending;
        teams := teams[n := teams[n].(locked := locked)];
        pending := pending - {n};
      }
      assert teams == SetAllLocks(old(Snapshot()), locked).teams;
      OnlyLocksDifferKeepsValid(old(Snapshot()), Snapshot());
    }

    /** `hint.create`: appends one hint. */
    method CreateHint(hint: Hint)
      requires Valid()
      modifies this
      ensures Valid()
      ensures Snapshot() == SaveHint(old(Snapshot()), hint)
    {
      hints := hints + [hint];
    }
  }
}
