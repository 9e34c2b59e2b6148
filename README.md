# Quiz backend: team progress and live broadcast

This project models the decision logic of a quiz competition server (`src/index.ts`).
Teams register and log in. They submit answers to questions, and their progress is
recorded per (team, question) pair. Organisers lock and unlock teams, and they
broadcast hints over a live WebSocket channel.

The database is modelled as a value `QuizDb.Db` with four tables:
- teams by name (password, `locked` flag, users);
- questions by id;
- progress rows keyed by (team, question), each carrying its `progress_id`, `is_completed` and `solved_at`;
- the append-only list of hints.

Each HTTP handler is a function from the database before the request to an `Outcome`
and the database after it (`QuizDb`). A sequence of such requests is `QuizTrace.Run`.
The live channel (`LiveSpec`) adds the set of open clients and one outbox per client, so
that "sent to every open client" and "sent to the sender only" can be stated.

The imperative layer follows the source:
- `Store.QuizStore` is an object whose table fields the handler methods rewrite in place.
  The bulk lock update is a loop over all teams.
- `Hub.LiveHub` holds the client registry. Its broadcast is a loop over the open
  clients, and its `HandleMessage` routes on the message's `type` tag.

Every method is proved to produce exactly the outcome and the new state that the
matching function describes. The invariant `QuizDb.Valid` is kept by every operation. It
says that progress rows name existing teams and questions, that progress ids are
distinct, and that no enrollment number belongs to two users.

Behaviour the model keeps as the code has it:
- With a progress row present, submit does not look the question up again. It uses the
  row's question, which the foreign key guarantees exists. The question is looked up, and
  may be "not found", only when the pair has no row.
- Answers are compared after lower-casing, with no trimming.
- A wrong answer is never recorded.
- The lock flag is never consulted by submit (`QuizDb.LockDoesNotGateSubmit`).
- A valid hint is sent to every open client, the sender included, before it is stored.
  The stored text is the untrimmed one.
- A live `lock`/`unlock` fails, and only the sender hears of it, when `team_name` is not a
  string naming an existing team, because the single-row update then throws.
- A `type` tag other than the five known ones, or one that is not a string, does nothing.

## Model

| member | source | states |
|---|---|---|
| Answers.LowerStr | src/index.ts:140 | `toLowerCase()` keeps the length and lower-cases each character |
| Answers.SameAnswer | src/index.ts:140 | the submit comparison: both sides lower-cased, then equal; answers of different lengths never match |
| Answers.SameAnswerPointwise | src/index.ts:127 | an answer matches iff it has the stored answer's length and agrees with it character by character up to case |
| Answers.LowerStrIdempotent | src/index.ts:140 | lower-casing twice equals lower-casing once, so a lower-cased answer matches its original |
| Answers.PaddedAnswerNeverMatches | src/index.ts:140 | no trimming: an answer with an extra leading or trailing character never matches an answer the unpadded text matches |
| Answers.ParisExamples | src/index.ts:127 | "Paris" and "PARIS" match "paris"; "paris " does not |
| HintText.TrimStart | src/index.ts:236 | leading white space is dropped, all of it and nothing else |
| HintText.TrimEnd | src/index.ts:236 | trailing white space is dropped, all of it and nothing else |
| HintText.Trim | src/index.ts:236 | `trim()` leaves no white space at either end and is empty iff the text is all white space |
| HintText.TrimIsSlice | src/index.ts:236 | `trim()` removes white space at the two ends and nothing else: the result is a slice of the text with only white space on either side |
| HintText.ValidHintText | src/index.ts:236 | the hint guard, negated: the field is a string and its trimmed text is not empty (characterised by `ValidHintTextIff`) |
| HintText.ValidHintTextIff | src/index.ts:236 | a hint is accepted iff it is a string with at least one non-white-space character |
| HintText.HintTextExamples | src/index.ts:236-238 | an empty, all-blank or non-string hint is rejected; a padded text is accepted |
| HintText.Render | src/index.ts:272 | `${team_name}` in the failure notice renders a string field as the string itself and any other value as its JavaScript rendering |
| QuizDb.OnlyLocksDifferKeepsValid | src/index.ts:19-39 | rewriting lock flags alone keeps every database invariant |
| QuizDb.Status | src/index.ts:19-210 | the status sent with each outcome: 2xx exactly for the successes, 201 exactly when a team, question or progress row is created, 404 for a missing team or question, 401 for a failed login, 500 for a refused write, 400 otherwise |
| QuizDb.Submit | src/index.ts:112-157 | unknown team: not found. Completed pair: already completed. Incomplete row: completed on a case-insensitive match, else incorrect. No row: question not found, a new completed row, or incorrect. Only a correct answer writes; it touches only that pair's row, which ends completed with `solved_at`; a completed row never changes; at most one row per pair |
| QuizDb.Record | src/index.ts:128-149 | the one write of submit: an incomplete row completed under its own id, or a new completed row under an unused id; the invariant holds, and no other row or table changes |
| QuizDb.Register | src/index.ts:41-70 | a taken name is refused; a clash on enrollment numbers gives "User in another team"; otherwise the team is created unlocked with its users and nothing else changes |
| QuizDb.Login | src/index.ts:89-110 | success iff the name exists and the stored password is exactly the one given; otherwise the same "invalid credentials" answer |
| QuizDb.AddQuestion | src/index.ts:72-87 | a new id adds the question and nothing else; an id in use is refused with no change |
| QuizDb.TeamLocked | src/index.ts:196-210 | reports the flag of an existing team, not found otherwise |
| QuizDb.SetLock | src/index.ts:261-264 | the named team's flag takes the given value; every other team and table is unchanged |
| QuizDb.ToggleLock | src/index.ts:175-194 | an existing team's flag is negated and the new value reported; unknown team: not found, no change; only flags change |
| QuizDb.SetAllLocks | src/index.ts:19-39 | every team's flag takes the given value; names, passwords, users and the other tables are unchanged |
| QuizDb.SaveHint | src/index.ts:247-249 | the hint is appended at the end and earlier hints and other tables are unchanged |
| QuizDb.SubmitStatus | src/index.ts:112-157 | submit answers 201 iff a new row is made, 200 iff an existing incomplete row is completed, 404 iff the team, or the question of a pair with no row, is missing, 400 iff the pair is completed or the answer is wrong, 500 iff the new row's id is taken |
| QuizDb.LoginAndLockStatus | src/index.ts:89-210 | login answers 200 iff name and password match, else 401; toggle and the lock read answer 200 for an existing team, else 404 |
| QuizDb.SecondSubmissionRefused | src/index.ts:123-126 | after a correct answer, any later answer for the pair is refused as already completed and writes nothing |
| QuizDb.GuessingIsFree | src/index.ts:136-152 | a wrong first answer leaves the database unchanged and a later right answer still completes the pair |
| QuizDb.ToggleTwice | src/index.ts:185-189 | toggling the same team twice restores the database |
| QuizDb.TeamLockedAfterWrites | src/index.ts:196-206 | the read handler reports what toggle, the single update and the bulk update wrote |
| QuizDb.LockDoesNotGateSubmit | src/index.ts:112-157 | locking all teams changes no submission outcome |
| QuizDb.RegisteredTeamCanLogIn | src/index.ts:41-106 | a just-registered team logs in with its password only, starts unlocked, and its name cannot be registered again |
| QuizTrace.Step | src/index.ts:19-291 | every writing request keeps the database invariant |
| QuizTrace.Run | src/index.ts:19-291 | any sequence of writing requests keeps the database invariant |
| QuizTrace.EvolvesTransitive | src/index.ts:19-291 | "nothing is undone" composes across requests |
| QuizTrace.StepEvolves | src/index.ts:19-291 | no request removes a team, question, progress row or hint, changes a password, users, question or progress id, or alters a completed row |
| QuizTrace.RunEvolves | src/index.ts:19-291 | the same holds across any sequence of requests |
| QuizTrace.CompletionIsTerminal | src/index.ts:119-152 | a completed pair stays completed, with the same row, whatever requests follow |
| QuizTrace.CompletedPairRefusesSubmissions | src/index.ts:123-126 | once completed, every later submission for the pair is refused |
| QuizTrace.HintsAppendOnly | src/index.ts:247-249 | earlier hints stay in place, in order, across any requests |
| QuizTrace.DispatchIsStep | src/index.ts:231-292 | a live message writes nothing, or exactly one of the modelled writing requests: the hint save, the single lock update or the bulk lock update |
| QuizTrace.DispatchEvolves | src/index.ts:231-292 | no live message undoes anything, so completion stays terminal and hints stay append-only across live messages too |
| LiveSpec.SendToAll | src/index.ts:241-245 | every open client is sent the message once; no other client is sent anything |
| LiveSpec.SendTo | src/index.ts:238 | only the named client is sent the message |
| LiveSpec.OnHint | src/index.ts:234-254 | invalid text: an error to the sender only, nothing stored. Valid text: every open client, the sender included, is sent it once, then it is stored once, untrimmed; a failed store adds an error for the sender and leaves the broadcast and the hint list as they are |
| LiveSpec.OnLock | src/index.ts:257-274 | on an existing team name and a working store, the flag is written and every open client is told; otherwise nothing is written and only the sender gets the failure notice |
| LiveSpec.OnLockAll | src/index.ts:276-291 | the bulk update followed by a message to every open client, or, on failure, no write and a notice to the sender only |
| LiveSpec.Dispatch | src/index.ts:231-292 | the invariant holds after any message and the open set is unchanged; an unknown or non-string tag has no effect |
| LiveSpec.DispatchOnlyAppends | src/index.ts:231-292 | messages are only appended to outboxes; clients that are not open are sent nothing |
| LiveSpec.LockFailureStaysPrivate | src/index.ts:270-290 | a failed lock, unlock, lock_all or unlock_all writes nothing, sends nothing to other clients, and sends the sender one notice |
| LiveSpec.ValidHintReachesEveryone | src/index.ts:240-249 | a valid hint is sent to every open client exactly once and appended to the hint list exactly once |
| LiveSpec.InvalidHintStaysPrivate | src/index.ts:236-239 | an invalid hint writes nothing and only the sender is sent the error |
| LiveSpec.LiveLockReadBack | src/index.ts:257-269 | after a live lock or unlock of an existing team, the read handler reports the requested flag |
| Store.QuizStore.SubmitAnswer | src/index.ts:112-157 | the in-place handler gives exactly `QuizDb.Submit`'s outcome and new tables |
| Store.QuizStore.RegisterTeam | src/index.ts:41-70 | exactly `QuizDb.Register` |
| Store.QuizStore.LoginTeam | src/index.ts:89-110 | reads only; succeeds iff the password is exactly the stored one |
| Store.QuizStore.CreateQuestion | src/index.ts:72-87 | exactly `QuizDb.AddQuestion` |
| Store.QuizStore.QueryTeamLocked | src/index.ts:196-210 | reads only; reports the flag iff the team exists |
| Store.QuizStore.UpdateTeamLock | src/index.ts:261-264 | succeeds iff the team exists, then exactly `QuizDb.SetLock`; otherwise no write |
| Store.QuizStore.ToggleTeamLock | src/index.ts:175-194 | exactly `QuizDb.ToggleLock` |
| Store.QuizStore.UpdateAllTeamLocks | src/index.ts:19-39 | the loop over all teams ends in exactly `QuizDb.SetAllLocks` |
| Store.QuizStore.CreateHint | src/index.ts:247-249 | exactly `QuizDb.SaveHint` |
| Hub.LiveHub.Connect | src/index.ts:228-229 | a new client is open with an empty outbox |
| Hub.LiveHub.Disconnect | src/index.ts:294-296 | a closed client is no longer open; its outbox is kept |
| Hub.LiveHub.Send | src/index.ts:238 | exactly `LiveSpec.SendTo` |
| Hub.LiveHub.Broadcast | src/index.ts:241-245 | the loop over open clients ends in exactly `LiveSpec.SendToAll` |
| Hub.LiveHub.HandleMessage | src/index.ts:231-292 | the message handler gives exactly `LiveSpec.Dispatch`'s database and outboxes |

## Left out

- Data-store faults in the HTTP handlers are not modelled. They are one source of the 500 responses at `src/index.ts:25-27`, `36-38`, `107-109`, `153-156`, `171`, `191-193` and `207-209`. The in-memory tables have no such faults. On the live channel, a fault is an explicit `storeFails` parameter, because there it decides who is told.
- Malformed request bodies are not modelled. Every request field is a typed string and every list a sequence, so the model leaves out what a missing or mistyped field does:
  - In submit, a missing `answer` makes `toLowerCase()` throw, and the handler answers 500 (`src/index.ts:127`, `140`, `153-156`).
  - A missing `team_name` makes the store refuse the lookup. Login, toggle and the lock read then answer 500, and register answers "User in another team" (`src/index.ts:67-68`). A missing `users` list fails in the same way.
  - A missing `question_id` drops that filter from the progress lookup at `src/index.ts:119-122`, so submit judges whichever progress row of the team comes first.
  - In add-question, a missing required field makes the create fail, which is answered with 400. `QuizDb.AddQuestion` refuses only an id already in use.
  - A live message that parses to `null` throws at `data.type` and escapes the handler.
- Concurrency is not modelled. Every request and message is handled atomically and one at a time. This leaves out the check-then-create race between `findFirst` and `create` in submit, `await` interleavings, and clients disconnecting during a broadcast.
- `/get-questions` and `/get-hints` are not modelled: they are plain read-only projections of the tables.
- JSON parsing and serialising are not modelled. A message is a datatype, and the `type` tag, `hintText` and `team_name` fields are `JsonValue`s. A `JSON.parse` failure, which escapes the handler, is not modelled.
- A WebSocket's `readyState` is not modelled. "Open clients" is a set kept by `Connect` and `Disconnect`.
- Connect and close logging and `console.error` are not modelled.
- Randomness and clocks are parameters: `uuidv4`, `crypto.randomUUID`, `new Date()`, and the hint's generated id and creation time. A generated progress id or question id that is already in use is refused, as the primary key would refuse it.
- Lower: lowers ASCII letters only, while `toLowerCase` uses the full Unicode case mapping. The no-trim behaviour is stated on top of this lowering.
- Strings are sequences of Unicode scalar values, not of UTF-16 code units.
- Register: the database schema is not part of this model. The failure mapped to "User in another team" is modelled as an enrollment number that is already enrolled or repeated in the request. Any other `create` error the schema might raise is not modelled.
- The `include: {question: true}` join in submit is modelled by the foreign-key invariant rather than by a separate lookup.
- `dist/index.js` and `dist/index.ts` are not part of this model. The first is a build of `src/index.ts`; the second is an older prototype with no decision logic.
- `src/interfaces.ts` only declares the request body shapes. They appear here as the handlers' parameters.
