# be-bbtronic game core in Dafny

This project models the in-memory game orchestration of the be-bbtronic party
game backend and proves properties about it. The model covers:

- **The submitted-question game ("preguntas directas").** Players send
  questions to each other during a round that waits for questions. The round
  is then played: unshown questions are picked, preferring a recipient other
  than the last one, and the shown set and the question index are kept on the
  session.
- **The prompt games ("Yo nunca nunca", "Cultura pendeja", "Quién es más
  probable", "Preguntas incómodas").** Each session has its own prompt pool,
  created lazily from a bank and never refilled. Players are drawn without
  replacement to fill the `{player}` placeholder.
- **The "Quién es más probable" vote.** A per-session tally and voter set are
  kept in step, and the result is broadcast once every member has voted.
- **The user registry.** It covers registration, joining a session,
  logout, and the ready flags players raise between rounds.
- **The three application-wide prompt dispensers.** Each is a single list
  shared by every caller and reloaded by type only when it runs dry.
- **The pure helpers.** These are the game phase shown for a round status,
  the resynchronisation snapshot of a session, and the four-digit session
  code.

Layout, one module per file:

| file | module | contents |
|---|---|---|
| outcomes.dfy | Outcomes | `Option`, `Result` and the Java exceptions the services throw (`IllegalArgument`, `IllegalState`, `NullPointer`) with their messages |
| text.dfy | Text | `String.contains`, `String.replace` of `{player}` and `equalsIgnoreCase` |
| pools.dfy | Pools | bank entries, `findByTipo`, `Collections.shuffle`, the anti-repeat draw, the per-session pools |
| entities.dfy | Entities | the classes `User`, `Question` and `GameSession` |
| repositories.dfy | Store | the Spring Data repositories as maps held by one class |
| user_service.dfy | Users | `UserService` |
| dispensers.dfy | Dispensers | the three `*Service.getRandomQuestion` dispensers |
| rounds.dfy | Rounds | the stream pipelines over a session's questions |
| tally.dfy | Tally | the vote tally and its total |
| sync.dfy | Sync | `determineGamePhase`, the session sync snapshot and the session code |
| game_session_service.dfy | Games | `GameSessionService` |

The Java classes stay classes and their in-place updates stay methods with
`modifies` clauses. The session-keyed `HashMap` caches of `GameSessionService`
are `map` fields of the service class. WebSocket messages are appended to a
ghost `broadcasts` log. Each source of randomness becomes a parameter:

- `Random.nextInt(n)` is `choice % n` for an arbitrary `choice`.
- `Collections.shuffle` is `Shuffle(s, choices)`, which
  `ShuffleReachesEveryPermutation` shows can produce every permutation.
- `UUID.randomUUID()` becomes a `newRoundId` argument.

The shown `GameSession.java` and `Question.java` lack fields the service
reads and writes: `currentGame`, `currentRoundId` and `roundStatus` on the
session, and `roundId` on the question. They are modelled as
`Option<string>` fields, with `None` for Java's `null`.

A session's member list is `@OneToMany(mappedBy = "gameSession")`
(`model/GameSession.java:33-35`): the database derives it from each user's
session column (`model/User.java:28-31`). The model keeps the lists as fields
and states what that derivation guarantees as the invariant
`Store.Repositories.Valid`. Each stored session lists only users that point
back to it, each once and each a stored user, and every user is stored under
its own name. So a user is listed by one session at most. The user-service
operations that change membership keep the invariant. `JoinSession` therefore
also takes the user off the list of a session it was in before, which the
database does when the session column changes.

Some quirks of the source are kept as written:

- `checkAllUsersVoted` holds for a session without members.
- `getNextQuienEsMasProbable` consumes a prompt before it checks the session
  and its members.
- After `selectAndSetNextQuestion`, `currentQuestionIndex` is the shown count
  minus one. That is a count, not the position of the picked question in the
  id-sorted round that `getCurrentQuestion` indexes.
- `startPreguntasDirectas` puts the id of the session's first stored question
  into the shown set, whatever round that question belongs to.
- While the list of a global dispenser is non-empty, the requested type is
  ignored.

## Model

All source paths are under `src/main/java/com/game/`.

| member | source | states |
|---|---|---|
| Text.ReplacePlaceholder | src/main/java/com/game/service/GameSessionService.java:566 | `replace("{player}", name)` puts the name exactly where the placeholders stood, between the same pieces of text as in the prompt |
| Text.PiecesRebuildText | src/main/java/com/game/service/GameSessionService.java:564-567 | those pieces joined with the placeholder give back the prompt, so nothing but the placeholders is changed |
| Text.NoPieceHoldsPlaceholder | src/main/java/com/game/service/GameSessionService.java:683 | no piece between placeholders contains `{player}`, so every occurrence in the prompt is one the name replaces |
| Text.Contains | src/main/java/com/game/service/GameSessionService.java:564 | `contains("{player}")` holds exactly when the placeholder occurs at some position of the prompt |
| Text.PlaceholderSplitsText | src/main/java/com/game/service/GameSessionService.java:564-567 | the prompt contains the placeholder exactly when it has more than one piece, i.e. exactly when the name gets inserted |
| Text.ReplaceWithoutPlaceholder | src/main/java/com/game/service/GameSessionService.java:564-567 | a prompt without `{player}` is returned unchanged |
| Text.LowerAscii | src/main/java/com/game/service/GameSessionService.java:675 | the text with each character folded to lower case, position by position |
| Text.EqualsIgnoreCase | src/main/java/com/game/service/GameSessionService.java:675 | `equalsIgnoreCase` holds exactly when both texts are equal once folded to lower case |
| Pools.FindByTipo | src/main/java/com/game/service/GameSessionService.java:482 | `findByTipo`: an entry is in the result exactly when it is in the bank with that type |
| Pools.RemoveAt | src/main/java/com/game/service/GameSessionService.java:543 | `List.remove(int)` drops position k and keeps every other entry in order; the removal of the first matching prompt at line 679 is the same step at that prompt's index |
| Pools.Shuffle | src/main/java/com/game/service/GameSessionService.java:440-441 | `Collections.shuffle` yields a permutation of its input |
| Pools.ShuffleReachesEveryPermutation | src/main/java/com/game/service/GameSessionService.java:440-441 | every permutation of the input is the outcome of some choice sequence, so no order is excluded |
| Pools.ShuffleChoicesFor | src/main/java/com/game/service/GameSessionService.java:440-441 | for any rearrangement of a list, builds the choice sequence under which the shuffle yields exactly that rearrangement |
| Pools.RemoveFirst | src/main/java/com/game/service/UserService.java:104 | `List.remove(Object)` drops the first occurrence only, or returns the list unchanged when the element is absent |
| Pools.RemoveFirstLeavesNone | src/main/java/com/game/service/UserService.java:104 | on a list without repeats, removing the first occurrence leaves no occurrence, no repeats and no new element |
| Pools.TakeFirst | src/main/java/com/game/service/PreguntasIncomodasService.java:27-31 | a non-empty list yields its head and keeps the rest in order; an empty one yields the failure |
| Pools.ReloadIfEmpty | src/main/java/com/game/service/PreguntasIncomodasService.java:22-25 | the list is kept while non-empty and otherwise reloaded as a permutation of the entries of the requested type |
| Pools.FirstOfTipo | src/main/java/com/game/service/GameSessionService.java:674-677 | the position of the first entry whose type matches ignoring ASCII case, or none when no entry matches |
| Pools.DrawOne | src/main/java/com/game/service/GameSessionService.java:534-544 | `getRandomUser` on values: a non-empty remaining pool gives up one of its members; the pool is created from and refilled with the member list only when empty; a missing list is a NullPointerException and an empty one makes `nextInt(0)` throw |
| Pools.DrawMany | src/main/java/com/game/service/GameSessionService.java:534-544 | draws between refills: one member per draw, the pool shrinking by one each time |
| Pools.DrawsPartitionPool | src/main/java/com/game/service/GameSessionService.java:534-544 | between refills the drawn members and the remaining pool together are exactly the pool |
| Pools.DrawsRepeatNobody | src/main/java/com/game/service/GameSessionService.java:534-544 | so from a repeat-free pool nobody is drawn twice before the pool is refilled |
| Pools.NextFromSessionPool | src/main/java/com/game/service/GameSessionService.java:481-495 | `getNextYoNuncaNunca` on values: the pool is created only if absent; missing players fail first, an empty pool fails next, otherwise the head is removed and returned; other sessions' pools are untouched |
| Pools.NextAll | src/main/java/com/game/service/GameSessionService.java:481-495 | a run of calls gives one outcome per call |
| Pools.SessionPoolIsNeverRefilled | src/main/java/com/game/service/GameSessionService.java:518-532 | once a session has a pool and players, calls hand out its entries in order whatever type they ask for, and after the last one every call fails with the pool left empty |
| Pools.SessionPoolDrains | src/main/java/com/game/service/GameSessionService.java:481-495 | after n calls on an existing pool with players, the pool has lost exactly its first n entries, or is empty once n reaches its length |
| Entities.User.constructor | src/main/java/com/game/model/User.java:38-42 | a new user has the given name and token, is not ready and has no session |
| Entities.User.SetReady | src/main/java/com/game/model/User.java:73-75 | stores the ready flag |
| Entities.User.SetGameSession | src/main/java/com/game/model/User.java:81-83 | stores the session link |
| Entities.Question.Empty | src/main/java/com/game/model/Question.java:30-31 | the no-argument constructor leaves every field at its default, not anonymous |
| Entities.Question.constructor | src/main/java/com/game/model/Question.java:33-37 | author, recipient and text stored verbatim; not anonymous |
| Entities.Question.GetFromUser | src/main/java/com/game/model/Question.java:45-47 | reads "Anónimo" for an anonymous question and the stored author otherwise |
| Entities.Question.SetFromUser | src/main/java/com/game/model/Question.java:49-51 | stores the author verbatim whatever the flag; redaction happens on read only |
| Entities.Question.SetToUser | src/main/java/com/game/model/Question.java:57-59 | stores the recipient |
| Entities.Question.SetQuestion | src/main/java/com/game/model/Question.java:65-67 | stores the text |
| Entities.Question.SetAnonymous | src/main/java/com/game/model/Question.java:73-75 | clearing the flag exposes the stored author again, setting it hides it |
| Entities.Question.SetRoundId | src/main/java/com/game/service/GameSessionService.java:295 | stores the round the question belongs to |
| Entities.Question.SetGameSession | src/main/java/com/game/model/Question.java:81-83 | stores the session link |
| Entities.GameSession.constructor | src/main/java/com/game/model/GameSession.java:25-46 | a new session is not started, at index 0, with no questions, users or shown ids |
| Entities.GameSession.AddUser | src/main/java/com/game/model/GameSession.java:124-127 | appends the user at the end and links it back to the session |
| Entities.GameSession.AddQuestion | src/main/java/com/game/model/GameSession.java:129-132 | appends the question at the end and links it back to the session |
| Entities.GameSession.SetShownQuestions | src/main/java/com/game/model/GameSession.java:118-120 | replaces the shown set wholesale |
| Entities.GameSession.MarkShown | src/main/java/com/game/service/GameSessionService.java:244 | adds an id to the shown set; an id already there leaves it unchanged |
| Store.Repositories.constructor | src/main/java/com/game/service/GameSessionService.java:43-63 | empty session and user tables, the banks as given; the membership invariant holds |
| Store.Repositories.FindUserByToken | src/main/java/com/game/service/UserService.java:85 | finds a user holding the token, or reports that none does |
| Store.Repositories.FindSessionContaining | src/main/java/com/game/service/UserService.java:103 | finds a session whose member list holds the user, or reports that none does |
| Store.Repositories.NewQuestionId | src/main/java/com/game/service/GameSessionService.java:301 | each saved question gets the next identity value |
| Store.Repositories.DeleteUser | src/main/java/com/game/service/UserService.java:90 | deleting a user no session lists keeps the membership invariant and removes exactly that username |
| Store.Repositories.OneSessionPerUser | src/main/java/com/game/model/User.java:28-31 | under the membership invariant two sessions listing the same user are the same session |
| Users.ReadyCount | src/main/java/com/game/service/UserService.java:157 | the number of ready members never exceeds the member count |
| Users.ReadyCountAll | src/main/java/com/game/service/UserService.java:157-160 | the ready count equals the member count exactly when every member is ready, with no special case for an empty session |
| Users.HasMemberIsStoredUser | src/main/java/com/game/service/UserService.java:58 | with the store consistent, the by-name `anyMatch` finds a member exactly when the stored user of that name is listed |
| Users.UserService.constructor | src/main/java/com/game/service/UserService.java:23-26 | the service works on the given repositories |
| Users.UserService.RegisterUser | src/main/java/com/game/service/UserService.java:35-41 | a taken username is refused and nothing changes; otherwise a new not-ready user without a session is stored under it; the membership invariant is kept |
| Users.UserService.JoinSession | src/main/java/com/game/service/UserService.java:51-67 | unknown code, unknown user and a username already among the members fail in that order with every member list unchanged; otherwise the user is appended and linked to the session, and every other session stops listing it, so it belongs to one session only; the membership invariant is kept |
| Users.UserService.Enlist | src/main/java/com/game/service/UserService.java:62-63 | linking an unlisted stored user to a session appends it to that session's list and keeps the membership invariant |
| Users.UserService.Relink | src/main/java/com/game/service/UserService.java:62-66 | once the user's session column names the session, that session lists the user last and every other session has dropped it, keeping the membership invariant |
| Users.UserService.LogoutUser | src/main/java/com/game/service/UserService.java:84-95 | false and no change for an unknown token; otherwise the holder leaves the session that lists it and is deleted, no session lists it afterwards, and no other session changes |
| Users.UserService.RemoveUserFromSession | src/main/java/com/game/service/UserService.java:102-107 | the user leaves the one session found to list it and afterwards no session lists it; every other session is unchanged |
| Users.UserService.SetUserReady | src/main/java/com/game/service/UserService.java:124-129 | raises the named user's flag, fails for an unknown username |
| Users.UserService.SetUserReadyWithRoundInfo | src/main/java/com/game/service/UserService.java:138-164 | raises the flag and, for a user in a session, reports its round, the ready count, the member count and whether every member is ready |
| Dispensers.Dispense | src/main/java/com/game/service/PreguntasIncomodasService.java:20-32 | one call on values: the head of a non-empty list, or a reload from the requested type as a permutation, or the "no more questions" failure naming the type |
| Dispensers.DispenseIgnoresTipo | src/main/java/com/game/service/QuienEsMasProbableService.java:20-32 | while the list is non-empty the requested type makes no difference |
| Dispensers.ReloadServesRequestedTipo | src/main/java/com/game/service/PreguntasIncomodasService.java:22-25 | on a reload a call succeeds exactly when the bank has an entry of that type, and what it returns is one |
| Dispensers.DispensePreservesFromBank | src/main/java/com/game/service/CulturaPendejaService.java:20-32 | the shared list only ever holds bank entries, so every entry handed out comes from the bank |
| Dispensers.DispenseAll | src/main/java/com/game/service/CulturaPendejaService.java:20-32 | a run of calls gives one outcome per call |
| Dispensers.DispenseAllServesInOrder | src/main/java/com/game/service/QuienEsMasProbableService.java:27-28 | until the list runs dry the calls hand out its entries in order, each once, whatever types they ask for |
| Dispensers.GlobalDispenser.constructor | src/main/java/com/game/service/QuienEsMasProbableService.java:18 | the shared list starts empty |
| Dispensers.GlobalDispenser.GetRandomQuestion | src/main/java/com/game/service/CulturaPendejaService.java:20-32 | the call is `Dispense` on the shared list; it fails exactly when the list was empty and the bank has no entry of the type |
| Rounds.RoundQuestions | src/main/java/com/game/service/GameSessionService.java:184-186 | the questions carrying the current round id and no others; none without a round |
| Rounds.Unshown | src/main/java/com/game/service/GameSessionService.java:197-199 | exactly the questions whose id was not shown |
| Rounds.UnshownToOthers | src/main/java/com/game/service/GameSessionService.java:192-194 | exactly the unshown questions addressed to someone other than the last recipient |
| Rounds.PickNext | src/main/java/com/game/service/GameSessionService.java:188-205 | the pick fails exactly when every question of the round was shown; otherwise it is an unshown question of the round, and it goes to someone other than the last recipient whenever an unshown question does |
| Rounds.Insert | src/main/java/com/game/service/GameSessionService.java:227 | inserting adds exactly that question |
| Rounds.InsertKeepsSorted | src/main/java/com/game/service/GameSessionService.java:227 | insertion into an id-sorted list keeps it sorted |
| Rounds.SortById | src/main/java/com/game/service/GameSessionService.java:227 | the result is sorted by id and a permutation of the input |
| Rounds.SameMembers | src/main/java/com/game/service/GameSessionService.java:221-229 | a permutation has the same length and the same members |
| Rounds.OrderedRound | src/main/java/com/game/service/GameSessionService.java:221-229 | the round in id order: sorted, as long as the round, and holding exactly the round's questions |
| Tally.AddVote | src/main/java/com/game/service/GameSessionService.java:596 | the voted name's tally rises by one and no other tally changes |
| Tally.TotalWithout | src/main/java/com/game/service/GameSessionService.java:595-597 | the total splits into any one entry and the rest |
| Tally.AddVoteRaisesTotal | src/main/java/com/game/service/GameSessionService.java:595-597 | one vote raises the total by exactly one |
| Sync.GamePhase | src/main/java/com/game/service/GameSessionService.java:866-880 | each phase is shown for exactly its round statuses, with a missing status shown as questions being shown |
| Sync.SyncUsers | src/main/java/com/game/service/GameSessionService.java:706-713 | one entry per member, in order, each reported connected |
| Sync.SessionSyncOf | src/main/java/com/game/service/GameSessionService.java:701-738 | the snapshot has a game state exactly when the current game is set and non-empty, with status defaulting to in progress |
| Sync.SessionCode | src/main/java/com/game/service/GameSessionService.java:89-93 | four decimal digits without a leading zero, denoting 1000 plus the drawn number below 9000 |
| Sync.SessionCodesCollide | src/main/java/com/game/service/GameSessionService.java:78-93 | two draws give the same code exactly when they agree modulo 9000; nothing prevents that |
| Games.ClearReady | src/main/java/com/game/service/GameSessionService.java:333-336 | every member's flag goes down and nothing else about them changes |
| Games.GameSessionService.constructor | src/main/java/com/game/service/GameSessionService.java:33-40 | every cache starts empty and the tally invariant holds |
| Games.GameSessionService.StartGame | src/main/java/com/game/service/GameSessionService.java:134-139 | marks an existing session started; an unknown code fails |
| Games.GameSessionService.StartPreguntasDirectas | src/main/java/com/game/service/GameSessionService.java:146-175 | starts the game with a fresh round waiting for questions and every member not ready; the shown set becomes the first stored question's id, if any; the index is kept |
| Games.GameSessionService.StartNewRound | src/main/java/com/game/service/GameSessionService.java:323-352 | status waiting for questions, the submitted-question game, nothing shown, index 0, every member not ready, and the returned id is the session's round; a fresh id leaves the round empty |
| Games.GameSessionService.SaveQuestion | src/main/java/com/game/service/GameSessionService.java:270-302 | during the submitted-question game a question is refused without a round or outside the waiting status; otherwise one question is appended with a new id and the current round, so it belongs to that round |
| Games.GameSessionService.NewQuestion | src/main/java/com/game/service/GameSessionService.java:286-296 | the new question carries the given fields |
| Games.GameSessionService.StartRoundPlay | src/main/java/com/game/service/GameSessionService.java:359-380 | succeeds exactly when the round waits for questions and holds at least one, and then the status is in progress |
| Games.GameSessionService.SelectAndSetNextQuestion | src/main/java/com/game/service/GameSessionService.java:177-219 | returns the `PickNext` choice: an unshown question of the round, to someone other than the last recipient whenever such a question exists; it adds exactly its id to the shown set and sets the index to the shown count minus one; an empty round or all shown fail |
| Games.GameSessionService.GetQuestionsForSession | src/main/java/com/game/service/GameSessionService.java:221-229 | the round's questions sorted by id, as a permutation of the round |
| Games.GameSessionService.GetCurrentQuestion | src/main/java/com/game/service/GameSessionService.java:231-253 | the question at the index of the id-sorted round, which is marked shown; idempotent on a question already shown; an out-of-range index fails without change |
| Games.GameSessionService.GetCurrentQuestionNumber | src/main/java/com/game/service/GameSessionService.java:304-307 | the index counted from one |
| Games.GameSessionService.GetTotalQuestions | src/main/java/com/game/service/GameSessionService.java:309-316 | the number of questions of the current round, zero without a round |
| Games.GameSessionService.ResetUsersReady | src/main/java/com/game/service/GameSessionService.java:419-428 | every member's flag goes down |
| Games.GameSessionService.EndCurrentGame | src/main/java/com/game/service/GameSessionService.java:888-903 | game, round and status are cleared, so a sync carries no game state |
| Games.GameSessionService.GetSessionSync | src/main/java/com/game/service/GameSessionService.java:701-738 | the snapshot of an existing session; an unknown code fails naming it |
| Games.GameSessionService.StartYoNuncaNunca | src/main/java/com/game/service/GameSessionService.java:431-449 | needs prompts and members; the session's pool becomes a permutation of the whole bank and its player list a permutation of the members |
| Games.GameSessionService.StartCulturaPendeja | src/main/java/com/game/service/GameSessionService.java:498-516 | the same over the Cultura Pendeja bank |
| Games.GameSessionService.StartQuienEsMasProbable | src/main/java/com/game/service/GameSessionService.java:452-479 | the same with its two messages; any failure drops the session's pool and player list |
| Games.GameSessionService.StartPreguntasIncomodas | src/main/java/com/game/service/GameSessionService.java:627-659 | needs prompts and members; the pool is a permutation of the bank, the players are the members as they are, a fresh round is in progress with every member not ready, and the start is broadcast |
| Games.GameSessionService.GetNextYoNuncaNunca | src/main/java/com/game/service/GameSessionService.java:481-495 | the call is `NextFromSessionPool` on the session's pool; a pool created by the call serves the requested type |
| Games.GameSessionService.GetNextCulturaPendeja | src/main/java/com/game/service/GameSessionService.java:518-532 | the same over the Cultura Pendeja pools |
| Games.GameSessionService.GetRandomUser | src/main/java/com/game/service/GameSessionService.java:534-544 | the call is `DrawOne` on the session's remaining players |
| Games.GameSessionService.GetNextQuienEsMasProbable | src/main/java/com/game/service/GameSessionService.java:546-570 | clears the vote, then takes the head of the session's pool before checking the session and its members; a prompt with `{player}` gets a drawn player's name, any other is returned unchanged without a draw |
| Games.GameSessionService.GetNextPreguntasIncomodas | src/main/java/com/game/service/GameSessionService.java:661-692 | a missing or empty queue fails and is broadcast, then missing players and no matching type fail; otherwise the first prompt of the type leaves the queue, the rest in order, and is addressed to a drawn player whose name fills it |
| Games.GameSessionService.CheckAllUsersVoted | src/main/java/com/game/service/GameSessionService.java:572-586 | false without a voter set, otherwise whether every member has voted, true for no members |
| Games.GameSessionService.GetVoteResults | src/main/java/com/game/service/GameSessionService.java:608-619 | fails without votes, otherwise a name no other tally exceeds |
| Games.GameSessionService.ClearVotes | src/main/java/com/game/service/GameSessionService.java:621-624 | removes the session's tally and voter set together, keeping the invariant |
| Games.GameSessionService.RecordBallot | src/main/java/com/game/service/GameSessionService.java:589-600 | a repeat voter is refused with the tally unchanged; otherwise the voted tally rises by one and the voter joins the set, so the total of votes stays equal to the number of voters |
| Games.GameSessionService.RegisterVote | src/main/java/com/game/service/GameSessionService.java:588-606 | records the ballot before looking up the session; once every member has voted, a winner no other name outvotes is broadcast |

## Left out

- JPA persistence is replaced by in-memory maps. This drops `save`, `saveAndFlush`, `@Transactional` rollback, the cascades, the startup wipes (`clearUsersOnStartup` in both services) and the stored procedure of `resetGameData`.
- `createGameSession`, `addUserToSession`, `getUsersInSession`, `getGameSessionByCode` and `getAllUsers` are repository plumbing. A map keyed by code cannot hold the duplicate codes `createGameSession` could store; `SessionCodesCollide` states when codes coincide.
- The WebSocket sends only append an event to a ghost log. Their JSON payloads are not modelled.
- `synchronized` in `getCurrentQuestion` and the non-thread-safe caches: the model is sequential.
- The response maps are not modelled: `generateQuestionResponse` (including its write of "Anonymous" over the author), `getRoundInfo`, `buildCurrentQuestionData` and its helpers, the timestamp of the sync snapshot, and logging.
- The `hasVoted` and current-question data of the sync snapshot depend on `buildCurrentQuestionData` and are not modelled.
- `Collections.shuffle(users)` in the start methods reorders the session's member list in place for the duration of the call. The model leaves the session's list as it was and shuffles only the copy stored as the player list.
- `startPreguntasIncomodas` stores the session's live member list as the player list, so later joins show through. The model stores a copy.
- `getNextPreguntasIncomodas` also writes the filled-in text back into the bank entry (`setTexto`). That entry has already left the queue and the write is not modelled.
- Store.Repositories.DeleteUser: only deletes a user that no session lists, which is the only case `logoutUser` reaches. Deleting a listed user is not modelled; the database would also drop that user from the list.
- Operations outside the user service that would change membership (session creation, the unmodelled repository plumbing) are not modelled, so nothing else has to keep `Store.Repositories.Valid`. The game-service methods change only the members' ready flags.
- `equalsIgnoreCase` folds ASCII letters only.
- Java `int` overflow of indexes and tallies is not modelled.
- A Java `null` string where the source can receive one is modelled as `""`, or as `None` for `lastToUser` and the session's round fields.
- The three global dispensers are one class instantiated once per bank, because their bodies are identical.
- Randomness is reduced to what can be chosen, with no distribution. `Random.nextInt`, `Collections.shuffle` and `UUID.randomUUID` become choice, shuffle and id parameters.
