/**
 * GameSessionService: the round machine of the submitted-question game
 * ("preguntas directas"), the per-session prompt pools of the other games,
 * the anti-repeat player draw and the "Quién es más probable" vote.
 *
 * The session-keyed caches are map fields of the service. WebSocket messages
 * are appended to a ghost log. Random choices, shuffles and fresh round ids
 * are parameters.
 */
module Games {
  import opened Outcomes
  import opened Text
  import opened Pools
  import opened Entities
  import opened Store
  import opened Rounds
  import opened Tally
  import opened Sync

  /** A message sent to the session's topic. */
  datatype Event =
    | AllQuestionsShown(sessionCode: string)
    | VoteCompleted(sessionCode: string, winner: string)
    | PreguntasIncomodasStarted(sessionCode: string)
    | NextQuestion(sessionCode: string, question: string, toUser: string)

  /** The answer of `startNewRound`. */
  datatype RoundStart = RoundStart(roundId: string, status: string, message: string)

  /** The answer of `getNextPreguntasIncomodas`. */
  datatype Prompt = Prompt(question: string, toUser: string)

  const InvalidSessionCode: string := "Invalid session code"
  const NewRoundMessage: string := "Nueva ronda iniciada. Los usuarios pueden enviar preguntas."

  /** Every member has its ready flag down. */
  predicate NoneReady(members: seq<User>)
    reads set u | u in members
  {
    forall i | 0 <= i < |members| :: !members[i].ready
  }

  /** The `forEach(user -> user.setReady(false))` loop. */
  method ClearReady(members: seq<User>)
    modifies (set u | u in members)`ready
    ensures NoneReady(members)
    ensures forall u | u in members :: u.username == old(u.username) && u.sessionToken == old(u.sessionToken)
    ensures forall u | u in members :: u.gameSession == old(u.gameSession)
  {
    for i := 0 to |members|
      invariant forall j | 0 <= j < i :: !members[j].ready
      invariant forall u | u in members :: u.username == old(u.username) && u.sessionToken == old(u.sessionToken)
      invariant forall u | u in members :: u.gameSession == old(u.gameSession)
    {
      members[i].SetReady(false);
    }
  }

  /** The session's tally, `getOrDefault(code, empty)`. */
  function TallyOf(votes: map<string, map<string, nat>>, code: string): map<string, nat>
  {
    if code in votes then votes[code] else map[]
  }

  /** The session's voters, `getOrDefault(code, empty)`. */
  function VotersOf(voted: map<string, set<string>>, code: string): set<string>
  {
    if code in voted then voted[code] else {}
  }

  /** Every member's username is among the voters. */
  predicate AllVoted(members: seq<User>, voters: set<string>)
    reads members`username
  {
    forall i | 0 <= i < |members| :: members[i].username in voters
  }

  class GameSessionService {
    const repo: Repositories
    var yoNuncaNuncaQuestions: map<string, seq<BankEntry>>
    var culturaPendejas: map<string, seq<BankEntry>>
    var preguntasIncomodas: map<string, seq<BankEntry>>
    var quienEsMasProbableQuestions: map<string, seq<BankEntry>>
    var sessionUsers: map<string, seq<User>>
    var sessionVotes: map<string, map<string, nat>>
    var sessionUsersVoted: map<string, set<string>>
    var remainingUsers: map<string, seq<User>>
    ghost var broadcasts: seq<Event>

    /** The tally and the voter set of a session exist together, and the votes counted are the voters. */
    ghost predicate Valid()
      reads this`sessionVotes, this`sessionUsersVoted
    {
      && sessionVotes.Keys == sessionUsersVoted.Keys
      && forall c | c in sessionVotes :: Total(sessionVotes[c]) == |sessionUsersVoted[c]|
    }

    constructor (repo: Repositories)
      ensures this.repo == repo && Valid()
      ensures yoNuncaNuncaQuestions == map[] && culturaPendejas == map[] && preguntasIncomodas == map[]
      ensures quienEsMasProbableQuestions == map[] && sessionUsers == map[] && remainingUsers == map[]
      ensures sessionVotes == map[] && sessionUsersVoted == map[] && broadcasts == []
    {
      this.repo := repo;
      yoNuncaNuncaQuestions, culturaPendejas, preguntasIncomodas := map[], map[], map[];
      quienEsMasProbableQuestions, sessionUsers, remainingUsers := map[], map[], map[];
      sessionVotes, sessionUsersVoted := map[], map[];
      broadcasts := [];
    }

    /** The members of the session stored under the code, as a frame. */
    function Members(code: string): set<User>
      reads repo`sessions, repo.SessionAt(code)
    {
      if code in repo.sessions then set u | u in repo.sessions[code].users else {}
    }

    // -------------------------------------------------------------------------
    // The submitted-question round machine

    /** `startGame`: marks the session started. */
    method StartGame(code: string) returns (r: Result<()>)
      modifies repo.SessionAt(code)`gameStarted
      ensures code !in repo.sessions ==> r == Err(IllegalArgument(InvalidSessionCode))
      ensures code in repo.sessions ==> r == Ok(()) && repo.sessions[code].gameStarted
    {
      if code !in repo.sessions {
        return Err(IllegalArgument(InvalidSessionCode));
      }
      repo.sessions[code].gameStarted := true;
      r := Ok(());
    }

    /**
     * `startPreguntasDirectas`: starts the game with a fresh round waiting for
     * questions and every member not ready. The shown set is emptied and then
     * given the id of the session's first stored question, whichever round
     * that question belongs to; the question index is left as it was.
     */
    method StartPreguntasDirectas(code: string, newRoundId: string) returns (r: Result<()>)
      modifies repo.SessionAt(code)`gameStarted, repo.SessionAt(code)`currentGame
      modifies repo.SessionAt(code)`currentRoundId, repo.SessionAt(code)`roundStatus
      modifies repo.SessionAt(code)`shownQuestions, Members(code)`ready
      ensures code !in repo.sessions ==> r == Err(IllegalArgument(InvalidSessionCode))
      ensures code in repo.sessions ==>
                var s := repo.sessions[code];
                && r == Ok(())
                && s.gameStarted && s.currentGame == Some(PreguntasDirectas)
                && s.currentRoundId == Some(newRoundId) && s.roundStatus == Some(WaitingQuestions)
                && NoneReady(s.users)
                && s.shownQuestions == (if s.questions == [] then {} else {s.questions[0].id})
                && s.currentQuestionIndex == old(s.currentQuestionIndex)
      ensures forall u | u in Members(code) ::
                u.username == old(u.username) && u.sessionToken == old(u.sessionToken) && u.gameSession == old(u.gameSession)
    {
      if code !in repo.sessions {
        return Err(IllegalArgument(InvalidSessionCode));
      }
      var s := repo.sessions[code];
      s.gameStarted := true;
      s.currentGame := Some(PreguntasDirectas);
      s.currentRoundId := Some(newRoundId);
      s.roundStatus := Some(WaitingQuestions);
      ClearReady(s.users);
      s.SetShownQuestions({});
      if s.questions != [] {
        s.MarkShown(s.questions[0].id);
      }
      r := Ok(());
    }

    /**
     * `startNewRound`: a fresh round of the submitted-question game waiting
     * for questions, nothing shown, index 0 and every member not ready. Since
     * the id is fresh, the new round holds no question yet.
     */
    method StartNewRound(code: string, newRoundId: string) returns (r: Result<RoundStart>)
      modifies repo.SessionAt(code)`currentGame, repo.SessionAt(code)`currentRoundId
      modifies repo.SessionAt(code)`roundStatus, repo.SessionAt(code)`shownQuestions
      modifies repo.SessionAt(code)`currentQuestionIndex, Members(code)`ready
      ensures code !in repo.sessions ==> r == Err(IllegalArgument(InvalidSessionCode))
      ensures code in repo.sessions ==>
                var s := repo.sessions[code];
                && r == Ok(RoundStart(newRoundId, WaitingQuestions, NewRoundMessage))
                && s.currentRoundId == Some(r.value.roundId)
                && s.roundStatus == Some(WaitingQuestions) && s.currentGame == Some(PreguntasDirectas)
                && s.shownQuestions == {} && s.currentQuestionIndex == 0
                && NoneReady(s.users)
                && GamePhase(s.roundStatus) == "WAITING_QUESTIONS"
                && ((forall q | q in s.questions :: q.roundId != Some(newRoundId)) ==>
                      RoundQuestions(s.questions, s.currentRoundId) == [])
      ensures forall u | u in Members(code) ::
                u.username == old(u.username) && u.sessionToken == old(u.sessionToken) && u.gameSession == old(u.gameSession)
    {
      if code !in repo.sessions {
        return Err(IllegalArgument(InvalidSessionCode));
      }
      var s := repo.sessions[code];
      s.currentRoundId := Some(newRoundId);
      s.roundStatus := Some(WaitingQuestions);
      s.currentGame := Some(PreguntasDirectas);
      ClearReady(s.users);
      s.SetShownQuestions({});
      s.currentQuestionIndex := 0;
      r := Ok(RoundStart(newRoundId, WaitingQuestions, NewRoundMessage));
    }

    /**
     * `saveQuestion`: while the submitted-question game is on, a question is
     * only accepted in a round that waits for questions. The question is
     * stored with a new id, attached to the session and tagged with the
     * current round, so it belongs to that round from then on.
     */
    method SaveQuestion(code: string, fromUser: string, toUser: string, text: string, anonymous: bool) returns (r: Result<()>)
      modifies repo`nextQuestionId, repo.SessionAt(code)`questions
      ensures code !in repo.sessions ==> r == Err(IllegalArgument(InvalidSessionCode))
      ensures code in repo.sessions ==>
                var s := repo.sessions[code];
                if s.currentGame == Some(PreguntasDirectas) && s.currentRoundId.None? then
                  r == Err(IllegalState("No hay una ronda activa. Inicia el juego primero."))
                else if s.currentGame == Some(PreguntasDirectas) && s.roundStatus != Some(WaitingQuestions) then
                  r == Err(IllegalState("La ronda ya ha iniciado. No se pueden enviar más preguntas."))
                else
                  && r == Ok(())
                  && |s.questions| == |old(s.questions)| + 1
                  && s.questions[..|old(s.questions)|] == old(s.questions)
                  && var q := s.questions[|old(s.questions)|];
                     && fresh(q) && q.id == old(repo.nextQuestionId)
                     && q.fromUser == fromUser && q.toUser == toUser && q.question == text
                     && q.anonymous == anonymous && q.roundId == s.currentRoundId && q.gameSession == s
                     && (s.currentRoundId.Some? ==> q in RoundQuestions(s.questions, s.currentRoundId))
      ensures r.Err? ==> repo.nextQuestionId == old(repo.nextQuestionId)
      ensures r.Err? ==> forall s | s in repo.SessionAt(code) :: s.questions == old(s.questions)
    {
      if code !in repo.sessions {
        return Err(IllegalArgument(InvalidSessionCode));
      }
      var s := repo.sessions[code];
      if s.currentGame == Some(PreguntasDirectas) {
        if s.currentRoundId.None? {
          return Err(IllegalState("No hay una ronda activa. Inicia el juego primero."));
        }
        if s.roundStatus != Some(WaitingQuestions) {
          return Err(IllegalState("La ronda ya ha iniciado. No se pueden enviar más preguntas."));
        }
      }
      var id := repo.NewQuestionId();
      var q := NewQuestion(id, fromUser, toUser, text, anonymous, s.currentRoundId);
      s.AddQuestion(q);
      assert q in s.questions;
      r := Ok(());
    }

    /** The question `saveQuestion` builds with `new Question()` and its setters, given its new id. */
    static method NewQuestion(id: nat, fromUser: string, toUser: string, text: string, anonymous: bool, roundId: Option<string>)
      returns (q: Question)
      ensures fresh(q) && q.id == id && q.gameSession == null
      ensures q.fromUser == fromUser && q.toUser == toUser && q.question == text
      ensures q.anonymous == anonymous && q.roundId == roundId
    {
      q := new Question.Empty();
      q.SetFromUser(fromUser);
      q.SetToUser(toUser);
      q.SetQuestion(text);
      q.SetAnonymous(anonymous);
      if roundId.Some? {
        q.SetRoundId(roundId);
      }
      q.id := id;
    }

    /**
     * `startRoundPlay`: a round waiting for questions that holds at least one
     * moves to in progress; otherwise nothing changes.
     */
    method StartRoundPlay(code: string) returns (r: Result<()>)
      modifies repo.SessionAt(code)`roundStatus
      ensures code !in repo.sessions ==> r == Err(IllegalArgument(InvalidSessionCode))
      ensures code in repo.sessions ==>
                var s := repo.sessions[code];
                if old(s.roundStatus) != Some(WaitingQuestions) then
                  r == Err(IllegalState("La ronda ya está en progreso o completada")) && s.roundStatus == old(s.roundStatus)
                else if RoundQuestions(s.questions, s.currentRoundId) == [] then
                  r == Err(IllegalState("No hay preguntas para jugar en esta ronda")) && s.roundStatus == old(s.roundStatus)
                else
                  r == Ok(()) && s.roundStatus == Some(InProgress) && GamePhase(s.roundStatus) == "SHOWING_QUESTIONS"
      ensures r.Ok? <==>
                code in repo.sessions && old(repo.sessions[code].roundStatus) == Some(WaitingQuestions) &&
                exists q | q in repo.sessions[code].questions :: q.roundId == repo.sessions[code].currentRoundId && q.roundId.Some?
    {
      if code !in repo.sessions {
        return Err(IllegalArgument(InvalidSessionCode));
      }
      var s := repo.sessions[code];
      if s.roundStatus != Some(WaitingQuestions) {
        return Err(IllegalState("La ronda ya está en progreso o completada"));
      }
      var round := RoundQuestions(s.questions, s.currentRoundId);
      if round == [] {
        return Err(IllegalState("No hay preguntas para jugar en esta ronda"));
      }
      assert round[0] in round;
      s.roundStatus := Some(InProgress);
      r := Ok(());
    }

    /**
     * `selectAndSetNextQuestion`: picks, among the current round's questions
     * not shown yet, one addressed to someone other than the last recipient
     * when there is one, marks it shown and sets the index to the shown count
     * minus one (a count, not the question's position in the round).
     */
    method SelectAndSetNextQuestion(code: string, lastToUser: Option<string>, choice: nat) returns (r: Result<Question>)
      modifies repo.SessionAt(code)`shownQuestions, repo.SessionAt(code)`currentQuestionIndex, this`broadcasts
      ensures code !in repo.sessions ==> r == Err(IllegalArgument(InvalidSessionCode)) && broadcasts == old(broadcasts)
      ensures code in repo.sessions ==>
                var s := repo.sessions[code];
                var round := old(RoundQuestions(s.questions, s.currentRoundId));
                var pick := old(PickNext(round, s.shownQuestions, lastToUser, choice));
                if round == [] then
                  && r == Err(IllegalArgument("No questions in current round"))
                  && broadcasts == old(broadcasts)
                  && s.shownQuestions == old(s.shownQuestions) && s.currentQuestionIndex == old(s.currentQuestionIndex)
                else if pick.None? then
                  && r == Err(IllegalState("All questions have been shown"))
                  && broadcasts == old(broadcasts) + [AllQuestionsShown(code)]
                  && s.shownQuestions == old(s.shownQuestions) && s.currentQuestionIndex == old(s.currentQuestionIndex)
                else
                  && r == Ok(pick.value)
                  && s.shownQuestions == old(s.shownQuestions + {pick.value.id})
                  && s.currentQuestionIndex == |s.shownQuestions| - 1
                  && broadcasts == old(broadcasts)
    {
      if code !in repo.sessions {
        return Err(IllegalArgument(InvalidSessionCode));
      }
      var s := repo.sessions[code];
      var round := RoundQuestions(s.questions, s.currentRoundId);
      if round == [] {
        return Err(IllegalArgument("No questions in current round"));
      }
      var pick := PickNext(round, s.shownQuestions, lastToUser, choice);
      if pick.None? {
        broadcasts := broadcasts + [AllQuestionsShown(code)];
        return Err(IllegalState("All questions have been shown"));
      }
      var next := pick.value;
      s.shownQuestions := s.shownQuestions + {next.id};
      s.currentQuestionIndex := |s.shownQuestions| - 1;
      r := Ok(next);
    }

    /** `getQuestionsForSession`: the current round's questions, sorted by id. */
    method GetQuestionsForSession(code: string) returns (r: Result<seq<Question>>)
      ensures code !in repo.sessions ==> r == Err(IllegalArgument(InvalidSessionCode))
      ensures code in repo.sessions ==>
                var s := repo.sessions[code];
                && r.Ok? && SortedById(r.value)
                && multiset(r.value) == multiset(RoundQuestions(s.questions, s.currentRoundId))
                && (forall q | q in r.value :: q in s.questions && q.roundId == s.currentRoundId)
    {
      if code !in repo.sessions {
        return Err(IllegalArgument(InvalidSessionCode));
      }
      var s := repo.sessions[code];
      var round := RoundQuestions(s.questions, s.currentRoundId);
      var sorted := SortById(round);
      SameMembers(sorted, round);
      r := Ok(sorted);
    }

    /**
     * `getCurrentQuestion`: the question at the current index of the round in
     * id order, which is then marked shown. Marking is idempotent: a question
     * already shown leaves the set as it was.
     */
    method GetCurrentQuestion(code: string) returns (r: Result<Question>)
      modifies repo.SessionAt(code)`shownQuestions
      ensures code !in repo.sessions ==> r == Err(IllegalArgument(InvalidSessionCode))
      ensures code in repo.sessions ==>
                var s := repo.sessions[code];
                var ordered := old(OrderedRound(s.questions, s.currentRoundId));
                if 0 <= s.currentQuestionIndex < |ordered| then
                  && r == Ok(ordered[s.currentQuestionIndex])
                  && r.value.roundId == s.currentRoundId
                  && s.shownQuestions == old(s.shownQuestions) + {r.value.id}
                  && (r.value.id in old(s.shownQuestions) ==> s.shownQuestions == old(s.shownQuestions))
                else
                  r == Err(IllegalArgument("Index out of range for current question.")) &&
                  s.shownQuestions == old(s.shownQuestions)
    {
      if code !in repo.sessions {
        return Err(IllegalArgument(InvalidSessionCode));
      }
      var s := repo.sessions[code];
      var ordered := OrderedRound(s.questions, s.currentRoundId);
      var index := s.currentQuestionIndex;
      if index < 0 || index >= |ordered| {
        return Err(IllegalArgument("Index out of range for current question."));
      }
      var current := ordered[index];
      assert current in ordered;
      if current.id !in s.shownQuestions {
        s.MarkShown(current.id);
      }
      r := Ok(current);
    }

    /** `getCurrentQuestionNumber`: the index, counted from one. */
    method GetCurrentQuestionNumber(code: string) returns (r: Result<int>)
      ensures code !in repo.sessions ==> r == Err(IllegalArgument(InvalidSessionCode))
      ensures code in repo.sessions ==> r.Ok? && r.value - 1 == repo.sessions[code].currentQuestionIndex
    {
      if code !in repo.sessions {
        return Err(IllegalArgument(InvalidSessionCode));
      }
      r := Ok(repo.sessions[code].currentQuestionIndex + 1);
    }

    /** `getTotalQuestions`: how many stored questions belong to the current round. */
    method GetTotalQuestions(code: string) returns (r: Result<nat>)
      ensures code !in repo.sessions ==> r == Err(IllegalArgument(InvalidSessionCode))
      ensures code in repo.sessions ==>
                var s := repo.sessions[code];
                && r.Ok? && r.value <= |s.questions|
                && r.value == |OrderedRound(s.questions, s.currentRoundId)|
                && (s.currentRoundId.None? ==> r.value == 0)
    {
      if code !in repo.sessions {
        return Err(IllegalArgument(InvalidSessionCode));
      }
      var s := repo.sessions[code];
      r := Ok(|RoundQuestions(s.questions, s.currentRoundId)|);
    }

    /** `resetUsersReady`: every member's flag goes down. */
    method ResetUsersReady(code: string) returns (r: Result<()>)
      modifies Members(code)`ready
      ensures code !in repo.sessions ==> r == Err(IllegalArgument(InvalidSessionCode))
      ensures code in repo.sessions ==> r == Ok(()) && NoneReady(repo.sessions[code].users)
      ensures forall u | u in Members(code) ::
                u.username == old(u.username) && u.sessionToken == old(u.sessionToken) && u.gameSession == old(u.gameSession)
    {
      if code !in repo.sessions {
        return Err(IllegalArgument(InvalidSessionCode));
      }
      ClearReady(repo.sessions[code].users);
      r := Ok(());
    }

    /** `endCurrentGame`: the session goes back to the lobby, so a sync carries no game state. */
    method EndCurrentGame(code: string) returns (r: Result<GameSession>)
      modifies repo.SessionAt(code)`currentGame, repo.SessionAt(code)`currentRoundId, repo.SessionAt(code)`roundStatus
      ensures code !in repo.sessions ==> r == Err(IllegalArgument("Sesión no encontrada"))
      ensures code in repo.sessions ==>
                var s := repo.sessions[code];
                && r == Ok(s)
                && s.currentGame.None? && s.currentRoundId.None? && s.roundStatus.None?
                && SessionSyncOf(s).gameState.None?
    {
      if code !in repo.sessions {
        return Err(IllegalArgument("Sesión no encontrada"));
      }
      var s := repo.sessions[code];
      s.currentGame, s.currentRoundId, s.roundStatus := None, None, None;
      r := Ok(s);
    }

    /** `getSessionSync`: the resynchronisation snapshot of an existing session. */
    method GetSessionSync(code: string) returns (r: Result<SessionSync>)
      ensures code !in repo.sessions ==> r == Err(IllegalArgument("Session not found: " + code))
      ensures code in repo.sessions ==>
                var s := repo.sessions[code];
                && r.Ok? && r.value.sessionCode == s.sessionCode && |r.value.users| == |s.users|
                && (r.value.gameState.Some? <==> s.currentGame.Some? && s.currentGame.value != "")
                && r.value == SessionSyncOf(s)
    {
      if code !in repo.sessions {
        return Err(IllegalArgument("Session not found: " + code));
      }
      r := Ok(SessionSyncOf(repo.sessions[code]));
    }

    // -------------------------------------------------------------------------
    // The prompt games: starting them and their per-session pools

    /**
     * `startYoNuncaNunca`: needs prompts in the bank and members in the
     * session; the session's pool becomes the whole bank shuffled and its
     * player list the members shuffled.
     */
    method StartYoNuncaNunca(code: string, questionShuffle: seq<nat>, userShuffle: seq<nat>) returns (r: Result<()>)
      modifies this`yoNuncaNuncaQuestions, this`sessionUsers, repo.SessionAt(code)`currentGame
      ensures code !in repo.sessions ==> r == Err(IllegalArgument(InvalidSessionCode))
      ensures code in repo.sessions && (repo.yoNuncaNunca == [] || repo.sessions[code].users == []) ==>
                r == Err(IllegalState("Not enough questions or users to start Yo Nunca Nunca."))
      ensures r.Err? ==>
                yoNuncaNuncaQuestions == old(yoNuncaNuncaQuestions) && sessionUsers == old(sessionUsers) &&
                forall s | s in repo.SessionAt(code) :: s.currentGame == old(s.currentGame)
      ensures r.Ok? ==>
                var s := repo.sessions[code];
                && code in repo.sessions && repo.yoNuncaNunca != [] && s.users != []
                && code in yoNuncaNuncaQuestions && yoNuncaNuncaQuestions == old(yoNuncaNuncaQuestions)[code := yoNuncaNuncaQuestions[code]]
                && multiset(yoNuncaNuncaQuestions[code]) == multiset(repo.yoNuncaNunca)
                && code in sessionUsers && sessionUsers == old(sessionUsers)[code := sessionUsers[code]]
                && multiset(sessionUsers[code]) == multiset(s.users)
                && s.currentGame == Some(YoNuncaNunca)
    {
      if code !in repo.sessions {
        return Err(IllegalArgument(InvalidSessionCode));
      }
      var s := repo.sessions[code];
      if repo.yoNuncaNunca == [] || s.users == [] {
        return Err(IllegalState("Not enough questions or users to start Yo Nunca Nunca."));
      }
      yoNuncaNuncaQuestions := yoNuncaNuncaQuestions[code := Shuffle(repo.yoNuncaNunca, questionShuffle)];
      sessionUsers := sessionUsers[code := Shuffle(s.users, userShuffle)];
      s.currentGame := Some(YoNuncaNunca);
      r := Ok(());
    }

    /** `startCulturaPendeja`: as `startYoNuncaNunca`, over the Cultura Pendeja bank. */
    method StartCulturaPendeja(code: string, questionShuffle: seq<nat>, userShuffle: seq<nat>) returns (r: Result<()>)
      modifies this`culturaPendejas, this`sessionUsers, repo.SessionAt(code)`currentGame
      ensures code !in repo.sessions ==> r == Err(IllegalArgument(InvalidSessionCode))
      ensures code in repo.sessions && (repo.culturaPendeja == [] || repo.sessions[code].users == []) ==>
                r == Err(IllegalState("Not enough questions or users to start Cultura Pendeja."))
      ensures r.Err? ==>
                culturaPendejas == old(culturaPendejas) && sessionUsers == old(sessionUsers) &&
                forall s | s in repo.SessionAt(code) :: s.currentGame == old(s.currentGame)
      ensures r.Ok? ==>
                var s := repo.sessions[code];
                && code in repo.sessions && repo.culturaPendeja != [] && s.users != []
                && code in culturaPendejas && culturaPendejas == old(culturaPendejas)[code := culturaPendejas[code]]
                && multiset(culturaPendejas[code]) == multiset(repo.culturaPendeja)
                && code in sessionUsers && sessionUsers == old(sessionUsers)[code := sessionUsers[code]]
                && multiset(sessionUsers[code]) == multiset(s.users)
                && s.currentGame == Some(CulturaPendeja)
    {
      if code !in repo.sessions {
        return Err(IllegalArgument(InvalidSessionCode));
      }
      var s := repo.sessions[code];
      if repo.culturaPendeja == [] || s.users == [] {
        return Err(IllegalState("Not enough questions or users to start Cultura Pendeja."));
      }
      culturaPendejas := culturaPendejas[code := Shuffle(repo.culturaPendeja, questionShuffle)];
      sessionUsers := sessionUsers[code := Shuffle(s.users, userShuffle)];
      s.currentGame := Some(CulturaPendeja);
      r := Ok(());
    }

    /**
     * `startQuienEsMasProbable`: as the other starts, with its own messages;
     * on any failure, an unknown session included, the session's pool and
     * player list are dropped.
     */
    method StartQuienEsMasProbable(code: string, questionShuffle: seq<nat>, userShuffle: seq<nat>) returns (r: Result<()>)
      modifies this`quienEsMasProbableQuestions, this`sessionUsers, repo.SessionAt(code)`currentGame
      ensures code !in repo.sessions ==> r == Err(IllegalArgument(InvalidSessionCode))
      ensures code in repo.sessions && repo.quienEsMasProbable == [] ==>
                r == Err(IllegalState("No questions available in the database."))
      ensures code in repo.sessions && repo.quienEsMasProbable != [] && repo.sessions[code].users == [] ==>
                r == Err(IllegalState("No users registered in the session."))
      ensures r.Err? ==>
                quienEsMasProbableQuestions == old(quienEsMasProbableQuestions) - {code} &&
                sessionUsers == old(sessionUsers) - {code} &&
                forall s | s in repo.SessionAt(code) :: s.currentGame == old(s.currentGame)
      ensures r.Ok? ==>
                var s := repo.sessions[code];
                && code in repo.sessions && repo.quienEsMasProbable != [] && s.users != []
                && code in quienEsMasProbableQuestions && quienEsMasProbableQuestions == old(quienEsMasProbableQuestions)[code := quienEsMasProbableQuestions[code]]
                && multiset(quienEsMasProbableQuestions[code]) == multiset(repo.quienEsMasProbable)
                && code in sessionUsers && sessionUsers == old(sessionUsers)[code := sessionUsers[code]]
                && multiset(sessionUsers[code]) == multiset(s.users)
                && s.currentGame == Some(QuienEsMasProbable)
    {
      if code !in repo.sessions {
        r := Err(IllegalArgument(InvalidSessionCode));
      } else if repo.quienEsMasProbable == [] {
        r := Err(IllegalState("No questions available in the database."));
      } else if repo.sessions[code].users == [] {
        r := Err(IllegalState("No users registered in the session."));
      } else {
        var s := repo.sessions[code];
        quienEsMasProbableQuestions := quienEsMasProbableQuestions[code := Shuffle(repo.quienEsMasProbable, questionShuffle)];
        sessionUsers := sessionUsers[code := Shuffle(s.users, userShuffle)];
        s.currentGame := Some(QuienEsMasProbable);
        return Ok(());
      }
      quienEsMasProbableQuestions := quienEsMasProbableQuestions - {code};
      sessionUsers := sessionUsers - {code};
    }

    /**
     * `startPreguntasIncomodas`: needs prompts and members; the pool is the
     * bank shuffled, the player list the members as they are, and the session
     * enters a fresh round already in progress with every member not ready.
     */
    method StartPreguntasIncomodas(code: string, questionShuffle: seq<nat>, newRoundId: string) returns (r: Result<()>)
      modifies this`preguntasIncomodas, this`sessionUsers, this`broadcasts
      modifies repo.SessionAt(code)`currentGame, repo.SessionAt(code)`currentRoundId, repo.SessionAt(code)`roundStatus
      modifies Members(code)`ready
      ensures code !in repo.sessions ==> r == Err(IllegalArgument(InvalidSessionCode))
      ensures code in repo.sessions && (repo.preguntasIncomodas == [] || repo.sessions[code].users == []) ==>
                r == Err(IllegalState("Not enough questions or users to start Preguntas Incómodas."))
      ensures r.Err? ==>
                preguntasIncomodas == old(preguntasIncomodas) && sessionUsers == old(sessionUsers) &&
                broadcasts == old(broadcasts) &&
                (forall s | s in repo.SessionAt(code) ::
                   s.currentGame == old(s.currentGame) && s.currentRoundId == old(s.currentRoundId) &&
                   s.roundStatus == old(s.roundStatus)) &&
                forall u | u in Members(code) :: u.ready == old(u.ready)
      ensures r.Ok? ==> code in repo.sessions && repo.preguntasIncomodas != [] && repo.sessions[code].users != []
      ensures r.Ok? ==>
                && code in preguntasIncomodas && preguntasIncomodas == old(preguntasIncomodas)[code := preguntasIncomodas[code]]
                && multiset(preguntasIncomodas[code]) == multiset(repo.preguntasIncomodas)
      ensures r.Ok? ==>
                var s := repo.sessions[code];
                && sessionUsers == old(sessionUsers)[code := s.users]
                && s.currentGame == Some(PreguntasIncomodas)
                && s.currentRoundId == Some(newRoundId) && s.roundStatus == Some(InProgress)
                && NoneReady(s.users)
                && broadcasts == old(broadcasts) + [PreguntasIncomodasStarted(code)]
      ensures forall u | u in Members(code) ::
                u.username == old(u.username) && u.sessionToken == old(u.sessionToken) && u.gameSession == old(u.gameSession)
    {
      if code !in repo.sessions {
        return Err(IllegalArgument(InvalidSessionCode));
      }
      var s := repo.sessions[code];
      if repo.preguntasIncomodas == [] || s.users == [] {
        return Err(IllegalState("Not enough questions or users to start Preguntas Incómodas."));
      }
      preguntasIncomodas := preguntasIncomodas[code := Shuffle(repo.preguntasIncomodas, questionShuffle)];
      sessionUsers := sessionUsers[code := s.users];
      s.currentGame := Some(PreguntasIncomodas);
      s.currentRoundId := Some(newRoundId);
      s.roundStatus := Some(InProgress);
      ClearReady(s.users);
      broadcasts := broadcasts + [PreguntasIncomodasStarted(code)];
      r := Ok(());
    }

    /** `getNextYoNuncaNunca`: the next prompt of the session's pool (see NextFromSessionPool). */
    method GetNextYoNuncaNunca(code: string, tipo: string) returns (r: Result<BankEntry>)
      modifies this`yoNuncaNuncaQuestions
      ensures (r, yoNuncaNuncaQuestions) ==
              NextFromSessionPool(old(yoNuncaNuncaQuestions), code, FindByTipo(repo.yoNuncaNunca, tipo), Lookup(sessionUsers, code))
      ensures r.Ok? ==> r.value.tipo == tipo || code in old(yoNuncaNuncaQuestions)
    {
      var step := NextFromSessionPool(yoNuncaNuncaQuestions, code, FindByTipo(repo.yoNuncaNunca, tipo), Lookup(sessionUsers, code));
      if step.0.Ok? && code !in yoNuncaNuncaQuestions {
        assert step.0.value in FindByTipo(repo.yoNuncaNunca, tipo);
      }
      r, yoNuncaNuncaQuestions := step.0, step.1;
    }

    /** `getNextCulturaPendeja`: the next prompt of the session's pool (see NextFromSessionPool). */
    method GetNextCulturaPendeja(code: string, tipo: string) returns (r: Result<BankEntry>)
      modifies this`culturaPendejas
      ensures (r, culturaPendejas) ==
              NextFromSessionPool(old(culturaPendejas), code, FindByTipo(repo.culturaPendeja, tipo), Lookup(sessionUsers, code))
      ensures r.Ok? ==> r.value.tipo == tipo || code in old(culturaPendejas)
    {
      var step := NextFromSessionPool(culturaPendejas, code, FindByTipo(repo.culturaPendeja, tipo), Lookup(sessionUsers, code));
      if step.0.Ok? && code !in culturaPendejas {
        assert step.0.value in FindByTipo(repo.culturaPendeja, tipo);
      }
      r, culturaPendejas := step.0, step.1;
    }

    /**
     * `getRandomUser`: one draw without replacement from the session's
     * remaining players, created from and refilled with the session's player
     * list only when empty (see DrawOne, DrawMany and DrawsRepeatNobody).
     */
    method GetRandomUser(code: string, choice: nat) returns (r: Result<User>)
      modifies this`remainingUsers
      ensures var d := DrawOne(Lookup(old(remainingUsers), code), Lookup(sessionUsers, code), choice);
              && r == d.outcome
              && remainingUsers == (if d.left.Some? then old(remainingUsers)[code := d.left.value] else old(remainingUsers))
    {
      var d := DrawOne(Lookup(remainingUsers, code), Lookup(sessionUsers, code), choice);
      if d.left.Some? {
        remainingUsers := remainingUsers[code := d.left.value];
      }
      r := d.outcome;
    }

    /**
     * `getNextQuienEsMasProbable`: clears the vote, then takes the head of the
     * session's pool, created from the prompts of that type only if missing.
     * The prompt is consumed before the session and its members are checked.
     * A prompt holding `{player}` gets a drawn player's name in every
     * occurrence; any other prompt comes back as it is and nobody is drawn.
     */
    method GetNextQuienEsMasProbable(code: string, tipo: string, choice: nat) returns (r: Result<string>)
      requires Valid()
      modifies this`sessionVotes, this`sessionUsersVoted, this`quienEsMasProbableQuestions, this`remainingUsers
      ensures Valid()
      ensures sessionVotes == old(sessionVotes) - {code} && sessionUsersVoted == old(sessionUsersVoted) - {code}
      ensures var pool := if code in old(quienEsMasProbableQuestions) then old(quienEsMasProbableQuestions)[code]
                          else FindByTipo(repo.quienEsMasProbable, tipo);
              && (pool == [] ==>
                    r == Err(IllegalState(NoMoreQuestionsAvailable)) &&
                    quienEsMasProbableQuestions == old(quienEsMasProbableQuestions)[code := []] &&
                    remainingUsers == old(remainingUsers))
              && (pool != [] ==> quienEsMasProbableQuestions == old(quienEsMasProbableQuestions)[code := pool[1..]])
              && (pool != [] && code !in repo.sessions ==>
                    r == Err(IllegalArgument(InvalidSessionCode)) && remainingUsers == old(remainingUsers))
              && (pool != [] && code in repo.sessions && repo.sessions[code].users == [] ==>
                    r == Err(IllegalState(NoUsersAvailable)) && remainingUsers == old(remainingUsers))
              && (pool != [] && code in repo.sessions && repo.sessions[code].users != [] ==>
                    if !Contains(pool[0].texto, Placeholder) then
                      r == Ok(pool[0].texto) && remainingUsers == old(remainingUsers)
                    else
                      var d := DrawOne(Lookup(old(remainingUsers), code), Lookup(sessionUsers, code), choice);
                      && (d.outcome.Ok? ==> r == Ok(ReplacePlaceholder(pool[0].texto, d.outcome.value.username)))
                      && (d.outcome.Err? ==> r == Err(d.outcome.failure))
                      && remainingUsers == (if d.left.Some? then old(remainingUsers)[code := d.left.value] else old(remainingUsers)))
    {
      ClearVotes(code);
      if code !in quienEsMasProbableQuestions {
        quienEsMasProbableQuestions := quienEsMasProbableQuestions[code := FindByTipo(repo.quienEsMasProbable, tipo)];
      }
      var pool := quienEsMasProbableQuestions[code];
      if pool == [] {
        return Err(IllegalState(NoMoreQuestionsAvailable));
      }
      var prompt := pool[0];
      quienEsMasProbableQuestions := quienEsMasProbableQuestions[code := pool[1..]];
      if code !in repo.sessions {
        return Err(IllegalArgument(InvalidSessionCode));
      }
      if repo.sessions[code].users == [] {
        return Err(IllegalState(NoUsersAvailable));
      }
      if !Contains(prompt.texto, Placeholder) {
        return Ok(prompt.texto);
      }
      var drawn := GetRandomUser(code, choice);
      if drawn.Err? {
        return Err(drawn.failure);
      }
      r := Ok(ReplacePlaceholder(prompt.texto, drawn.value.username));
    }

    /**
     * `getNextPreguntasIncomodas`: from the session's queue (never created
     * here) removes the first prompt whose type matches ignoring case, the
     * rest keeping its order, and addresses it to a drawn player, whose name
     * replaces every `{player}`.
     */
    method GetNextPreguntasIncomodas(code: string, tipo: string, choice: nat) returns (r: Result<Prompt>)
      modifies this`preguntasIncomodas, this`remainingUsers, this`broadcasts
      ensures var queue, players := Lookup(old(preguntasIncomodas), code), Lookup(sessionUsers, code);
              if queue.None? || queue.value == [] then
                && r == Err(IllegalState(NoMoreQuestionsAvailable))
                && broadcasts == old(broadcasts) + [AllQuestionsShown(code)]
                && preguntasIncomodas == old(preguntasIncomodas) && remainingUsers == old(remainingUsers)
              else if players.None? || players.value == [] then
                && r == Err(IllegalState("No users in session."))
                && broadcasts == old(broadcasts)
                && preguntasIncomodas == old(preguntasIncomodas) && remainingUsers == old(remainingUsers)
              else if FirstOfTipo(queue.value, tipo).None? then
                && r == Err(IllegalState("No questions of specified type."))
                && broadcasts == old(broadcasts)
                && preguntasIncomodas == old(preguntasIncomodas) && remainingUsers == old(remainingUsers)
              else
                var k := FirstOfTipo(queue.value, tipo).value;
                var d := DrawOne(Lookup(old(remainingUsers), code), players, choice);
                && EqualsIgnoreCase(queue.value[k].tipo, tipo)
                && preguntasIncomodas == old(preguntasIncomodas)[code := RemoveAt(queue.value, k)]
                && d.outcome.Ok? && d.left.Some?
                && remainingUsers == old(remainingUsers)[code := d.left.value]
                && var text, to := ReplacePlaceholder(queue.value[k].texto, d.outcome.value.username), d.outcome.value.username;
                   && r == Ok(Prompt(text, to))
                   && broadcasts == old(broadcasts) + [NextQuestion(code, text, to)]
    {
      var queue := Lookup(preguntasIncomodas, code);
      var players := Lookup(sessionUsers, code);
      if queue.None? || queue.value == [] {
        broadcasts := broadcasts + [AllQuestionsShown(code)];
        return Err(IllegalState(NoMoreQuestionsAvailable));
      }
      if players.None? || players.value == [] {
        return Err(IllegalState("No users in session."));
      }
      var found := FirstOfTipo(queue.value, tipo);
      if found.None? {
        return Err(IllegalState("No questions of specified type."));
      }
      var k := found.value;
      var prompt := queue.value[k];
      preguntasIncomodas := preguntasIncomodas[code := RemoveAt(queue.value, k)];
      var drawn := GetRandomUser(code, choice);
      var to := drawn.value.username;
      var text := ReplacePlaceholder(prompt.texto, to);
      broadcasts := broadcasts + [NextQuestion(code, text, to)];
      r := Ok(Prompt(text, to));
    }

    // -------------------------------------------------------------------------
    // The vote of "Quién es más probable"

    /**
     * `checkAllUsersVoted`: false while the session has no voter set;
     * otherwise whether every member's username is in it, which holds
     * vacuously for a session without members.
     */
    method CheckAllUsersVoted(code: string) returns (r: Result<bool>)
      ensures code !in repo.sessions ==> r == Err(IllegalArgument(InvalidSessionCode))
      ensures code in repo.sessions ==>
                var members := repo.sessions[code].users;
                r == Ok(code in sessionUsersVoted && AllVoted(members, sessionUsersVoted[code]))
    {
      if code !in repo.sessions {
        return Err(IllegalArgument(InvalidSessionCode));
      }
      var members := repo.sessions[code].users;
      if code !in sessionUsersVoted {
        return Ok(false);
      }
      var voted := sessionUsersVoted[code];
      for i := 0 to |members|
        invariant forall j | 0 <= j < i :: members[j].username in voted
      {
        if members[i].username !in voted {
          return Ok(false);
        }
      }
      r := Ok(true);
    }

    /** `getVoteResults`: a username whose tally no other reaches beyond. */
    method GetVoteResults(code: string) returns (r: Result<string>)
      ensures code !in sessionVotes || sessionVotes[code] == map[] ==> r == Err(IllegalState("No votes registered."))
      ensures code in sessionVotes && sessionVotes[code] != map[] ==> r.Ok? && IsTop(sessionVotes[code], r.value)
    {
      if code !in sessionVotes || sessionVotes[code] == map[] {
        return Err(IllegalState("No votes registered."));
      }
      var votes := sessionVotes[code];
      var best :| best in votes;
      var left := votes.Keys - {best};
      while left != {}
        invariant best in votes && left <= votes.Keys
        invariant forall k | k in votes && k !in left :: votes[k] <= votes[best]
        decreases |left|
      {
        var k :| k in left;
        if votes[k] > votes[best] {
          best := k;
        }
        left := left - {k};
      }
      r := Ok(best);
    }

    /** `clearVotes`: the session's tally and voter set are both dropped. */
    method ClearVotes(code: string)
      requires Valid()
      modifies this`sessionVotes, this`sessionUsersVoted
      ensures Valid()
      ensures sessionVotes == old(sessionVotes) - {code} && sessionUsersVoted == old(sessionUsersVoted) - {code}
    {
      sessionVotes := sessionVotes - {code};
      sessionUsersVoted := sessionUsersVoted - {code};
    }

    /**
     * The first half of `registerVote`: both maps gain an empty entry for the
     * session if missing; a voter already in the set is refused, otherwise the
     * voted user's tally rises by one and the voter joins the set, so the
     * tally's total stays equal to the number of voters.
     */
    method RecordBallot(code: string, votingUser: string, votedUser: string) returns (accepted: bool)
      requires Valid()
      modifies this`sessionVotes, this`sessionUsersVoted
      ensures Valid()
      ensures var tally, voters := TallyOf(old(sessionVotes), code), VotersOf(old(sessionUsersVoted), code);
              && accepted == (votingUser !in voters)
              && sessionVotes == old(sessionVotes)[code := if accepted then AddVote(tally, votedUser) else tally]
              && sessionUsersVoted == old(sessionUsersVoted)[code := voters + {votingUser}]
    {
      var tally, voters := TallyOf(sessionVotes, code), VotersOf(sessionUsersVoted, code);
      assert Total(tally) == |voters|;
      accepted := votingUser !in voters;
      var tally' := tally;
      if accepted {
        AddVoteRaisesTotal(tally, votedUser);
        tally' := AddVote(tally, votedUser);
      } else {
        assert voters + {votingUser} == voters;
      }
      sessionVotes := sessionVotes[code := tally'];
      sessionUsersVoted := sessionUsersVoted[code := voters + {votingUser}];
    }

    /**
     * `registerVote`: records the ballot (see RecordBallot); the vote is
     * recorded before the session is looked up, and once every member has
     * voted a winner no one outvotes is broadcast.
     */
    method RegisterVote(code: string, votingUser: string, votedUser: string) returns (r: Result<()>)
      requires Valid()
      modifies this`sessionVotes, this`sessionUsersVoted, this`broadcasts
      ensures Valid()
      ensures var tally, voters := TallyOf(old(sessionVotes), code), VotersOf(old(sessionUsersVoted), code);
              && sessionUsersVoted == old(sessionUsersVoted)[code := voters + {votingUser}]
              && (votingUser in voters ==>
                    && r == Err(IllegalState("User has already voted."))
                    && sessionVotes == old(sessionVotes)[code := tally]
                    && broadcasts == old(broadcasts))
              && (votingUser !in voters ==>
                    && sessionVotes == old(sessionVotes)[code := AddVote(tally, votedUser)]
                    && (code !in repo.sessions ==> r == Err(IllegalArgument(InvalidSessionCode)) && broadcasts == old(broadcasts))
                    && (code in repo.sessions ==> r == Ok(())))
      ensures r.Ok? && !AllVoted(repo.sessions[code].users, sessionUsersVoted[code]) ==> broadcasts == old(broadcasts)
      ensures r.Ok? && AllVoted(repo.sessions[code].users, sessionUsersVoted[code]) ==>
                exists winner :: IsTop(sessionVotes[code], winner) &&
                  broadcasts == old(broadcasts) + [VoteCompleted(code, winner)]
    {
      var accepted := RecordBallot(code, votingUser, votedUser);
      if !accepted {
        return Err(IllegalState("User has already voted."));
      }
      var all := CheckAllUsersVoted(code);
      if all.Err? {
        return Err(all.failure);
      }
      if all.value {
        var winner := GetVoteResults(code);
        broadcasts := broadcasts + [VoteCompleted(code, winner.value)];
      }
      r := Ok(());
    }
  }
}
