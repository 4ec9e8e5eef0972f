/**
 * What a client is sent to resynchronise with a session (`getSessionSync`),
 * the phase derived from the round status, and the four-digit session code.
 */
module Sync {
  import opened Outcomes
  import opened Entities
  import opened Rounds

  /** `determineGamePhase`: the phase the client shows for a round status. */
  function GamePhase(roundStatus: Option<string>): (phase: string)
    ensures phase == "SHOWING_QUESTIONS" <==> roundStatus.None? || roundStatus == Some(InProgress)
    ensures phase == "WAITING_QUESTIONS" <==> roundStatus == Some(WaitingQuestions)
    ensures phase == "COMPLETED" <==> roundStatus == Some(Completed)
    ensures phase == "UNKNOWN" <==>
              roundStatus.Some? && roundStatus.value != WaitingQuestions &&
              roundStatus.value != InProgress && roundStatus.value != Completed
  {
    if roundStatus.None? then "SHOWING_QUESTIONS"
    else if roundStatus.value == WaitingQuestions then "WAITING_QUESTIONS"
    else if roundStatus.value == InProgress then "SHOWING_QUESTIONS"
    else if roundStatus.value == Completed then "COMPLETED"
    else "UNKNOWN"
  }

  datatype SyncUser = SyncUser(username: string, ready: bool, connected: bool, sessionToken: string)

  datatype GameState = GameState(status: string, roundId: Option<string>, phase: string)

  datatype SessionSync = SessionSync(
    sessionCode: string,
    creator: string,
    users: seq<SyncUser>,
    currentGame: Option<string>,
    gameState: Option<GameState>)

  /** The members as sent: every one reported connected. */
  function SyncUsers(members: seq<User>): (r: seq<SyncUser>)
    reads set u | u in members
    ensures |r| == |members|
    ensures forall i | 0 <= i < |members| ::
              r[i] == SyncUser(members[i].username, members[i].ready, true, members[i].sessionToken)
  {
    if members == [] then []
    else [SyncUser(members[0].username, members[0].ready, true, members[0].sessionToken)] + SyncUsers(members[1..])
  }

  /**
   * `getSessionSync` for a session that exists: a game state is included only
   * while a game is set and its name is not empty; a missing round status is
   * reported as in progress.
   */
  function SessionSyncOf(s: GameSession): (r: SessionSync)
    reads s, set u | u in s.users
    ensures r.sessionCode == s.sessionCode && r.creator == s.creatorName && r.currentGame == s.currentGame
    ensures r.users == SyncUsers(s.users)
    ensures r.gameState.Some? <==> s.currentGame.Some? && s.currentGame.value != ""
    ensures r.gameState.Some? ==>
              r.gameState.value.status == (if s.roundStatus.Some? then s.roundStatus.value else InProgress) &&
              r.gameState.value.roundId == s.currentRoundId &&
              r.gameState.value.phase == GamePhase(s.roundStatus)
  {
    var state :=
      if s.currentGame.Some? && s.currentGame.value != "" then
        Some(GameState(if s.roundStatus.Some? then s.roundStatus.value else InProgress,
                       s.currentRoundId, GamePhase(s.roundStatus)))
      else None;
    SessionSync(s.sessionCode, s.creatorName, SyncUsers(s.users), s.currentGame, state)
  }

  // ---------------------------------------------------------------------------
  // `generateSessionCode`: `String.valueOf(1000 + random.nextInt(9000))`

  predicate AllDigits(s: string)
  {
    forall i | 0 <= i < |s| :: '0' <= s[i] <= '9'
  }

  /** The number a string of decimal digits denotes. */
  function DecimalValue(s: string): int
  {
    if s == [] then 0
    else 10 * DecimalValue(s[..|s| - 1]) + (s[|s| - 1] as int - '0' as int)
  }

  function DigitChar(d: nat): (c: char)
    requires d < 10
    ensures '0' <= c <= '9' && c as int - '0' as int == d
  {
    ('0' as int + d) as char
  }

  /** The value of four decimal digits. */
  lemma DecimalValueOfFour(a: char, b: char, c: char, d: char)
    ensures DecimalValue([a, b, c, d]) ==
              1000 * (a as int - '0' as int) + 100 * (b as int - '0' as int) + 10 * (c as int - '0' as int) + (d as int - '0' as int)
  {
    assert [a][..0] == [];
    assert DecimalValue([a]) == a as int - '0' as int;
    assert [a, b][..1] == [a];
    assert DecimalValue([a, b]) == 10 * (a as int - '0' as int) + (b as int - '0' as int);
    assert [a, b, c][..2] == [a, b];
    assert DecimalValue([a, b, c]) == 10 * DecimalValue([a, b]) + (c as int - '0' as int);
    assert [a, b, c, d][..3] == [a, b, c];
  }

  /** The code drawn with `nextInt` returning `choice % 9000`: four digits, no leading zero. */
  function SessionCode(choice: nat): (code: string)
    ensures |code| == 4 && AllDigits(code) && code[0] != '0'
    ensures DecimalValue(code) == 1000 + choice % 9000
  {
    var n := 1000 + choice % 9000;
    var m := n % 1000;
    var m' := m % 100;
    var a, b, c, d := DigitChar(n / 1000), DigitChar(m / 100), DigitChar(m' / 10), DigitChar(m' % 10);
    DecimalValueOfFour(a, b, c, d);
    [a, b, c, d]
  }

  /**
   * Nothing checks the code against the sessions that exist: two draws give the
   * same code exactly when they agree modulo 9000.
   */
  lemma {:induction false} SessionCodesCollide(a: nat, b: nat)
    ensures SessionCode(a) == SessionCode(b) <==> a % 9000 == b % 9000
  {
    if SessionCode(a) == SessionCode(b) {
      assert DecimalValue(SessionCode(a)) == DecimalValue(SessionCode(b));
    }
  }
}
