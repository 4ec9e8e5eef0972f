/**
 * The Spring Data repositories the services use, as in-memory maps: sessions by
 * code, users by username, the identity counter of the question table, and
 * the four read-only banks of pre-authored prompts.
 */
module Store {
  import opened Outcomes
  import opened Entities
  import opened Pools

  class Repositories {
    /** GameSessionRepository, keyed by session code. */
    var sessions: map<string, GameSession>
    /** UserRepository, keyed by username (the column is unique). */
    var users: map<string, User>
    /** The next id the question table's identity column hands out. */
    var nextQuestionId: nat
    const yoNuncaNunca: seq<BankEntry>
    const culturaPendeja: seq<BankEntry>
    const quienEsMasProbable: seq<BankEntry>
    const preguntasIncomodas: seq<BankEntry>

    constructor (yoNuncaNunca: seq<BankEntry>, culturaPendeja: seq<BankEntry>,
                 quienEsMasProbable: seq<BankEntry>, preguntasIncomodas: seq<BankEntry>)
      ensures sessions == map[] && users == map[] && nextQuestionId == 1 && Valid()
      ensures this.yoNuncaNunca == yoNuncaNunca && this.culturaPendeja == culturaPendeja
      ensures this.quienEsMasProbable == quienEsMasProbable && this.preguntasIncomodas == preguntasIncomodas
    {
      sessions, users := map[], map[];
      nextQuestionId := 1;
      this.yoNuncaNunca, this.culturaPendeja := yoNuncaNunca, culturaPendeja;
      this.quienEsMasProbable, this.preguntasIncomodas := quienEsMasProbable, preguntasIncomodas;
    }

    /** The session stored under the code, as a frame. */
    function SessionAt(code: string): set<GameSession>
      reads this`sessions
    {
      if code in sessions then {sessions[code]} else {}
    }

    /** The user stored under the name, as a frame. */
    function UserAt(username: string): set<User>
      reads this`users
    {
      if username in users then {users[username]} else {}
    }

    /** The session the named user's session column points to, as a frame. */
    function HomeOf(username: string): set<GameSession>
      reads this`users, UserAt(username)`gameSession
    {
      if username in users && users[username].gameSession != null then {users[username].gameSession} else {}
    }

    /**
     * A session's member list as the database derives it: the users whose
     * session column names that session, each listed once, each a stored user.
     */
    predicate ListsOwnMembers(s: GameSession)
      reads this`users, s`users, (set u | u in s.users)`gameSession
    {
      NoRepeats(s.users) && forall u | u in s.users :: u.gameSession == s && u in users.Values
    }

    /**
     * What the database keeps true of membership: every stored session lists
     * its own members only, and a user is stored under its own (unique) name.
     * A user is therefore listed by one session at most.
     */
    predicate Valid()
      reads this`sessions, this`users, sessions.Values`users, users.Values`username
      reads (set s, u | s in sessions.Values && u in s.users :: u)`gameSession
    {
      && (forall n | n in users :: users[n].username == n)
      && (forall s | s in sessions.Values :: ListsOwnMembers(s))
    }

    /** While the store is consistent, a user is listed by one session at most. */
    lemma OneSessionPerUser(u: User, s: GameSession, t: GameSession)
      requires Valid() && s in sessions.Values && t in sessions.Values
      requires u in s.users && u in t.users
      ensures s == t
    {
      assert ListsOwnMembers(s) && ListsOwnMembers(t);
    }

    /** `findBySessionToken`: the username of a user holding the token, if any. */
    method FindUserByToken(token: string) returns (r: Option<string>)
      ensures r.Some? ==> r.value in users && users[r.value].sessionToken == token
      ensures r.None? ==> forall n :: n in users ==> users[n].sessionToken != token
    {
      if n :| n in users && users[n].sessionToken == token {
        r := Some(n);
      } else {
        r := None;
      }
    }

    /** `findByUsersContaining`: a session whose member list holds the user, if any. */
    method FindSessionContaining(user: User) returns (r: Option<GameSession>)
      ensures r.Some? ==> r.value in sessions.Values && user in r.value.users
      ensures r.None? ==> forall s :: s in sessions.Values ==> user !in s.users
    {
      if s :| s in sessions.Values && user in s.users {
        r := Some(s);
      } else {
        r := None;
      }
    }

    /** `userRepository.delete` of a user that no session lists any more. */
    method DeleteUser(name: string)
      requires Valid() && name in users
      requires forall s | s in sessions.Values :: users[name] !in s.users
      modifies this`users
      ensures Valid() && users == old(users) - {name}
    {
      ghost var before := users;
      label kept:
      users := users - {name};
      forall s | s in sessions.Values ensures ListsOwnMembers(s) {
        assert old@kept(ListsOwnMembers(s));
        forall u | u in s.users ensures u in users.Values {
          var k :| k in before && before[k] == u;
          assert users[k] == u;
        }
      }
    }

    /** Saving a new question: the identity column hands out the next id. */
    method NewQuestionId() returns (id: nat)
      modifies this`nextQuestionId
      ensures id == old(nextQuestionId) && nextQuestionId == id + 1
    {
      id := nextQuestionId;
      nextQuestionId := nextQuestionId + 1;
    }
  }
}
