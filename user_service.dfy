/**
 * UserService: registration, joining a session by code, logout, and the
 * ready flag players raise between rounds.
 */
module Users {
  import opened Outcomes
  import opened Entities
  import opened Store
  import opened Pools

  /** The session part of the answer of `setUserReadyWithRoundInfo`. */
  datatype RoundReadiness = RoundReadiness(
    sessionCode: string,
    roundId: Option<string>,
    roundStatus: Option<string>,
    usersReady: nat,
    totalUsers: nat,
    allUsersReady: bool)

  /** The whole answer: the session part is there only for a player in a session. */
  datatype ReadyInfo = ReadyInfo(username: string, ready: bool, round: Option<RoundReadiness>)

  /** Some member of the list carries this username. */
  predicate HasMember(members: seq<User>, username: string)
    reads members`username
  {
    exists i | 0 <= i < |members| :: members[i].username == username
  }

  /** How many members have raised their ready flag. */
  function ReadyCount(members: seq<User>): (n: nat)
    reads members`ready
    ensures n <= |members|
  {
    if members == [] then 0
    else (if members[0].ready then 1 else 0) + ReadyCount(members[1..])
  }

  /** The count reaches the list's size exactly when every member is ready. */
  lemma {:induction false} ReadyCountAll(members: seq<User>)
    ensures ReadyCount(members) == |members| <==> forall i | 0 <= i < |members| :: members[i].ready
  {
    if members != [] {
      ReadyCountAll(members[1..]);
      if ReadyCount(members) == |members| {
        forall i | 0 <= i < |members| ensures members[i].ready {
          if i > 0 {
            assert members[i] == members[1..][i - 1];
          }
        }
      }
      if forall i | 0 <= i < |members| :: members[i].ready {
        forall i | 0 <= i < |members[1..]| ensures members[1..][i].ready {
          assert members[1..][i] == members[i + 1];
        }
      }
    }
  }

  /**
   * While the store is consistent, the by-name check of `joinSession` is a
   * check on the stored user itself: a session lists some member of that
   * name exactly when it lists the user stored under it.
   */
  lemma HasMemberIsStoredUser(repo: Repositories, s: GameSession, username: string)
    requires repo.Valid() && s in repo.sessions.Values && username in repo.users
    ensures HasMember(s.users, username) <==> repo.users[username] in s.users
  {
    var u := repo.users[username];
    if HasMember(s.users, username) {
      var i :| 0 <= i < |s.users| && s.users[i].username == username;
      var v := s.users[i];
      assert v in s.users;
      var n :| n in repo.users && repo.users[n] == v;
      assert n == username;
    }
    if u in s.users {
      var i :| 0 <= i < |s.users| && s.users[i] == u;
      assert s.users[i].username == username;
    }
  }

  class UserService {
    const repo: Repositories

    constructor (repo: Repositories)
      ensures this.repo == repo
    {
      this.repo := repo;
    }

    /** `registerUser`: a taken username is refused; otherwise a fresh, not-ready user is stored. */
    method RegisterUser(username: string, token: string) returns (r: Result<User>)
      requires repo.Valid()
      modifies repo`users
      ensures repo.Valid()
      ensures username in old(repo.users) ==>
                r == Err(IllegalArgument("El nombre de usuario ya está en uso.")) && repo.users == old(repo.users)
      ensures username !in old(repo.users) ==>
                r.Ok? && fresh(r.value) && repo.users == old(repo.users)[username := r.value] &&
                r.value.username == username && r.value.sessionToken == token &&
                !r.value.ready && r.value.gameSession == null
    {
      if username in repo.users {
        return Err(IllegalArgument("El nombre de usuario ya está en uso."));
      }
      var user := new User(username, token);
      ghost var before := repo.users;
      label stored:
      repo.users := repo.users[username := user];
      forall s | s in repo.sessions.Values ensures repo.ListsOwnMembers(s) {
        assert old@stored(repo.ListsOwnMembers(s));
        forall u | u in s.users ensures u in repo.users.Values {
          var k :| k in before && before[k] == u;
          assert repo.users[k] == u;
        }
      }
      r := Ok(user);
    }

    /**
     * `joinSession`: the code must name a session and the username a user, and
     * no member may already carry that username; then the user is linked to the
     * session and appended to its members. The member list of a session is
     * derived from its members' session column, so the user also leaves the
     * list of any other session that listed it: afterwards the session joined
     * is the only one listing it.
     */
    method JoinSession(code: string, username: string) returns (r: Result<()>)
      requires repo.Valid()
      modifies repo.sessions.Values`users, repo.UserAt(username)`gameSession
      ensures repo.Valid()
      ensures code !in repo.sessions ==> r == Err(IllegalArgument("Código de sesión inválido"))
      ensures code in repo.sessions && username !in repo.users ==> r == Err(IllegalArgument("Usuario no encontrado"))
      ensures r.Err? ==> forall s | s in repo.sessions.Values :: s.users == old(s.users)
      ensures r.Err? ==> forall u | u in repo.UserAt(username) :: u.gameSession == old(u.gameSession)
      ensures code in repo.sessions && username in repo.users ==>
                if old(HasMember(repo.sessions[code].users, username)) then
                  r == Err(IllegalArgument("El usuario ya está en la sesión"))
                else r == Ok(())
      ensures r.Ok? ==>
                && code in repo.sessions && username in repo.users
                && var s, u := repo.sessions[code], repo.users[username];
                   && s.users == old(s.users) + [u] && u.gameSession == s
                   && (forall t | t in repo.sessions.Values && t != s :: t.users == RemoveFirst(old(t.users), u) && u !in t.users)
    {
      if code !in repo.sessions {
        return Err(IllegalArgument("Código de sesión inválido"));
      }
      var session := repo.sessions[code];
      if username !in repo.users {
        return Err(IllegalArgument("Usuario no encontrado"));
      }
      var user := repo.users[username];
      if HasMember(session.users, username) {
        return Err(IllegalArgument("El usuario ya está en la sesión"));
      }
      HasMemberIsStoredUser(repo, session, username);
      Relink(user, session);
      r := Ok(());
    }

    /**
     * The user's session column now names the session: the user joins that
     * session's list and leaves the list of whichever session held it.
     */
    method Relink(user: User, session: GameSession)
      requires repo.Valid() && session in repo.sessions.Values && user in repo.users.Values
      requires user !in session.users
      modifies repo.sessions.Values`users, user`gameSession
      ensures repo.Valid()
      ensures session.users == old(session.users) + [user] && user.gameSession == session
      ensures forall t | t in repo.sessions.Values && t != session :: t.users == RemoveFirst(old(t.users), user) && user !in t.users
    {
      ghost var left: Option<GameSession>;
      left := RemoveUserFromSession(user);
      Enlist(user, session);
    }

    /**
     * `user.setGameSession(session)` and `session.addUser(user)` for a stored
     * user no session lists: the session's list gains the user, which now
     * points to it.
     */
    method Enlist(user: User, session: GameSession)
      requires repo.Valid() && session in repo.sessions.Values && user in repo.users.Values
      requires forall t | t in repo.sessions.Values :: user !in t.users
      modifies user`gameSession, session`users
      ensures repo.Valid()
      ensures session.users == old(session.users) + [user] && user.gameSession == session
    {
      label unlisted:
      user.SetGameSession(session);
      session.AddUser(user);
      forall t | t in repo.sessions.Values ensures repo.ListsOwnMembers(t) {
        assert old@unlisted(repo.ListsOwnMembers(t));
        if t == session {
          assert multiset(t.users) == old@unlisted(multiset(t.users)) + multiset{user};
        } else {
          assert t.users == old@unlisted(t.users);
        }
      }
    }

    /**
     * `logoutUser`: the user holding the token leaves the session whose member
     * list contains it, if any, and is deleted; afterwards no session lists
     * it. The ghost results name the user and the session left, to state what
     * changed.
     */
    method LogoutUser(token: string) returns (found: bool, ghost who: Option<User>, ghost left: Option<GameSession>)
      requires repo.Valid()
      modifies repo`users, repo.sessions.Values`users
      ensures repo.Valid()
      ensures found <==> exists n :: n in old(repo.users) && old(repo.users)[n].sessionToken == token
      ensures !found ==> who == None && left == None && repo.users == old(repo.users)
      ensures found ==> who.Some? && who.value.sessionToken == token &&
                        exists n :: n in old(repo.users) && old(repo.users)[n] == who.value && repo.users == old(repo.users) - {n}
      ensures found ==> forall s | s in repo.sessions.Values :: who.value !in s.users
      ensures left.Some? ==> who.Some? && left.value in repo.sessions.Values &&
                             who.value in old(left.value.users) &&
                             left.value.users == RemoveFirst(old(left.value.users), who.value)
      ensures forall s | s in repo.sessions.Values && left != Some(s) :: s.users == old(s.users)
    {
      var name := repo.FindUserByToken(token);
      if name.None? {
        return false, None, None;
      }
      var user := repo.users[name.value];
      left := RemoveUserFromSession(user);
      repo.DeleteUser(name.value);
      found, who := true, Some(user);
    }

    /**
     * `removeUserFromSession`: drops the user from the session found to list
     * it. Since a user is listed by one session at most, and once there,
     * afterwards no session lists it.
     */
    method RemoveUserFromSession(user: User) returns (ghost left: Option<GameSession>)
      requires repo.Valid()
      modifies repo.sessions.Values`users
      ensures repo.Valid()
      ensures forall s | s in repo.sessions.Values :: user !in s.users && s.users == RemoveFirst(old(s.users), user)
      ensures left.Some? ==> left.value in repo.sessions.Values && user in old(left.value.users) &&
                             left.value.users == RemoveFirst(old(left.value.users), user)
      ensures left.None? ==> forall s | s in repo.sessions.Values :: user !in old(s.users)
      ensures forall s | s in repo.sessions.Values && left != Some(s) :: s.users == old(s.users)
    {
      var session := repo.FindSessionContaining(user);
      if session.Some? {
        var s := session.value;
        assert repo.ListsOwnMembers(s);
        RemoveFirstLeavesNone(s.users, user);
        s.users := RemoveFirst(s.users, user);
        forall t | t in repo.sessions.Values
          ensures repo.ListsOwnMembers(t) && user !in t.users && t.users == RemoveFirst(old(t.users), user)
        {
          if t != s {
            assert old(repo.ListsOwnMembers(t));
          }
        }
      }
      left := session;
    }

    /** `setUserReady`: raises the flag of that one user. */
    method SetUserReady(username: string) returns (r: Result<()>)
      modifies repo.UserAt(username)`ready
      ensures username !in repo.users ==> r == Err(IllegalArgument("Usuario no encontrado"))
      ensures username in repo.users ==> r == Ok(()) && repo.users[username].ready
    {
      if username !in repo.users {
        return Err(IllegalArgument("Usuario no encontrado"));
      }
      repo.users[username].SetReady(true);
      r := Ok(());
    }

    /**
     * `setUserReadyWithRoundInfo`: raises the flag, then reports the session's
     * round and how many of its members are ready; everyone is ready when that
     * count equals the member count (see ReadyCountAll).
     */
    method SetUserReadyWithRoundInfo(username: string) returns (r: Result<ReadyInfo>)
      modifies repo.UserAt(username)`ready
      ensures username !in repo.users ==> r == Err(IllegalArgument("Usuario no encontrado"))
      ensures username in repo.users ==>
                var u := repo.users[username];
                u.ready && r.Ok? && r.value.username == username && r.value.ready &&
                (u.gameSession == null <==> r.value.round.None?) &&
                (u.gameSession != null ==>
                   var s, info := u.gameSession, r.value.round.value;
                   info.sessionCode == s.sessionCode && info.roundId == s.currentRoundId &&
                   info.roundStatus == s.roundStatus && info.totalUsers == |s.users| &&
                   info.usersReady == ReadyCount(s.users) &&
                   (info.allUsersReady <==> forall i | 0 <= i < |s.users| :: s.users[i].ready))
    {
      if username !in repo.users {
        return Err(IllegalArgument("Usuario no encontrado"));
      }
      var user := repo.users[username];
      user.SetReady(true);
      var round: Option<RoundReadiness> := None;
      if user.gameSession != null {
        var s := user.gameSession;
        var count := ReadyCount(s.users);
        ReadyCountAll(s.users);
        round := Some(RoundReadiness(s.sessionCode, s.currentRoundId, s.roundStatus,
                                     count, |s.users|, count == |s.users|));
      }
      r := Ok(ReadyInfo(username, true, round));
    }
  }
}
