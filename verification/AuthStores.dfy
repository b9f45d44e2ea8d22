/** The stores as objects over one database: each method does its statements in order and meets its one-step description. */
module AuthStores {
  import opened Wrappers
  import opened TextOrder
  import opened Timestamps
  import opened AuthTables
  import AuthRuns

  class Database {
    var users: map<int, User>
    var lastUserId: nat
    var bootstrapClaimed: bool
    var grants: set<(int, string)>
    var sessions: map<string, Session>
    var tokens: map<string, MagicToken>

    constructor ()
      ensures Contents() == EMPTY
    {
      users, lastUserId, bootstrapClaimed, grants, sessions, tokens := map[], 0, false, {}, map[], map[];
    }

    function Contents(): Tables
      reads this
    {
      Tables(users, lastUserId, bootstrapClaimed, grants, sessions, tokens)
    }

    /** INSERT INTO users ...; an AUTOINCREMENT id is never used twice. */
    method InsertUserRow(user: User) returns (id: Option<int>)
      modifies this
      ensures id.Some? <==> !UsernameTaken(old(Contents()), user.username)
      ensures id == None ==> Contents() == old(Contents())
      ensures id.Some? ==> id.value == old(lastUserId) + 1 == lastUserId
                           && Contents() == old(Contents()).(users := old(users)[id.value := user], lastUserId := lastUserId)
    {
      if UsernameTaken(Contents(), user.username) {
        return None;
      }
      lastUserId := lastUserId + 1;
      users := users[lastUserId := user];
      id := Some(lastUserId);
    }

    method InsertSessionRow(sid: string, session: Session) returns (ok: bool)
      modifies this`sessions
      ensures ok <==> sid !in old(sessions)
      ensures sessions == if ok then old(sessions)[sid := session] else old(sessions)
    {
      ok := sid !in sessions;
      if ok {
        sessions := sessions[sid := session];
      }
    }

    /** Everything since the saved contents is undone. */
    method Rollback(saved: Tables)
      modifies this
      ensures Contents() == saved
    {
      users, lastUserId, bootstrapClaimed := saved.users, saved.lastUserId, saved.bootstrapClaimed;
      grants, sessions, tokens := saved.grants, saved.sessions, saved.tokens;
    }
  }

  lemma CountsActive(t: Tables)
    ensures |ActiveUsers(t)| > 0 <==> exists id | id in t.users :: t.users[id].disabledAt == None
  {
    if id :| id in t.users && t.users[id].disabledAt == None {
      assert id in ActiveUsers(t);
    }
  }

  /** The sessions left after a cleanup, and the number of rows removed. */
  lemma CleanupLeaves(t: Tables, now: Instant)
    ensures var (left, r) := CleanupSessions(t, now);
            && (forall sid :: sid in left.sessions <==>
                  sid in t.sessions && t.sessions[sid].revokedAt == None && Less(Text(now), Text(t.sessions[sid].expiresAt)))
            && (forall sid | sid in left.sessions :: left.sessions[sid] == t.sessions[sid])
            && r == Removed(|t.sessions| - |left.sessions|)
            && left == t.(sessions := left.sessions, tokens := left.tokens)
  {
    hide Text, Less;
    var gone, left := Stale(t, now), CleanupSessions(t, now).0;
    assert left.sessions.Keys == t.sessions.Keys - gone && gone <= t.sessions.Keys;
    assert |left.sessions.Keys| == |t.sessions.Keys| - |gone|;
  }

  /** A token keeps its link exactly if the session it names was not deleted. */
  predicate OnlyUnlinked(before: MagicToken, after: MagicToken, had: map<string, Session>, left: map<string, Session>)
  {
    && after == before.(consumedBy := after.consumedBy)
    && after.consumedBy == if before.consumedBy.Some? && before.consumedBy.value in had && before.consumedBy.value !in left then None
                           else before.consumedBy
  }

  lemma CleanupUnlinks(t: Tables, now: Instant)
    ensures var left := CleanupSessions(t, now).0;
            && left.tokens.Keys == t.tokens.Keys
            && (forall h | h in left.tokens :: OnlyUnlinked(t.tokens[h], left.tokens[h], t.sessions, left.sessions))
  {
    hide Text, Less;
    var gone, left := Stale(t, now), CleanupSessions(t, now).0;
    assert forall sid :: sid in gone <==> sid in t.sessions && sid !in left.sessions;
  }

  class AuthStore {
    const db: Database
    const policy: SessionPolicy

    constructor (db: Database, policy: Policy)
      ensures this.db == db && this.policy == NormalizedPolicy(policy)
    {
      this.db, this.policy := db, NormalizedPolicy(policy);
    }

    method Bootstrap(username: string, password: string, now: Instant, sid: string, csrf: string) returns (r: Reply)
      modifies db
      ensures (db.Contents(), r) == AuthTables.Bootstrap(old(db.Contents()), username, password, now, sid, csrf, policy)
      ensures r == Refused(InvalidCredential) <==> username == "" || password == ""
      ensures r == Refused(BootstrapDisabled) <==>
              && username != "" && password != ""
              && (old(db.bootstrapClaimed) || exists id | id in old(db.users) :: old(db.users)[id].disabledAt == None)
      ensures r.Opened? ==> r == Opened(sid, old(db.lastUserId) + 1) && sid !in old(db.sessions)
      ensures r.Refused? ==> db.Contents() == old(db.Contents())
      ensures r.Opened? ==>
                && db.users == old(db.users)[r.userId := User(username, HashPassword(password), true, None, now)]
                && db.lastUserId == r.userId && db.bootstrapClaimed && db.tokens == old(db.tokens)
                && db.grants == old(db.grants) + {(r.userId, MANAGE)}
                && db.sessions == old(db.sessions)[sid := Session(r.userId, HashToken(csrf), now, now, now + policy.ttl, None)]
    {
      if username == "" || password == "" {
        return Refused(InvalidCredential);
      }
      var saved := db.Contents();
      CountsActive(saved);
      if |ActiveUsers(db.Contents())| > 0 || db.bootstrapClaimed {
        return Refused(BootstrapDisabled);
      }
      db.bootstrapClaimed := true;
      var id := db.InsertUserRow(User(username, HashPassword(password), true, None, now));
      if id == None {
        db.Rollback(saved);
        return Refused(ConstraintFailed);
      }
      db.grants := db.grants + {(id.value, MANAGE)};
      r := CreateSession(id.value, now, sid, csrf);
      if r.Refused? {
        db.Rollback(saved);
      }
    }

    method CreateSession(userId: int, now: Instant, sid: string, csrf: string) returns (r: Reply)
      modifies db`sessions
      ensures (db.Contents(), r) == OpenSession(old(db.Contents()), userId, now, sid, csrf, policy)
      ensures r == if sid in old(db.sessions) then Refused(ConstraintFailed) else Opened(sid, userId)
      ensures db.sessions == if sid in old(db.sessions) then old(db.sessions)
                             else old(db.sessions)[sid := Session(userId, HashToken(csrf), now, now, now + policy.ttl, None)]
    {
      var ok := db.InsertSessionRow(sid, Session(userId, HashToken(csrf), now, now, now + policy.ttl, None));
      r := if ok then Opened(sid, userId) else Refused(ConstraintFailed);
    }

    method LookupPasswordUser(username: string) returns (found: Option<int>)
      requires AuthRuns.UsersFit(db.Contents())
      ensures found == ActiveByName(db.Contents(), username)
    {
      if exists id :: id in db.users && Active(db.Contents(), id) && db.users[id].username == username {
        var id :| id in db.users && Active(db.Contents(), id) && db.users[id].username == username;
        found := Some(id);
      } else {
        found := None;
      }
    }

    method Login(username: string, password: string, now: Instant, sid: string, csrf: string) returns (r: Reply)
      requires AuthRuns.UsersFit(db.Contents())
      modifies db`sessions
      ensures (db.Contents(), r) == AuthTables.Login(old(db.Contents()), username, password, now, sid, csrf, policy)
      ensures r.Opened? ==>
                && r.sessionId == sid && sid !in old(db.sessions) && username != "" && password != "" && r.userId in db.users
                && db.users[r.userId].username == username && db.users[r.userId].disabledAt == None && db.users[r.userId].superAdmin
                && db.users[r.userId].passwordHash == HashPassword(password)
                && db.sessions == old(db.sessions)[sid := Session(r.userId, HashToken(csrf), now, now, now + policy.ttl, None)]
      ensures r.Refused? ==> db.sessions == old(db.sessions)
      ensures r == Refused(PasswordLoginDisabled) <==>
              && username != "" && password != ""
              && exists id | id in db.users ::
                   db.users[id].username == username && db.users[id].disabledAt == None && !db.users[id].superAdmin
      ensures r in {Opened(sid, if r.Opened? then r.userId else 0), Refused(PasswordLoginDisabled), Refused(InvalidCredential),
                    Refused(ConstraintFailed)}
    {
      if username == "" || password == "" {
        return Refused(InvalidCredential);
      }
      var found := LookupPasswordUser(username);
      if found == None {
        return Refused(InvalidCredential);
      }
      var user := db.users[found.value];
      if !user.superAdmin {
        return Refused(PasswordLoginDisabled);
      }
      if user.passwordHash == "" || user.passwordHash != HashPassword(password) {
        return Refused(InvalidCredential);
      }
      r := CreateSession(found.value, now, sid, csrf);
    }

    method LoginMagicToken(token: string, check: Instant, opening: Instant, consumed: Instant, sid: string, csrf: string)
      returns (r: Reply)
      modifies db
      ensures (db.Contents(), r) == AuthTables.LoginMagicToken(old(db.Contents()), token, check, opening, consumed, sid, csrf, policy)
      ensures var hash := HashToken(token);
              var redeemable := token != "" && hash in old(db.tokens)
                && old(db.tokens)[hash].consumedAt == None && old(db.tokens)[hash].revokedAt == None
                && old(db.tokens)[hash].userId in old(db.users) && old(db.users)[old(db.tokens)[hash].userId].disabledAt == None;
              && (r == Refused(InvalidCredential) <==> !redeemable)
              && (r == Refused(MagicTokenExpired) <==> redeemable && old(db.tokens)[hash].expiresAt <= check)
              && (r == Refused(ConstraintFailed) <==>
                    redeemable && check < old(db.tokens)[hash].expiresAt && sid in old(db.sessions))
              && (r.Opened? <==> redeemable && check < old(db.tokens)[hash].expiresAt && sid !in old(db.sessions))
              && (r.Opened? ==>
                    var userId := old(db.tokens)[hash].userId;
                    && r == Opened(sid, userId)
                    && db.sessions
                       == old(db.sessions)[sid := Session(userId, HashToken(csrf), opening, opening, opening + policy.ttl, None)]
                    && db.tokens
                       == old(db.tokens)[hash := old(db.tokens)[hash].(consumedAt := Some(consumed), consumedBy := Some(sid))])
      ensures r.Refused? ==> db.Contents() == old(db.Contents())
      ensures db.users == old(db.users) && db.grants == old(db.grants) && db.bootstrapClaimed == old(db.bootstrapClaimed)
    {
      var hash := HashToken(token);
      if token == "" || !Redeemable(db.Contents(), hash) {
        return Refused(InvalidCredential);
      }
      var row := db.tokens[hash];
      if !(check < row.expiresAt) {
        return Refused(MagicTokenExpired);
      }
      r := CreateSession(row.userId, opening, sid, csrf);
      if !r.Refused? {
        db.tokens := db.tokens[hash := row.(consumedAt := Some(consumed), consumedBy := Some(sid))];
      }
    }

    method ValidateSession(sid: string, check: Instant, touch: Instant) returns (r: Reply)
      modifies db`sessions
      ensures (db.Contents(), r) == AuthTables.ValidateSession(old(db.Contents()), sid, check, touch, policy)
      ensures var sessions := old(db.sessions);
              var accepted := sid != "" && sid in sessions && sessions[sid].revokedAt == None
                && sessions[sid].userId in db.users && db.users[sessions[sid].userId].disabledAt == None
                && check < sessions[sid].expiresAt && check < sessions[sid].lastSeenAt + policy.idle;
              if accepted then
                && r == Principal(sessions[sid].userId, db.users[sessions[sid].userId].username)
                && db.sessions == sessions[sid := sessions[sid].(lastSeenAt := touch)]
              else r == Refused(InvalidSession) && db.sessions == sessions
    {
      if sid == "" || !LiveSession(db.Contents(), sid) {
        return Refused(InvalidSession);
      }
      var session := db.sessions[sid];
      if !(check < session.expiresAt) || !(check < session.lastSeenAt + policy.idle) {
        return Refused(InvalidSession);
      }
      db.sessions := db.sessions[sid := session.(lastSeenAt := touch)];
      r := Principal(session.userId, db.users[session.userId].username);
    }

    method ValidateCSRF(sid: string, token: string, now: Instant) returns (r: Reply)
      ensures r == AuthTables.ValidateCSRF(db.Contents(), sid, token, now)
      ensures r == Done <==>
              && token != "" && sid in db.sessions && db.sessions[sid].revokedAt == None
              && Less(Text(now), Text(db.sessions[sid].expiresAt)) && db.sessions[sid].csrfHash == HashToken(token)
      ensures r in {Done, Refused(InvalidCSRF)}
    {
      if token == "" {
        return Refused(InvalidCSRF);
      }
      if sid !in db.sessions || db.sessions[sid].revokedAt.Some? || !Less(Text(now), Text(db.sessions[sid].expiresAt)) {
        return Refused(InvalidCSRF);
      }
      r := if db.sessions[sid].csrfHash == HashToken(token) then Done else Refused(InvalidCSRF);
    }

    method RevokeSession(sid: string, now: Instant) returns (r: Reply)
      modifies db`sessions
      ensures (db.Contents(), r) == AuthTables.RevokeSession(old(db.Contents()), sid, now)
      ensures r == Done <==> sid != "" && sid in old(db.sessions) && old(db.sessions)[sid].revokedAt == None
      ensures r in {Done, Refused(InvalidSession)}
      ensures db.sessions == if r == Done then old(db.sessions)[sid := old(db.sessions)[sid].(revokedAt := Some(now))]
                             else old(db.sessions)
    {
      if sid == "" {
        return Refused(InvalidSession);
      }
      var affected := sid in db.sessions && db.sessions[sid].revokedAt == None;
      if !affected {
        return Refused(InvalidSession);
      }
      db.sessions := db.sessions[sid := db.sessions[sid].(revokedAt := Some(now))];
      r := Done;
    }

    /** One DELETE; the foreign key from the tokens is ON DELETE SET NULL. */
    method CleanupExpiredAndRevokedSessions(now: Instant) returns (r: Reply)
      modifies db
      ensures (db.Contents(), r) == CleanupSessions(old(db.Contents()), now)
      ensures forall sid :: sid in db.sessions <==>
                && sid in old(db.sessions) && old(db.sessions)[sid].revokedAt == None
                && Less(Text(now), Text(old(db.sessions)[sid].expiresAt))
      ensures forall sid | sid in db.sessions :: db.sessions[sid] == old(db.sessions)[sid]
      ensures r == Removed(|old(db.sessions)| - |db.sessions|)
      ensures db.tokens.Keys == old(db.tokens).Keys
      ensures forall h | h in db.tokens :: OnlyUnlinked(old(db.tokens)[h], db.tokens[h], old(db.sessions), db.sessions)
      ensures db.users == old(db.users) && db.grants == old(db.grants) && db.bootstrapClaimed == old(db.bootstrapClaimed)
    {
      ghost var before := db.Contents();
      CleanupLeaves(before, now);
      CleanupUnlinks(before, now);
      var gone := Stale(db.Contents(), now);
      assert CleanupSessions(before, now) == (DeleteSessions(before, gone), Removed(|gone|));
      hide CleanupSessions, DeleteSessions, Stale, Text, Less, OnlyUnlinked;
      DeleteSessionRows(gone);
      r := Removed(|gone|);
    }

    /** The rows of these sessions go, and with them the links to them. */
    method DeleteSessionRows(gone: set<string>)
      modifies db
      ensures db.Contents() == DeleteSessions(old(db.Contents()), gone)
    {
      db.tokens := map h | h in db.tokens ::
        if db.tokens[h].consumedBy.Some? && db.tokens[h].consumedBy.value in gone
        then db.tokens[h].(consumedBy := None) else db.tokens[h];
      db.sessions := map sid | sid in db.sessions && sid !in gone :: db.sessions[sid];
      assert db.sessions == old(db.sessions) - gone;
      assert db.tokens == DeleteSessions(old(db.Contents()), gone).tokens;
    }
  }

  class IdentityStore {
    const db: Database

    constructor (db: Database)
      ensures this.db == db
    {
      this.db := db;
    }

    /** The new user is read back: active, plain, and under an id that was never used. */
    method CreateManagedUser(username: string, now: Instant) returns (r: Reply, created: Option<(int, User)>)
      modifies db
      ensures (db.Contents(), r) == AuthTables.CreateManagedUser(old(db.Contents()), username, now)
      ensures r == Refused(InvalidInput) <==> username == ""
      ensures r in {Done, Refused(InvalidInput), Refused(ConstraintFailed)}
      ensures r != Done ==> db.Contents() == old(db.Contents())
      ensures db.grants == old(db.grants) && db.sessions == old(db.sessions) && db.tokens == old(db.tokens)
      ensures r == Done <==> username != "" && !UsernameTaken(old(db.Contents()), username)
      ensures created == if r == Done then Some((old(db.lastUserId) + 1, User(username, "", false, None, now))) else None
      ensures created.Some? ==> db.users == old(db.users)[created.value.0 := created.value.1]
    {
      if username == "" {
        return Refused(InvalidInput), None;
      }
      var id := db.InsertUserRow(User(username, "", false, None, now));
      if id == None {
        return Refused(ConstraintFailed), None;
      }
      r, created := Done, Some((id.value, db.users[id.value]));
    }

    method PreventDisableLockout(id: int) returns (error: Option<AuthError>)
      ensures error == DisableGuard(db.Contents(), id)
    {
      if id !in db.users {
        return Some(UserNotFound);
      }
      if db.users[id].superAdmin {
        if |ActiveSuperAdmins(db.Contents())| <= 1 {
          return Some(SelfLockout);
        }
      }
      error := PreventManageLockout(id);
    }

    method PreventManageLockout(id: int) returns (error: Option<AuthError>)
      ensures error == if (id, MANAGE) in db.grants && |ActiveManagers(db.Contents())| <= 1 then Some(SelfLockout) else None
    {
      if (id, MANAGE) !in db.grants {
        return None;
      }
      error := if |ActiveManagers(db.Contents())| <= 1 then Some(SelfLockout) else None;
    }

    method DisableUser(id: int, now: Instant) returns (r: Reply)
      modifies db
      ensures (db.Contents(), r) == AuthTables.DisableUser(old(db.Contents()), id, now)
      ensures id !in old(db.users) ==> r == Refused(UserNotFound)
      ensures r == Refused(SelfLockout) <==>
              id in old(db.users)
              && ((old(db.users)[id].superAdmin && |ActiveSuperAdmins(old(db.Contents()))| <= 1)
                  || ((id, MANAGE) in old(db.grants) && |ActiveManagers(old(db.Contents()))| <= 1))
      ensures r in {Done, Refused(UserNotFound), Refused(SelfLockout)}
      ensures r != Done ==> db.Contents() == old(db.Contents())
      ensures r == Done ==>
                && id in old(db.users) && old(db.users)[id].disabledAt == None
                && db.users == old(db.users)[id := old(db.users)[id].(disabledAt := Some(now), updatedAt := now)]
                && db.sessions.Keys == old(db.sessions).Keys
                && (forall sid | sid in db.sessions ::
                      var before := old(db.sessions)[sid];
                      db.sessions[sid] == if before.userId == id && before.revokedAt == None then before.(revokedAt := Some(now))
                                          else before)
      ensures db.grants == old(db.grants) && db.tokens == old(db.tokens) && db.bootstrapClaimed == old(db.bootstrapClaimed)
    {
      var error := PreventDisableLockout(id);
      if error.Some? {
        return Refused(error.value);
      }
      var affected := db.users[id].disabledAt == None;
      if !affected {
        return Refused(UserNotFound);
      }
      db.users := db.users[id := db.users[id].(disabledAt := Some(now), updatedAt := now)];
      db.sessions := map sid | sid in db.sessions ::
        if db.sessions[sid].userId == id && db.sessions[sid].revokedAt == None
        then db.sessions[sid].(revokedAt := Some(now)) else db.sessions[sid];
      r := Done;
    }

    method EnableUser(id: int, now: Instant) returns (r: Reply)
      modifies db`users
      ensures (db.Contents(), r) == AuthTables.EnableUser(old(db.Contents()), id, now)
      ensures r == if id in old(db.users) then Done else Refused(UserNotFound)
      ensures r == Done ==> db.users == old(db.users)[id := old(db.users)[id].(disabledAt := None, updatedAt := now)]
      ensures r != Done ==> db.users == old(db.users)
    {
      if id !in db.users {
        return Refused(UserNotFound);
      }
      db.users := db.users[id := db.users[id].(disabledAt := None, updatedAt := now)];
      r := Done;
    }

    /** INSERT OR IGNORE: granting twice changes nothing. */
    method GrantCapability(id: int, capability: string) returns (r: Reply)
      modifies db`grants
      ensures (db.Contents(), r) == AuthTables.GrantCapability(old(db.Contents()), id, capability)
      ensures r == if capability !in CAPABILITIES then Refused(InvalidCapability)
                   else if id !in db.users then Refused(UserNotFound) else Done
      ensures db.grants == old(db.grants) + if r == Done then {(id, capability)} else {}
    {
      if capability !in CAPABILITIES {
        return Refused(InvalidCapability);
      }
      if id !in db.users {
        return Refused(UserNotFound);
      }
      if (id, capability) !in db.grants {
        db.grants := db.grants + {(id, capability)};
      }
      assert db.grants == old(db.grants) + {(id, capability)};
      r := Done;
    }

    method RevokeCapability(id: int, capability: string) returns (r: Reply)
      modifies db`grants
      ensures (db.Contents(), r) == AuthTables.RevokeCapability(old(db.Contents()), id, capability)
      ensures r == Refused(InvalidCapability) <==> capability !in CAPABILITIES
      ensures r == Refused(UserNotFound) <==> capability in CAPABILITIES && (id, capability) !in old(db.grants)
      ensures r == Refused(SelfLockout) <==>
              capability == MANAGE && (id, MANAGE) in old(db.grants) && |ActiveManagers(old(db.Contents()))| <= 1
      ensures r in {Done, Refused(InvalidCapability), Refused(UserNotFound), Refused(SelfLockout)}
      ensures db.grants == old(db.grants) - if r == Done then {(id, capability)} else {}
    {
      if capability !in CAPABILITIES {
        return Refused(InvalidCapability);
      }
      if capability == MANAGE {
        var error := PreventManageLockout(id);
        if error.Some? {
          return Refused(error.value);
        }
      }
      var affected := (id, capability) in db.grants;
      db.grants := db.grants - {(id, capability)};
      assert !affected ==> db.grants == old(db.grants);
      r := if affected then Done else Refused(UserNotFound);
    }

    method IssueMagicToken(userId: int, createdBy: int, ttl: int, token: string, now: Instant) returns (r: Reply)
      modifies db`tokens
      ensures (db.Contents(), r) == AuthTables.IssueMagicToken(old(db.Contents()), userId, createdBy, ttl, token, now)
      ensures r == Refused(InvalidInput) <==> ttl <= 0
      ensures r == Refused(UserNotFound) <==> ttl > 0 && userId !in db.users
      ensures r == Refused(UserDisabled) <==> ttl > 0 && userId in db.users && db.users[userId].disabledAt != None
      ensures r == Done <==>
              && ttl > 0 && userId in db.users && db.users[userId].disabledAt == None
              && createdBy in db.users && HashToken(token) !in old(db.tokens)
      ensures r in {Done, Refused(InvalidInput), Refused(UserNotFound), Refused(UserDisabled), Refused(ConstraintFailed)}
      ensures db.tokens == if r == Done then old(db.tokens)[HashToken(token) := MagicToken(userId, createdBy, now + ttl, None, None, None)]
                           else old(db.tokens)
    {
      if ttl <= 0 {
        return Refused(InvalidInput);
      }
      if userId !in db.users {
        return Refused(UserNotFound);
      }
      if db.users[userId].disabledAt.Some? {
        return Refused(UserDisabled);
      }
      if createdBy !in db.users || HashToken(token) in db.tokens {
        return Refused(ConstraintFailed);
      }
      db.tokens := db.tokens[HashToken(token) := MagicToken(userId, createdBy, now + ttl, None, None, None)];
      r := Done;
    }
  }

  /**
   Any one call on the two stores, in a state that a legal run can be in: the objects do what the run does, and
   are left in a state that the run's invariant describes.
   */
  method Serve(auth: AuthStore, identity: IdentityStore, op: AuthRuns.Op, ghost w: AuthRuns.World) returns (r: Reply)
    requires auth.db == identity.db && auth.db.Contents() == w.t
    requires AuthRuns.Inv(auth.policy, w) && AuthRuns.Legal(w, op)
    modifies auth.db
    ensures (auth.db.Contents(), r) == AuthRuns.Perform(auth.policy, w.t, op)
    ensures auth.db.Contents() == AuthRuns.Apply(auth.policy, w, op).t
    ensures AuthRuns.Inv(auth.policy, AuthRuns.Apply(auth.policy, w, op))
  {
    AuthRuns.ApplyKeepsInv(auth.policy, w, op);
    match op {
      case DoBootstrap(username, password, now, sid, csrf) => r := auth.Bootstrap(username, password, now, sid, csrf);
      case DoLogin(username, password, now, sid, csrf) => r := auth.Login(username, password, now, sid, csrf);
      case DoLoginMagic(token, now, opening, consumed, sid, csrf) =>
        r := auth.LoginMagicToken(token, now, opening, consumed, sid, csrf);
      case DoValidate(sid, now, touch) => r := auth.ValidateSession(sid, now, touch);
      case DoValidateCSRF(sid, csrf, now) => r := auth.ValidateCSRF(sid, csrf, now);
      case DoRevoke(sid, now) => r := auth.RevokeSession(sid, now);
      case DoCleanup(now) => r := auth.CleanupExpiredAndRevokedSessions(now);
      case DoCreateUser(username, now) =>
        var created;
        r, created := identity.CreateManagedUser(username, now);
      case DoDisable(id, now) => r := identity.DisableUser(id, now);
      case DoEnable(id, now) => r := identity.EnableUser(id, now);
      case DoGrant(id, capability, _) => r := identity.GrantCapability(id, capability);
      case DoRevokeCapability(id, capability, _) => r := identity.RevokeCapability(id, capability);
      case DoIssue(userId, createdBy, ttl, token, now) => r := identity.IssueMagicToken(userId, createdBy, ttl, token, now);
    }
  }
}
