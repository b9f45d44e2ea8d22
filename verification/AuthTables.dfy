/**
 The identity tables, and what each store method does to them as one step: internal/auth/store.go and
 internal/identity. Sessions and tokens keep instants; where SQL compares stored times it compares their text.
 */
module AuthTables {
  import opened Wrappers
  import opened TextOrder
  import opened Timestamps

  datatype User = User(username: string, passwordHash: string, superAdmin: bool, disabledAt: Option<Instant>, updatedAt: Instant)

  datatype Session = Session(userId: int, csrfHash: string, createdAt: Instant, lastSeenAt: Instant, expiresAt: Instant,
                             revokedAt: Option<Instant>)

  datatype MagicToken = MagicToken(userId: int, createdBy: int, expiresAt: Instant,
                                   consumedAt: Option<Instant>, consumedBy: Option<string>, revokedAt: Option<Instant>)

  datatype Tables = Tables(users: map<int, User>, lastUserId: nat, bootstrapClaimed: bool, grants: set<(int, string)>,
                           sessions: map<string, Session>, tokens: map<string, MagicToken>)

  const EMPTY := Tables(map[], 0, false, {}, map[], map[])

  datatype AuthError =
    | BootstrapDisabled | InvalidCredential | PasswordLoginDisabled | MagicTokenExpired | InvalidSession | InvalidCSRF
    | UserNotFound | UserDisabled | SelfLockout | InvalidCapability | InvalidInput | ConstraintFailed

  datatype Reply =
    | Refused(error: AuthError)
    | Opened(sessionId: string, userId: int)
    | Principal(id: int, username: string)
    | Removed(count: nat)
    | Done

  datatype Policy = Policy(ttl: int, idle: int)

  const DEFAULT_TTL: int := 12 * 3600 * SECOND
  const DEFAULT_IDLE: int := 30 * 60 * SECOND

  /** A store never works with a bound that is not positive. */
  function NormalizedPolicy(policy: Policy): (p: Policy)
    ensures p.ttl > 0 && p.idle > 0
    ensures policy.ttl > 0 ==> p.ttl == policy.ttl
    ensures policy.idle > 0 ==> p.idle == policy.idle
    ensures policy.ttl <= 0 ==> p.ttl == 43200 * SECOND
    ensures policy.idle <= 0 ==> p.idle == 1800 * SECOND
  {
    Policy(if policy.ttl <= 0 then DEFAULT_TTL else policy.ttl, if policy.idle <= 0 then DEFAULT_IDLE else policy.idle)
  }

  type SessionPolicy = p: Policy | p.ttl > 0 && p.idle > 0 witness Policy(1, 1)

  const MANAGE := "identity.users.manage"

  const CAPABILITIES := {
    "host.metrics.read", "host.disk.read", "host.services.read", "host.processes.read", "host.services.control",
    "audit.events.read", "jobs.read", "jobs.approve", "observability.metrics.read", MANAGE
  }

  /** Stands for SHA-256: distinct tokens have distinct hashes. */
  function HashToken(token: string): string
  {
    "sha256:" + token
  }

  /** Stands for bcrypt; never the empty string that marks a user without password. */
  function HashPassword(password: string): string
  {
    "bcrypt:" + password
  }

  // ---------------------------------------------------------------- queries

  predicate Active(t: Tables, id: int)
  {
    id in t.users && t.users[id].disabledAt == None
  }

  function ActiveUsers(t: Tables): set<int>
  {
    set id | id in t.users && Active(t, id)
  }

  function ActiveSuperAdmins(t: Tables): set<int>
  {
    set id | id in t.users && Active(t, id) && t.users[id].superAdmin
  }

  function ActiveManagers(t: Tables): set<int>
  {
    set id | id in t.users && Active(t, id) && (id, MANAGE) in t.grants
  }

  predicate UsernameTaken(t: Tables, username: string)
  {
    exists id | id in t.users :: t.users[id].username == username
  }

  /** The row SELECT ... WHERE username = ? AND disabled_at IS NULL finds; usernames are unique. */
  ghost function ActiveByName(t: Tables, username: string): (found: Option<int>)
    ensures found.Some? ==> Active(t, found.value) && t.users[found.value].username == username
    ensures found == None ==> forall id | Active(t, id) :: t.users[id].username != username
  {
    if id :| id in t.users && Active(t, id) && t.users[id].username == username then Some(id) else None
  }

  // ---------------------------------------------------------------- sessions

  function InsertUser(t: Tables, username: string, passwordHash: string, superAdmin: bool, now: Instant): Tables
  {
    t.(users := t.users[t.lastUserId + 1 := User(username, passwordHash, superAdmin, None, now)],
       lastUserId := t.lastUserId + 1)
  }

  /** txCreateSession: the random id is the primary key. */
  function OpenSession(t: Tables, userId: int, now: Instant, sid: string, csrf: string, policy: SessionPolicy): (Tables, Reply)
  {
    if sid in t.sessions then (t, Refused(ConstraintFailed))
    else (t.(sessions := t.sessions[sid := Session(userId, HashToken(csrf), now, now, now + policy.ttl, None)]),
          Opened(sid, userId))
  }

  function Bootstrap(t: Tables, username: string, password: string, now: Instant, sid: string, csrf: string,
                     policy: SessionPolicy): (Tables, Reply)
  {
    if username == "" || password == "" then (t, Refused(InvalidCredential))
    else if |ActiveUsers(t)| > 0 || t.bootstrapClaimed then (t, Refused(BootstrapDisabled))
    else if UsernameTaken(t, username) then (t, Refused(ConstraintFailed))
    else
      var created := InsertUser(t.(bootstrapClaimed := true), username, HashPassword(password), true, now);
      var granted := created.(grants := created.grants + {(created.lastUserId, MANAGE)});
      var (next, reply) := OpenSession(granted, created.lastUserId, now, sid, csrf, policy);
      if reply.Refused? then (t, reply) else (next, reply)
  }

  ghost function Login(t: Tables, username: string, password: string, now: Instant, sid: string, csrf: string,
                       policy: SessionPolicy): (Tables, Reply)
  {
    if username == "" || password == "" then (t, Refused(InvalidCredential))
    else match ActiveByName(t, username)
      case None => (t, Refused(InvalidCredential))
      case Some(id) =>
        if !t.users[id].superAdmin then (t, Refused(PasswordLoginDisabled))
        else if t.users[id].passwordHash != HashPassword(password) then (t, Refused(InvalidCredential))
        else OpenSession(t, id, now, sid, csrf, policy)
  }

  predicate Redeemable(t: Tables, hash: string)
  {
    hash in t.tokens && t.tokens[hash].consumedAt == None && t.tokens[hash].revokedAt == None
    && Active(t, t.tokens[hash].userId)
  }

  /** The expiry is checked, the session opened and the token consumed at three readings of the clock. */
  function LoginMagicToken(t: Tables, token: string, check: Instant, opening: Instant, consumed: Instant, sid: string, csrf: string,
                           policy: SessionPolicy): (Tables, Reply)
  {
    var hash := HashToken(token);
    if token == "" || !Redeemable(t, hash) then (t, Refused(InvalidCredential))
    else if t.tokens[hash].expiresAt <= check then (t, Refused(MagicTokenExpired))
    else
      var (next, reply) := OpenSession(t, t.tokens[hash].userId, opening, sid, csrf, policy);
      if reply.Refused? then (t, reply)
      else (next.(tokens := t.tokens[hash := t.tokens[hash].(consumedAt := Some(consumed), consumedBy := Some(sid))]), reply)
  }

  predicate LiveSession(t: Tables, sid: string)
  {
    sid in t.sessions && t.sessions[sid].revokedAt == None && Active(t, t.sessions[sid].userId)
  }

  predicate WithinBounds(session: Session, check: Instant, policy: SessionPolicy)
  {
    check < session.expiresAt && check < session.lastSeenAt + policy.idle
  }

  /** The bounds are checked at one reading of the clock, the touch is written with a later one. */
  function ValidateSession(t: Tables, sid: string, check: Instant, touch: Instant, policy: SessionPolicy): (Tables, Reply)
  {
    if sid == "" || !LiveSession(t, sid) || !WithinBounds(t.sessions[sid], check, policy) then (t, Refused(InvalidSession))
    else
      var userId := t.sessions[sid].userId;
      (t.(sessions := t.sessions[sid := t.sessions[sid].(lastSeenAt := touch)]), Principal(userId, t.users[userId].username))
  }

  /** Here SQL compares the stored text with the text of now. */
  function ValidateCSRF(t: Tables, sid: string, token: string, now: Instant): Reply
  {
    if token == "" || sid !in t.sessions || t.sessions[sid].revokedAt != None
       || !Less(Text(now), Text(t.sessions[sid].expiresAt)) || t.sessions[sid].csrfHash != HashToken(token)
    then Refused(InvalidCSRF) else Done
  }

  function RevokeSession(t: Tables, sid: string, now: Instant): (Tables, Reply)
  {
    if sid == "" || sid !in t.sessions || t.sessions[sid].revokedAt != None then (t, Refused(InvalidSession))
    else (t.(sessions := t.sessions[sid := t.sessions[sid].(revokedAt := Some(now))]), Done)
  }

  function Stale(t: Tables, now: Instant): set<string>
  {
    set sid | sid in t.sessions && (t.sessions[sid].revokedAt != None || !Less(Text(now), Text(t.sessions[sid].expiresAt)))
  }

  /** Deleting a session sets the link of the token it came from to NULL. */
  function DeleteSessions(t: Tables, gone: set<string>): Tables
  {
    t.(sessions := t.sessions - gone,
       tokens := map h | h in t.tokens ::
                   if t.tokens[h].consumedBy.Some? && t.tokens[h].consumedBy.value in gone
                   then t.tokens[h].(consumedBy := None) else t.tokens[h])
  }

  function CleanupSessions(t: Tables, now: Instant): (Tables, Reply)
  {
    (DeleteSessions(t, Stale(t, now)), Removed(|Stale(t, now)|))
  }

  // ---------------------------------------------------------------- identity

  function CreateManagedUser(t: Tables, username: string, now: Instant): (Tables, Reply)
  {
    if username == "" then (t, Refused(InvalidInput))
    else if UsernameTaken(t, username) then (t, Refused(ConstraintFailed))
    else (InsertUser(t, username, "", false, now), Done)
  }

  /** The guards of DisableUser, in their order. */
  function DisableGuard(t: Tables, id: int): Option<AuthError>
  {
    if id !in t.users then Some(UserNotFound)
    else if t.users[id].superAdmin && |ActiveSuperAdmins(t)| <= 1 then Some(SelfLockout)
    else if (id, MANAGE) in t.grants && |ActiveManagers(t)| <= 1 then Some(SelfLockout)
    else None
  }

  function RevokeSessionsOf(t: Tables, id: int, now: Instant): Tables
  {
    t.(sessions := map sid | sid in t.sessions ::
                     if t.sessions[sid].userId == id && t.sessions[sid].revokedAt == None
                     then t.sessions[sid].(revokedAt := Some(now)) else t.sessions[sid])
  }

  function DisableUser(t: Tables, id: int, now: Instant): (Tables, Reply)
  {
    match DisableGuard(t, id)
    case Some(error) => (t, Refused(error))
    case None =>
      if t.users[id].disabledAt != None then (t, Refused(UserNotFound))
      else (RevokeSessionsOf(t.(users := t.users[id := t.users[id].(disabledAt := Some(now), updatedAt := now)]), id, now), Done)
  }

  function EnableUser(t: Tables, id: int, now: Instant): (Tables, Reply)
  {
    if id !in t.users then (t, Refused(UserNotFound))
    else (t.(users := t.users[id := t.users[id].(disabledAt := None, updatedAt := now)]), Done)
  }

  function GrantCapability(t: Tables, id: int, capability: string): (Tables, Reply)
  {
    if capability !in CAPABILITIES then (t, Refused(InvalidCapability))
    else if id !in t.users then (t, Refused(UserNotFound))
    else (t.(grants := t.grants + {(id, capability)}), Done)
  }

  function RevokeCapability(t: Tables, id: int, capability: string): (Tables, Reply)
  {
    if capability !in CAPABILITIES then (t, Refused(InvalidCapability))
    else if capability == MANAGE && (id, MANAGE) in t.grants && |ActiveManagers(t)| <= 1 then (t, Refused(SelfLockout))
    else if (id, capability) !in t.grants then (t, Refused(UserNotFound))
    else (t.(grants := t.grants - {(id, capability)}), Done)
  }

  /** The token's hash is unique, and its creator must exist. */
  function IssueMagicToken(t: Tables, userId: int, createdBy: int, ttl: int, token: string, now: Instant): (Tables, Reply)
  {
    if ttl <= 0 then (t, Refused(InvalidInput))
    else if userId !in t.users then (t, Refused(UserNotFound))
    else if !Active(t, userId) then (t, Refused(UserDisabled))
    else if createdBy !in t.users || HashToken(token) in t.tokens then (t, Refused(ConstraintFailed))
    else (t.(tokens := t.tokens[HashToken(token) := MagicToken(userId, createdBy, now + ttl, None, None, None)]), Done)
  }
}
