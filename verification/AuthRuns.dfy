/** Sequences of store calls under a clock that never goes back: what they keep. */
module AuthRuns {
  import opened Wrappers
  import opened Timestamps
  import opened AuthTables

  datatype Op =
    | DoBootstrap(username: string, password: string, now: Instant, sid: string, csrf: string)
    | DoLogin(username: string, password: string, now: Instant, sid: string, csrf: string)
    | DoLoginMagic(token: string, now: Instant, opening: Instant, consumed: Instant, sid: string, csrf: string)
    | DoValidate(sid: string, now: Instant, touch: Instant)
    | DoValidateCSRF(sid: string, csrf: string, now: Instant)
    | DoRevoke(sid: string, now: Instant)
    | DoCleanup(now: Instant)
    | DoCreateUser(username: string, now: Instant)
    | DoDisable(id: int, now: Instant)
    | DoEnable(id: int, now: Instant)
    | DoGrant(id: int, capability: string, now: Instant)
    | DoRevokeCapability(id: int, capability: string, now: Instant)
    | DoIssue(userId: int, createdBy: int, ttl: int, token: string, now: Instant)

  /** One store call as one step. */
  ghost function Perform(policy: SessionPolicy, t: Tables, op: Op): (Tables, Reply)
  {
    match op
    case DoBootstrap(username, password, now, sid, csrf) => Bootstrap(t, username, password, now, sid, csrf, policy)
    case DoLogin(username, password, now, sid, csrf) => Login(t, username, password, now, sid, csrf, policy)
    case DoLoginMagic(token, now, opening, consumed, sid, csrf) =>
      LoginMagicToken(t, token, now, opening, consumed, sid, csrf, policy)
    case DoValidate(sid, now, touch) => ValidateSession(t, sid, now, touch, policy)
    case DoValidateCSRF(sid, csrf, now) => (t, ValidateCSRF(t, sid, csrf, now))
    case DoRevoke(sid, now) => RevokeSession(t, sid, now)
    case DoCleanup(now) => CleanupSessions(t, now)
    case DoCreateUser(username, now) => CreateManagedUser(t, username, now)
    case DoDisable(id, now) => DisableUser(t, id, now)
    case DoEnable(id, now) => EnableUser(t, id, now)
    case DoGrant(id, capability, _) => GrantCapability(t, id, capability)
    case DoRevokeCapability(id, capability, _) => RevokeCapability(t, id, capability)
    case DoIssue(userId, createdBy, ttl, token, now) => IssueMagicToken(t, userId, createdBy, ttl, token, now)
  }

  /** The last clock reading of a call. */
  function LastReading(op: Op): Instant
  {
    if op.DoValidate? then op.touch else if op.DoLoginMagic? then op.consumed else op.now
  }

  /** The reading that a call stores as the time it saw or opened its session. */
  function SeenAt(op: Op): Instant
  {
    if op.DoValidate? then op.touch else if op.DoLoginMagic? then op.opening else op.now
  }

  predicate OpensSession(op: Op)
  {
    op.DoBootstrap? || op.DoLogin? || op.DoLoginMagic?
  }

  /** The tables, the time, and the session ids that have ever been drawn. */
  datatype World = World(t: Tables, clock: Instant, issued: set<string>)

  const START := World(EMPTY, 0, {})

  /** The clock does not go back, and a drawn session id is non-empty and new. */
  predicate Legal(w: World, op: Op)
  {
    w.clock <= op.now <= SeenAt(op) <= LastReading(op) && (OpensSession(op) ==> op.sid != "" && op.sid !in w.issued)
  }

  ghost function Apply(policy: SessionPolicy, w: World, op: Op): World
  {
    World(Perform(policy, w.t, op).0, LastReading(op), if OpensSession(op) then w.issued + {op.sid} else w.issued)
  }

  ghost function After(policy: SessionPolicy, ops: seq<Op>): World
  {
    if ops == [] then START else Apply(policy, After(policy, ops[..|ops| - 1]), ops[|ops| - 1])
  }

  ghost predicate LegalRun(policy: SessionPolicy, ops: seq<Op>)
  {
    forall i | 0 <= i < |ops| :: Legal(After(policy, ops[..i]), ops[i])
  }

  ghost function ReplyAt(policy: SessionPolicy, ops: seq<Op>, i: nat): Reply
    requires i < |ops|
  {
    Perform(policy, After(policy, ops[..i]).t, ops[i]).1
  }

  // ---------------------------------------------------------------- the invariant

  predicate UsersFit(t: Tables)
  {
    && (forall id | id in t.users :: 1 <= id <= t.lastUserId)
    && (forall a, b | a in t.users && b in t.users && a != b :: t.users[a].username != t.users[b].username)
    && (forall g | g in t.grants :: g.0 in t.users)
    && (forall h | h in t.tokens :: t.tokens[h].userId in t.users)
  }

  /** A session that is not revoked belongs to an active user. */
  predicate SessionsFit(policy: SessionPolicy, w: World)
  {
    forall sid | sid in w.t.sessions ::
      var s := w.t.sessions[sid];
      && sid in w.issued && sid != "" && s.userId in w.t.users
      && s.createdAt <= s.lastSeenAt <= w.clock && s.expiresAt == s.createdAt + policy.ttl
      && (s.revokedAt == None ==> Active(w.t, s.userId))
  }

  function SuperAdmins(t: Tables): set<int>
  {
    set id | id in t.users && t.users[id].superAdmin
  }

  /** Before bootstrap there is no super admin; afterwards exactly one, active, and an active identity manager. */
  ghost predicate Governed(t: Tables)
  {
    if t.bootstrapClaimed then (exists a :: SuperAdmins(t) == {a} && Active(t, a)) && ActiveManagers(t) != {}
    else SuperAdmins(t) == {}
  }

  ghost predicate Inv(policy: SessionPolicy, w: World)
  {
    UsersFit(w.t) && SessionsFit(policy, w) && Governed(w.t)
  }

  // ---------------------------------------------------------------- steps keep it

  lemma InsertKeepsUsers(t: Tables, username: string, hash: string, superAdmin: bool, now: Instant)
    requires UsersFit(t) && !UsernameTaken(t, username)
    ensures UsersFit(InsertUser(t, username, hash, superAdmin, now))
    ensures forall id :: Active(t, id) ==> Active(InsertUser(t, username, hash, superAdmin, now), id)
    ensures SuperAdmins(InsertUser(t, username, hash, superAdmin, now))
         == SuperAdmins(t) + if superAdmin then {t.lastUserId + 1} else {}
    ensures ActiveManagers(InsertUser(t, username, hash, superAdmin, now)) == ActiveManagers(t)
  {
  }

  lemma BootstrapKeepsInv(policy: SessionPolicy, w: World, op: Op)
    requires Inv(policy, w) && Legal(w, op) && op.DoBootstrap?
    ensures Inv(policy, Apply(policy, w, op))
  {
    var w' := Apply(policy, w, op);
    if w'.t != w.t {
      var id := w.t.lastUserId + 1;
      InsertKeepsUsers(w.t.(bootstrapClaimed := true), op.username, HashPassword(op.password), true, op.now);
      assert SuperAdmins(w'.t) == {id} && Active(w'.t, id);
      assert id in ActiveManagers(w'.t);
    }
  }

  lemma LoginKeepsInv(policy: SessionPolicy, w: World, op: Op)
    requires Inv(policy, w) && Legal(w, op) && op.DoLogin?
    ensures Inv(policy, Apply(policy, w, op))
  {
    var w' := Apply(policy, w, op);
    SameGovernment(w.t, w'.t);
    if !Perform(policy, w.t, op).1.Refused? {
      SessionRowKeepsFit(policy, w, w', op.sid, w'.t.sessions[op.sid]);
    }
  }

  lemma LoginMagicKeepsInv(policy: SessionPolicy, w: World, op: Op)
    requires Inv(policy, w) && Legal(w, op) && op.DoLoginMagic?
    ensures Inv(policy, Apply(policy, w, op))
  {
    SameGovernment(w.t, Apply(policy, w, op).t);
  }

  /** Governance depends on users and grants only. */
  lemma SameGovernment(t: Tables, t': Tables)
    requires t'.users == t.users && t'.grants == t.grants && t'.bootstrapClaimed == t.bootstrapClaimed
    ensures Governed(t) <==> Governed(t')
    ensures forall id :: Active(t, id) <==> Active(t', id)
  {
    assert SuperAdmins(t) == SuperAdmins(t') && ActiveManagers(t) == ActiveManagers(t');
    assert forall id :: Active(t, id) <==> Active(t', id);
  }

  /** Writing one session row that fits, at a later time. */
  lemma SessionRowKeepsFit(policy: SessionPolicy, w: World, w': World, sid: string, s: Session)
    requires SessionsFit(policy, w)
    requires w'.t.users == w.t.users && w'.t.sessions == w.t.sessions[sid := s] && w.issued <= w'.issued && w.clock <= w'.clock
    requires sid in w'.issued && sid != "" && s.userId in w.t.users
    requires s.createdAt <= s.lastSeenAt <= w'.clock && s.expiresAt == s.createdAt + policy.ttl
    requires s.revokedAt == None ==> Active(w.t, s.userId)
    ensures SessionsFit(policy, w')
  {
    forall other | other in w'.t.sessions ensures w'.t.sessions[other].revokedAt == None ==> Active(w'.t, w'.t.sessions[other].userId) {
      assert other != sid ==> other in w.t.sessions;
    }
  }

  lemma SessionCallKeepsInv(policy: SessionPolicy, w: World, op: Op)
    requires Inv(policy, w) && Legal(w, op) && (op.DoValidate? || op.DoRevoke?)
    ensures Inv(policy, Apply(policy, w, op))
  {
    var w' := Apply(policy, w, op);
    SameGovernment(w.t, w'.t);
    if !Perform(policy, w.t, op).1.Refused? {
      SessionRowKeepsFit(policy, w, w', op.sid, w'.t.sessions[op.sid]);
    }
  }

  lemma CleanupKeepsInv(policy: SessionPolicy, w: World, op: Op)
    requires Inv(policy, w) && Legal(w, op) && op.DoCleanup?
    ensures Inv(policy, Apply(policy, w, op))
  {
    SameGovernment(w.t, Apply(policy, w, op).t);
  }

  lemma IssueKeepsInv(policy: SessionPolicy, w: World, op: Op)
    requires Inv(policy, w) && Legal(w, op) && op.DoIssue?
    ensures Inv(policy, Apply(policy, w, op))
  {
    var w' := Apply(policy, w, op);
    IssuedTokens(w.t, op);
    hide IssueMagicToken;
    SameGovernment(w.t, w'.t);
    SameSessionsFit(policy, w, w');
    hide Governed;
    hide SessionsFit;
  }

  lemma IssuedTokens(t: Tables, op: Op)
    requires op.DoIssue? && UsersFit(t)
    ensures var t' := IssueMagicToken(t, op.userId, op.createdBy, op.ttl, op.token, op.now).0;
            t' == t.(tokens := t'.tokens) && forall h | h in t'.tokens :: t'.tokens[h].userId in t.users
  {
  }

  lemma SameSessionsFit(policy: SessionPolicy, w: World, w': World)
    requires SessionsFit(policy, w)
    requires w'.t.sessions == w.t.sessions && w'.t.users == w.t.users && w'.issued == w.issued && w.clock <= w'.clock
    ensures SessionsFit(policy, w')
  {
    assert forall id :: Active(w.t, id) <==> Active(w'.t, id);
  }

  lemma CreateKeepsInv(policy: SessionPolicy, w: World, op: Op)
    requires Inv(policy, w) && Legal(w, op) && op.DoCreateUser?
    ensures Inv(policy, Apply(policy, w, op))
  {
    if Perform(policy, w.t, op).1 == Done {
      InsertKeepsUsers(w.t, op.username, "", false, op.now);
      if w.t.bootstrapClaimed {
        var a :| SuperAdmins(w.t) == {a} && Active(w.t, a);
        assert SuperAdmins(Apply(policy, w, op).t) == {a};
      }
    }
  }

  lemma DisableKeepsInv(policy: SessionPolicy, w: World, op: Op)
    requires Inv(policy, w) && Legal(w, op) && op.DoDisable?
    ensures Inv(policy, Apply(policy, w, op))
  {
    var t, t' := w.t, Apply(policy, w, op).t;
    if Perform(policy, t, op).1 == Done {
      assert SuperAdmins(t') == SuperAdmins(t);
      assert ActiveManagers(t') == ActiveManagers(t) - {op.id};
      if t.bootstrapClaimed {
        var a :| SuperAdmins(t) == {a} && Active(t, a);
        assert ActiveSuperAdmins(t) == {a};
        assert op.id != a;
        assert Active(t', a);
        RemovalLeavesOne(ActiveManagers(t), op.id);
      }
    }
  }

  lemma RemovalLeavesOne<T>(s: set<T>, x: T)
    requires s != {} && (x in s ==> |s| > 1)
    ensures s - {x} != {}
  {
    if x in s {
      assert |s - {x}| == |s| - 1;
    }
  }

  lemma EnableKeepsInv(policy: SessionPolicy, w: World, op: Op)
    requires Inv(policy, w) && Legal(w, op) && op.DoEnable?
    ensures Inv(policy, Apply(policy, w, op))
  {
    var t, t' := w.t, Apply(policy, w, op).t;
    assert SuperAdmins(t') == SuperAdmins(t);
    assert ActiveManagers(t) <= ActiveManagers(t');
    assert forall id :: Active(t, id) ==> Active(t', id);
  }

  lemma GrantKeepsInv(policy: SessionPolicy, w: World, op: Op)
    requires Inv(policy, w) && Legal(w, op) && op.DoGrant?
    ensures Inv(policy, Apply(policy, w, op))
  {
    var t, t' := w.t, Apply(policy, w, op).t;
    assert SuperAdmins(t') == SuperAdmins(t);
    assert forall id :: Active(t, id) <==> Active(t', id);
    assert ActiveManagers(t) <= ActiveManagers(t');
  }

  lemma RevokeKeepsInv(policy: SessionPolicy, w: World, op: Op)
    requires Inv(policy, w) && Legal(w, op) && op.DoRevokeCapability?
    ensures Inv(policy, Apply(policy, w, op))
  {
    var t, t' := w.t, Apply(policy, w, op).t;
    assert SuperAdmins(t') == SuperAdmins(t);
    assert forall id :: Active(t, id) <==> Active(t', id);
    if Perform(policy, t, op).1 == Done {
      if op.capability == MANAGE {
        assert ActiveManagers(t') == ActiveManagers(t) - {op.id};
        if t.bootstrapClaimed {
          RemovalLeavesOne(ActiveManagers(t), op.id);
        }
      } else {
        assert ActiveManagers(t') == ActiveManagers(t);
      }
    }
  }

  lemma ApplyKeepsInv(policy: SessionPolicy, w: World, op: Op)
    requires Inv(policy, w) && Legal(w, op)
    ensures Inv(policy, Apply(policy, w, op))
  {
    if op.DoBootstrap? {
      BootstrapKeepsInv(policy, w, op);
    } else if op.DoLogin? {
      LoginKeepsInv(policy, w, op);
    } else if op.DoLoginMagic? {
      LoginMagicKeepsInv(policy, w, op);
    } else if op.DoCleanup? {
      CleanupKeepsInv(policy, w, op);
    } else if op.DoIssue? {
      IssueKeepsInv(policy, w, op);
    } else if op.DoCreateUser? {
      CreateKeepsInv(policy, w, op);
    } else if op.DoDisable? {
      DisableKeepsInv(policy, w, op);
    } else if op.DoEnable? {
      EnableKeepsInv(policy, w, op);
    } else if op.DoGrant? {
      GrantKeepsInv(policy, w, op);
    } else if op.DoRevokeCapability? {
      RevokeKeepsInv(policy, w, op);
    } else if op.DoValidate? || op.DoRevoke? {
      SessionCallKeepsInv(policy, w, op);
    }
  }

  lemma StartFits(policy: SessionPolicy)
    ensures Inv(policy, START)
  {
  }

  lemma {:induction false} RunKeepsInv(policy: SessionPolicy, ops: seq<Op>)
    requires LegalRun(policy, ops)
    ensures Inv(policy, After(policy, ops))
  {
    hide Inv, Apply, Legal;
    if ops == [] {
      StartFits(policy);
    } else {
      var n := |ops| - 1;
      PrefixIsLegal(policy, ops, n);
      RunKeepsInv(policy, ops[..n]);
      assert Legal(After(policy, ops[..n]), ops[n]);
      ApplyKeepsInv(policy, After(policy, ops[..n]), ops[n]);
    }
  }

  lemma PrefixIsLegal(policy: SessionPolicy, ops: seq<Op>, n: nat)
    requires LegalRun(policy, ops) && n <= |ops|
    ensures LegalRun(policy, ops[..n])
  {
    hide Legal, After;
    forall i | 0 <= i < n ensures Legal(After(policy, ops[..n][..i]), ops[..n][i]) {
      assert ops[..n][..i] == ops[..i];
    }
  }
}
