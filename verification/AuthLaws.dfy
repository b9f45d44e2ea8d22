/** What the identity and session stores promise over whole runs. */
module AuthLaws {
  import opened Wrappers
  import opened Timestamps
  import opened AuthTables
  import opened AuthRuns

  lemma StepAt(policy: SessionPolicy, ops: seq<Op>, n: nat)
    requires LegalRun(policy, ops) && n < |ops|
    ensures Inv(policy, After(policy, ops[..n])) && Legal(After(policy, ops[..n]), ops[n])
    ensures After(policy, ops[..n + 1]) == Apply(policy, After(policy, ops[..n]), ops[n])
  {
    PrefixIsLegal(policy, ops, n);
    RunKeepsInv(policy, ops[..n]);
    assert ops[..n + 1][..n] == ops[..n];
  }

  // ---------------------------------------------------------------- what one step can do

  /** A session row that survives a step keeps its origin, stays revoked, and is only touched by its own acceptance. */
  predicate SessionAdvances(before: Session, after: Session)
  {
    && after.userId == before.userId && after.csrfHash == before.csrfHash
    && after.createdAt == before.createdAt && after.expiresAt == before.expiresAt
    && (before.revokedAt.Some? ==> after.revokedAt.Some?)
  }

  ghost predicate SessionsAdvance(policy: SessionPolicy, w: World, op: Op)
  {
    var t, t' := w.t, Perform(policy, w.t, op).0;
    forall sid | sid in t'.sessions && sid in w.issued ::
      && sid in t.sessions && SessionAdvances(t.sessions[sid], t'.sessions[sid])
      && (t'.sessions[sid].lastSeenAt == t.sessions[sid].lastSeenAt
          || (op.DoValidate? && op.sid == sid && Perform(policy, t, op).1.Principal?))
  }

  lemma LoginsAdvance(policy: SessionPolicy, w: World, op: Op)
    requires Inv(policy, w) && Legal(w, op) && OpensSession(op) && !op.DoLoginMagic?
    ensures SessionsAdvance(policy, w, op)
  {
    hide Governed;
    hide UsersFit;
  }

  lemma MagicLoginsAdvance(policy: SessionPolicy, w: World, op: Op)
    requires Inv(policy, w) && Legal(w, op) && op.DoLoginMagic?
    ensures SessionsAdvance(policy, w, op)
  {
    hide Governed;
    hide UsersFit;
  }

  lemma DeletionsAdvance(policy: SessionPolicy, w: World, op: Op)
    requires op.DoRevoke? || op.DoCleanup? || op.DoDisable?
    ensures SessionsAdvance(policy, w, op)
  {
  }

  lemma OthersAdvance(policy: SessionPolicy, w: World, op: Op)
    requires !OpensSession(op) && !op.DoRevoke? && !op.DoCleanup? && !op.DoDisable?
    ensures SessionsAdvance(policy, w, op)
  {
  }

  lemma StepAdvancesSessions(policy: SessionPolicy, w: World, op: Op)
    requires Inv(policy, w) && Legal(w, op)
    ensures SessionsAdvance(policy, w, op)
  {
    if OpensSession(op) {
      if op.DoLoginMagic? {
        MagicLoginsAdvance(policy, w, op);
      } else {
        LoginsAdvance(policy, w, op);
      }
    } else if op.DoRevoke? || op.DoCleanup? || op.DoDisable? {
      DeletionsAdvance(policy, w, op);
    } else {
      OthersAdvance(policy, w, op);
    }
  }

  /** Users are never removed and keep name, password and rank; new ones are plain unless this is a bootstrap. */
  ghost predicate UsersAdvance(t: Tables, t': Tables)
  {
    && (forall id | id in t.users ::
          && id in t'.users && t'.users[id].username == t.users[id].username
          && t'.users[id].passwordHash == t.users[id].passwordHash && t'.users[id].superAdmin == t.users[id].superAdmin)
    && (t.bootstrapClaimed ==> t'.bootstrapClaimed && forall id | id in t'.users && id !in t.users :: !t'.users[id].superAdmin)
  }

  lemma InsertionsAdvance(policy: SessionPolicy, w: World, op: Op)
    requires Inv(policy, w) && (op.DoBootstrap? || op.DoCreateUser?)
    ensures UsersAdvance(w.t, Perform(policy, w.t, op).0)
  {
  }

  lemma StepAdvancesUsers(policy: SessionPolicy, w: World, op: Op)
    requires Inv(policy, w) && Legal(w, op)
    ensures UsersAdvance(w.t, Perform(policy, w.t, op).0)
  {
    if op.DoBootstrap? || op.DoCreateUser? {
      InsertionsAdvance(policy, w, op);
    }
  }

  /** Tokens are never removed, keep owner and expiry, and stay consumed; new ones come from an issue that succeeded. */
  ghost predicate TokensAdvance(policy: SessionPolicy, t: Tables, op: Op)
  {
    var t' := Perform(policy, t, op).0;
    && (forall h | h in t.tokens ::
          && h in t'.tokens && t'.tokens[h].userId == t.tokens[h].userId && t'.tokens[h].expiresAt == t.tokens[h].expiresAt
          && (t.tokens[h].consumedAt.Some? ==> t'.tokens[h].consumedAt == t.tokens[h].consumedAt))
    && (forall h | h in t'.tokens && h !in t.tokens ::
          && op.DoIssue? && h == HashToken(op.token) && Perform(policy, t, op).1 == Done
          && t'.tokens[h].userId == op.userId && t'.tokens[h].expiresAt == op.now + op.ttl)
  }

  lemma StepAdvancesTokens(policy: SessionPolicy, t: Tables, op: Op)
    ensures TokensAdvance(policy, t, op)
  {
    if op.DoLoginMagic? || op.DoIssue? || op.DoCleanup? {
      TokenCallsAdvance(policy, t, op);
    }
  }

  lemma TokenCallsAdvance(policy: SessionPolicy, t: Tables, op: Op)
    requires op.DoLoginMagic? || op.DoIssue? || op.DoCleanup?
    ensures TokensAdvance(policy, t, op)
  {
  }

  /** The row of a session that was just opened. */
  lemma OpeningRow(policy: SessionPolicy, w: World, op: Op)
    requires OpensSession(op) && Perform(policy, w.t, op).1.Opened?
    ensures var userId := Perform(policy, w.t, op).1.userId;
            op.sid in Perform(policy, w.t, op).0.sessions
            && Perform(policy, w.t, op).0.sessions[op.sid]
               == Session(userId, HashToken(op.csrf), SeenAt(op), SeenAt(op), SeenAt(op) + policy.ttl, None)
  {
  }

  lemma BootstrapFacts(policy: SessionPolicy, w: World, op: Op)
    requires op.DoBootstrap? && Perform(policy, w.t, op).1.Opened?
    ensures Perform(policy, w.t, op).0.bootstrapClaimed
    ensures Credentials(Perform(policy, w.t, op).0, Perform(policy, w.t, op).1.userId, op.username, op.password)
    ensures op.username != "" && op.password != ""
  {
  }

  lemma AcceptanceFacts(policy: SessionPolicy, w: World, op: Op)
    requires op.DoValidate? && Perform(policy, w.t, op).1.Principal?
    ensures LiveSession(w.t, op.sid) && WithinBounds(w.t.sessions[op.sid], op.now, policy)
    ensures Perform(policy, w.t, op).1.id == w.t.sessions[op.sid].userId
    ensures op.sid in Perform(policy, w.t, op).0.sessions && Perform(policy, w.t, op).0.sessions[op.sid].lastSeenAt == op.touch
  {
  }

  // ---------------------------------------------------------------- governance

  /** Once there is a super admin it is always the same one. */
  lemma {:induction false} SuperAdminStays(policy: SessionPolicy, ops: seq<Op>, i: nat, j: nat)
    requires LegalRun(policy, ops) && i <= j <= |ops| && After(policy, ops[..i]).t.bootstrapClaimed
    ensures After(policy, ops[..j]).t.bootstrapClaimed
    ensures SuperAdmins(After(policy, ops[..j]).t) == SuperAdmins(After(policy, ops[..i]).t)
    decreases j
  {
    hide Perform, Inv, LegalRun;
    if i < j {
      SuperAdminStays(policy, ops, i, j - 1);
      StepAt(policy, ops, j - 1);
      SameSuperAdmins(policy, After(policy, ops[..j - 1]), ops[j - 1]);
    }
  }

  lemma SameSuperAdmins(policy: SessionPolicy, w: World, op: Op)
    requires Inv(policy, w) && Legal(w, op) && w.t.bootstrapClaimed
    ensures Apply(policy, w, op).t.bootstrapClaimed
    ensures SuperAdmins(Apply(policy, w, op).t) == SuperAdmins(w.t)
  {
    StepAdvancesUsers(policy, w, op);
  }

  /**
   After a bootstrap that succeeded, at every later point there is exactly one super admin, it is the one
   created then and it is active; at least one active user holds the identity capability; and every further
   bootstrap is refused.
   */
  lemma GovernanceAfterBootstrap(policy: SessionPolicy, ops: seq<Op>, i: nat, j: nat)
    requires LegalRun(policy, ops) && i < j <= |ops| && ops[i].DoBootstrap? && ReplyAt(policy, ops, i).Opened?
    ensures var t := After(policy, ops[..j]).t;
            && SuperAdmins(t) == {ReplyAt(policy, ops, i).userId}
            && Active(t, ReplyAt(policy, ops, i).userId)
            && ActiveManagers(t) != {}
            && forall username, password, now, sid, csrf ::
                 Bootstrap(t, username, password, now, sid, csrf, policy)
                 == (t, Refused(if username == "" || password == "" then InvalidCredential else BootstrapDisabled))
  {
    hide Perform;
    StepAt(policy, ops, i);
    BootstrapFacts(policy, After(policy, ops[..i]), ops[i]);
    var first := After(policy, ops[..i + 1]);
    assert ReplyAt(policy, ops, i).userId in SuperAdmins(first.t);
    PrefixIsLegal(policy, ops, i + 1);
    RunKeepsInv(policy, ops[..i + 1]);
    SuperAdminStays(policy, ops, i + 1, j);
    PrefixIsLegal(policy, ops, j);
    RunKeepsInv(policy, ops[..j]);
    var t := After(policy, ops[..j]).t;
    var a :| SuperAdmins(t) == {a} && Active(t, a);
    var b :| SuperAdmins(first.t) == {b} && Active(first.t, b);
    assert a in ActiveUsers(t);
  }

  /**
   In a governed state an active user cannot be disabled exactly when it is the super admin or the only active
   identity manager; that is, when disabling it would leave no active super admin or no active manager.
   */
  lemma DisableRefusedIff(t: Tables, id: int, now: Instant)
    requires UsersFit(t) && Governed(t) && t.bootstrapClaimed && Active(t, id)
    ensures DisableUser(t, id, now).1 == Refused(SelfLockout) <==> id in SuperAdmins(t) || ActiveManagers(t) == {id}
    ensures DisableUser(t, id, now).1 == Refused(SelfLockout) <==>
            ActiveSuperAdmins(t) - {id} == {} || ActiveManagers(t) - {id} == {}
    ensures DisableUser(t, id, now).1 in {Refused(SelfLockout), Done}
  {
    var a :| SuperAdmins(t) == {a} && Active(t, a);
    assert ActiveSuperAdmins(t) == {a};
    OnlyMember(ActiveManagers(t), id);
  }

  lemma OnlyMember<T>(s: set<T>, x: T)
    ensures x in s && |s| <= 1 <==> s == {x}
    ensures s != {} ==> (s - {x} == {} <==> s == {x})
  {
    if x in s {
      assert s == {x} + (s - {x}) && |s| == 1 + |s - {x}|;
    }
  }

  /**
   Taking the identity capability from a user who holds it is refused exactly when one active manager is left.
   For an active user that is when nobody would be left; for a disabled one the refusal is not needed.
   */
  lemma RevokeRefusedIff(t: Tables, id: int)
    requires UsersFit(t) && Governed(t) && t.bootstrapClaimed && (id, MANAGE) in t.grants
    ensures RevokeCapability(t, id, MANAGE).1 == Refused(SelfLockout) <==> |ActiveManagers(t)| == 1
    ensures Active(t, id) ==>
              (RevokeCapability(t, id, MANAGE).1 == Refused(SelfLockout) <==> ActiveManagers(t) - {id} == {})
    ensures !Active(t, id) ==> ActiveManagers(t) - {id} != {}
  {
    OnlyMember(ActiveManagers(t), id);
    if !Active(t, id) {
      assert ActiveManagers(t) - {id} == ActiveManagers(t);
    } else {
      assert id in ActiveManagers(t);
    }
  }

  // ---------------------------------------------------------------- passwords

  /** The super admin's name and password hash stay what bootstrap made them. */
  ghost predicate Credentials(t: Tables, a: int, username: string, password: string)
  {
    a in t.users && t.users[a].superAdmin && t.users[a].username == username && t.users[a].passwordHash == HashPassword(password)
  }

  lemma {:induction false} CredentialsStay(policy: SessionPolicy, ops: seq<Op>, i: nat, j: nat, a: int, username: string, password: string)
    requires LegalRun(policy, ops) && i <= j <= |ops| && Credentials(After(policy, ops[..i]).t, a, username, password)
    ensures Credentials(After(policy, ops[..j]).t, a, username, password)
    decreases j
  {
    hide Perform, Inv, LegalRun;
    if i < j {
      CredentialsStay(policy, ops, i, j - 1, a, username, password);
      StepAt(policy, ops, j - 1);
      StepAdvancesUsers(policy, After(policy, ops[..j - 1]), ops[j - 1]);
    }
  }

  /** At every later point a password login opens a session exactly for the bootstrapped name and password. */
  lemma PasswordLoginIff(policy: SessionPolicy, ops: seq<Op>, i: nat, j: nat, username: string, password: string,
                         now: Instant, sid: string, csrf: string)
    requires LegalRun(policy, ops) && i < j <= |ops| && ops[i].DoBootstrap? && ReplyAt(policy, ops, i).Opened?
    requires sid !in After(policy, ops[..j]).t.sessions
    ensures Login(After(policy, ops[..j]).t, username, password, now, sid, csrf, policy).1.Opened? <==>
            username == ops[i].username && password == ops[i].password
  {
    hide Perform;
    var a := ReplyAt(policy, ops, i).userId;
    StepAt(policy, ops, i);
    BootstrapFacts(policy, After(policy, ops[..i]), ops[i]);
    CredentialsStay(policy, ops, i + 1, j, a, ops[i].username, ops[i].password);
    GovernanceAfterBootstrap(policy, ops, i, j);
    PrefixIsLegal(policy, ops, j);
    RunKeepsInv(policy, ops[..j]);
    LoginIff(policy, After(policy, ops[..j]).t, a, ops[i].username, ops[i].password, username, password, now, sid, csrf);
  }

  lemma LoginIff(policy: SessionPolicy, t: Tables, a: int, name: string, secret: string, username: string, password: string,
                 now: Instant, sid: string, csrf: string)
    requires UsersFit(t) && SuperAdmins(t) == {a} && Active(t, a) && Credentials(t, a, name, secret)
    requires name != "" && secret != "" && sid !in t.sessions
    ensures Login(t, username, password, now, sid, csrf, policy).1.Opened? <==> username == name && password == secret
  {
    if ActiveByName(t, username).Some? {
      var found := ActiveByName(t, username).value;
      assert t.users[found].superAdmin ==> found in SuperAdmins(t);
    }
    HashesDiffer(password, secret);
  }

  lemma HashesDiffer(a: string, b: string)
    ensures HashPassword(a) == HashPassword(b) <==> a == b
    ensures HashToken(a) == HashToken(b) <==> a == b
  {
    assert HashPassword(a)[7..] == a && HashPassword(b)[7..] == b;
    assert HashToken(a)[7..] == a && HashToken(b)[7..] == b;
  }

  // ---------------------------------------------------------------- sessions

  /** A drawn session id that can never be accepted again. */
  predicate Dead(policy: SessionPolicy, w: World, sid: string)
  {
    sid in w.issued && (!LiveSession(w.t, sid) || !WithinBounds(w.t.sessions[sid], w.clock, policy))
  }

  lemma StepKeepsDead(policy: SessionPolicy, w: World, op: Op, sid: string)
    requires Inv(policy, w) && Legal(w, op) && Dead(policy, w, sid)
    ensures Dead(policy, Apply(policy, w, op), sid)
  {
    hide Perform;
    StepAdvancesSessions(policy, w, op);
    if LiveSession(Apply(policy, w, op).t, sid) {
      assert sid in w.t.sessions && LiveSession(w.t, sid);
      if op.DoValidate? && op.sid == sid && Perform(policy, w.t, op).1.Principal? {
        AcceptanceFacts(policy, w, op);
      }
    }
  }

  lemma {:induction false} DeadStays(policy: SessionPolicy, ops: seq<Op>, i: nat, j: nat, sid: string)
    requires LegalRun(policy, ops) && i <= j <= |ops| && Dead(policy, After(policy, ops[..i]), sid)
    ensures Dead(policy, After(policy, ops[..j]), sid)
    decreases j
  {
    hide Perform, Inv, LegalRun;
    if i < j {
      DeadStays(policy, ops, i, j - 1, sid);
      StepAt(policy, ops, j - 1);
      StepKeepsDead(policy, After(policy, ops[..j - 1]), ops[j - 1], sid);
    }
  }

  /** Once an issued session is rejected it is rejected forever, whatever happens in between. */
  lemma RejectedForever(policy: SessionPolicy, ops: seq<Op>, i: nat, j: nat)
    requires LegalRun(policy, ops) && i < j < |ops|
    requires ops[i].DoValidate? && ops[j].DoValidate? && ops[i].sid == ops[j].sid
    requires ops[i].sid in After(policy, ops[..i]).issued
    requires ReplyAt(policy, ops, i) == Refused(InvalidSession)
    ensures ReplyAt(policy, ops, j) == Refused(InvalidSession)
  {
    StepAt(policy, ops, i);
    StepAt(policy, ops, j);
    IssuedIdsAreNotEmpty(policy, ops, i, ops[i].sid);
    DeadStays(policy, ops, i + 1, j, ops[i].sid);
  }

  lemma {:induction false} IssuedIdsAreNotEmpty(policy: SessionPolicy, ops: seq<Op>, n: nat, sid: string)
    requires LegalRun(policy, ops) && n <= |ops| && sid in After(policy, ops[..n]).issued
    ensures sid != ""
    decreases n
  {
    hide Perform;
    if n > 0 {
      StepAt(policy, ops, n - 1);
      if sid in After(policy, ops[..n - 1]).issued {
        IssuedIdsAreNotEmpty(policy, ops, n - 1, sid);
      }
    }
  }

  /** The row of a session, if it still exists, has the user and creation time it was opened with. */
  predicate OpenedAs(w: World, sid: string, userId: int, createdAt: Instant)
  {
    sid in w.issued && (sid in w.t.sessions ==> w.t.sessions[sid].userId == userId && w.t.sessions[sid].createdAt == createdAt)
  }

  lemma {:induction false} OpenedAsStays(policy: SessionPolicy, ops: seq<Op>, i: nat, j: nat, sid: string, userId: int, createdAt: Instant)
    requires LegalRun(policy, ops) && i <= j <= |ops| && OpenedAs(After(policy, ops[..i]), sid, userId, createdAt)
    ensures OpenedAs(After(policy, ops[..j]), sid, userId, createdAt)
    decreases j
  {
    hide Perform, Inv, LegalRun;
    if i < j {
      OpenedAsStays(policy, ops, i, j - 1, sid, userId, createdAt);
      StepAt(policy, ops, j - 1);
      StepAdvancesSessions(policy, After(policy, ops[..j - 1]), ops[j - 1]);
    }
  }

  /** Every accepted validation falls strictly before creation plus TTL, and names the user the session was opened for. */
  lemma AcceptedBeforeExpiry(policy: SessionPolicy, ops: seq<Op>, c: nat, j: nat)
    requires LegalRun(policy, ops) && c < j < |ops|
    requires OpensSession(ops[c]) && ReplyAt(policy, ops, c).Opened?
    requires ops[j].DoValidate? && ops[j].sid == ops[c].sid && ReplyAt(policy, ops, j).Principal?
    ensures ops[j].now < SeenAt(ops[c]) + policy.ttl
    ensures ReplyAt(policy, ops, j).id == ReplyAt(policy, ops, c).userId
    ensures Active(After(policy, ops[..j]).t, ReplyAt(policy, ops, c).userId)
  {
    hide Perform;
    StepAt(policy, ops, c);
    StepAt(policy, ops, j);
    OpeningRow(policy, After(policy, ops[..c]), ops[c]);
    AcceptanceFacts(policy, After(policy, ops[..j]), ops[j]);
    OpenedAsStays(policy, ops, c + 1, j, ops[c].sid, ReplyAt(policy, ops, c).userId, SeenAt(ops[c]));
  }

  /** Step i saw the session: it opened it or accepted it. */
  ghost predicate Sees(policy: SessionPolicy, ops: seq<Op>, i: nat, sid: string)
    requires i < |ops|
  {
    (OpensSession(ops[i]) && ops[i].sid == sid && ReplyAt(policy, ops, i).Opened?)
    || (ops[i].DoValidate? && ops[i].sid == sid && ReplyAt(policy, ops, i).Principal?)
  }

  predicate LastSeenIs(w: World, sid: string, seen: Instant)
  {
    sid in w.issued && (sid in w.t.sessions ==> w.t.sessions[sid].lastSeenAt == seen)
  }

  lemma {:induction false} UnseenKeepsLastSeen(policy: SessionPolicy, ops: seq<Op>, i: nat, j: nat, sid: string, seen: Instant)
    requires LegalRun(policy, ops) && i <= j <= |ops| && LastSeenIs(After(policy, ops[..i]), sid, seen)
    requires forall k | i <= k < j :: !Sees(policy, ops, k, sid)
    ensures LastSeenIs(After(policy, ops[..j]), sid, seen)
    decreases j
  {
    hide Perform, Inv, LegalRun;
    if i < j {
      UnseenKeepsLastSeen(policy, ops, i, j - 1, sid, seen);
      StepAt(policy, ops, j - 1);
      StepAdvancesSessions(policy, After(policy, ops[..j - 1]), ops[j - 1]);
      assert !Sees(policy, ops, j - 1, sid);
    }
  }

  /**
   Consecutive acceptances, the first measured from the opening, are less than the idle timeout apart:
   from the reading that was stored to the reading that was checked.
   */
  lemma AcceptancesAreClose(policy: SessionPolicy, ops: seq<Op>, i: nat, j: nat, sid: string)
    requires LegalRun(policy, ops) && i < j < |ops|
    requires Sees(policy, ops, i, sid) && (forall k | i < k < j :: !Sees(policy, ops, k, sid))
    requires ops[j].DoValidate? && ops[j].sid == sid && ReplyAt(policy, ops, j).Principal?
    ensures ops[j].now < SeenAt(ops[i]) + policy.idle
  {
    hide Perform;
    StepAt(policy, ops, i);
    StepAt(policy, ops, j);
    AcceptanceFacts(policy, After(policy, ops[..j]), ops[j]);
    IssuedBySeeing(policy, ops, i, sid);
    UnseenKeepsLastSeen(policy, ops, i + 1, j, sid, SeenAt(ops[i]));
  }

  lemma IssuedBySeeing(policy: SessionPolicy, ops: seq<Op>, i: nat, sid: string)
    requires LegalRun(policy, ops) && i < |ops| && Sees(policy, ops, i, sid)
    ensures LastSeenIs(After(policy, ops[..i + 1]), sid, SeenAt(ops[i]))
  {
    hide Perform;
    StepAt(policy, ops, i);
    var w := After(policy, ops[..i]);
    if OpensSession(ops[i]) {
      OpeningRow(policy, w, ops[i]);
    } else {
      AcceptanceFacts(policy, w, ops[i]);
    }
  }

  // ---------------------------------------------------------------- magic tokens

  predicate Consumed(t: Tables, hash: string)
  {
    hash in t.tokens && t.tokens[hash].consumedAt.Some?
  }

  lemma {:induction false} ConsumedStays(policy: SessionPolicy, ops: seq<Op>, i: nat, j: nat, hash: string)
    requires LegalRun(policy, ops) && i <= j <= |ops| && Consumed(After(policy, ops[..i]).t, hash)
    ensures Consumed(After(policy, ops[..j]).t, hash)
    decreases j
  {
    hide Perform, Inv, LegalRun;
    if i < j {
      ConsumedStays(policy, ops, i, j - 1, hash);
      StepAt(policy, ops, j - 1);
      StepAdvancesTokens(policy, After(policy, ops[..j - 1]).t, ops[j - 1]);
    }
  }

  /** A magic token opens at most one session in a whole run, session cleanups included. */
  lemma TokenOpensOneSession(policy: SessionPolicy, ops: seq<Op>, i: nat, j: nat)
    requires LegalRun(policy, ops) && i < j < |ops|
    requires ops[i].DoLoginMagic? && ops[j].DoLoginMagic? && ops[i].token == ops[j].token
    requires ReplyAt(policy, ops, i).Opened?
    ensures ReplyAt(policy, ops, j) == Refused(InvalidCredential)
  {
    hide Perform, Inv, LegalRun;
    StepAt(policy, ops, i);
    RedemptionConsumes(policy, After(policy, ops[..i]).t, ops[i]);
    ConsumedStays(policy, ops, i + 1, j, HashToken(ops[i].token));
    ConsumedIsRefused(policy, After(policy, ops[..j]).t, ops[j]);
  }

  lemma RedemptionConsumes(policy: SessionPolicy, t: Tables, op: Op)
    requires op.DoLoginMagic? && Perform(policy, t, op).1.Opened?
    ensures Consumed(Perform(policy, t, op).0, HashToken(op.token))
  {
  }

  lemma ConsumedIsRefused(policy: SessionPolicy, t: Tables, op: Op)
    requires op.DoLoginMagic? && Consumed(t, HashToken(op.token))
    ensures Perform(policy, t, op).1 == Refused(InvalidCredential)
  {
  }

  /** Tokens in the table were issued, with the owner and expiry they still have. */
  lemma {:induction false} TokenWasIssued(policy: SessionPolicy, ops: seq<Op>, n: nat, token: string) returns (k: nat)
    requires LegalRun(policy, ops) && n <= |ops| && HashToken(token) in After(policy, ops[..n]).t.tokens
    ensures k < n && ops[k].DoIssue? && ops[k].token == token && ReplyAt(policy, ops, k) == Done
    ensures After(policy, ops[..n]).t.tokens[HashToken(token)].userId == ops[k].userId
    ensures After(policy, ops[..n]).t.tokens[HashToken(token)].expiresAt == ops[k].now + ops[k].ttl
    decreases n
  {
    hide Perform, Inv, LegalRun;
    StepAt(policy, ops, n - 1);
    StepAdvancesTokens(policy, After(policy, ops[..n - 1]).t, ops[n - 1]);
    if HashToken(token) in After(policy, ops[..n - 1]).t.tokens {
      k := TokenWasIssued(policy, ops, n - 1, token);
    } else {
      k := n - 1;
      HashesDiffer(token, ops[k].token);
    }
  }

  /** A redemption follows an issue of that token for that user, strictly before its expiry, while the user is active. */
  lemma RedeemedWhileValid(policy: SessionPolicy, ops: seq<Op>, j: nat) returns (k: nat)
    requires LegalRun(policy, ops) && j < |ops| && ops[j].DoLoginMagic? && ReplyAt(policy, ops, j).Opened?
    ensures k < j && ops[k].DoIssue? && ops[k].token == ops[j].token && ReplyAt(policy, ops, k) == Done
    ensures ReplyAt(policy, ops, j).userId == ops[k].userId
    ensures ops[k].now <= ops[j].now < ops[k].now + ops[k].ttl
    ensures Active(After(policy, ops[..j]).t, ops[k].userId)
  {
    k := TokenWasIssued(policy, ops, j, ops[j].token);
    StepAt(policy, ops, k);
    StepAt(policy, ops, j);
    ClockAdvances(policy, ops, k + 1, j);
  }

  lemma {:induction false} ClockAdvances(policy: SessionPolicy, ops: seq<Op>, i: nat, j: nat)
    requires LegalRun(policy, ops) && i <= j <= |ops|
    ensures After(policy, ops[..i]).clock <= After(policy, ops[..j]).clock
    decreases j
  {
    if i < j {
      ClockAdvances(policy, ops, i, j - 1);
      StepAt(policy, ops, j - 1);
    }
  }

  // ---------------------------------------------------------------- text against instants

  /**
   The two SQL tests of a session's expiry say what the instants say for exactly those times that are not
   confusable with the expiry; in particular whenever the two are at least one second apart.
   */
  lemma ExpiryTestsAgreeIff(t: Tables, sid: string, token: string, now: Instant)
    requires sid in t.sessions && t.sessions[sid].revokedAt == None
    requires token != "" && t.sessions[sid].csrfHash == HashToken(token)
    requires FourDigitYear(now) && FourDigitYear(t.sessions[sid].expiresAt)
    ensures var expiry := t.sessions[sid].expiresAt;
            && ((ValidateCSRF(t, sid, token, now) == Done <==> now < expiry) <==> !Confusable(now, expiry))
            && ((sid in Stale(t, now) <==> expiry <= now) <==> !Confusable(now, expiry))
            && (now + SECOND <= expiry || expiry + SECOND <= now ==> !Confusable(now, expiry))
  {
    TextComparisonAgreesIff(now, t.sessions[sid].expiresAt);
  }

  /** Cleanup may delete a session that is not yet over, and only in its last second. */
  lemma EarlyCleanupOnlyInLastSecond(t: Tables, sid: string, now: Instant)
    requires sid in t.sessions && t.sessions[sid].revokedAt == None && now < t.sessions[sid].expiresAt
    requires FourDigitYear(t.sessions[sid].expiresAt)
    ensures sid !in CleanupSessions(t, now).0.sessions <==>
            SameSecond(now, t.sessions[sid].expiresAt) && FractionDigits(now) < FractionDigits(t.sessions[sid].expiresAt)
  {
    TextOrderOfInstants(now, t.sessions[sid].expiresAt);
  }

  /** Only the token that came with a session passes its CSRF test. */
  lemma OnlyItsOwnCsrfToken(policy: SessionPolicy, ops: seq<Op>, c: nat, j: nat, token: string, now: Instant)
    requires LegalRun(policy, ops) && c < j <= |ops| && OpensSession(ops[c]) && ReplyAt(policy, ops, c).Opened?
    requires ValidateCSRF(After(policy, ops[..j]).t, ops[c].sid, token, now) == Done
    ensures token == ops[c].csrf
  {
    hide Perform;
    StepAt(policy, ops, c);
    OpeningRow(policy, After(policy, ops[..c]), ops[c]);
    CsrfHashStays(policy, ops, c + 1, j, ops[c].sid, HashToken(ops[c].csrf));
    HashesDiffer(token, ops[c].csrf);
  }

  lemma {:induction false} CsrfHashStays(policy: SessionPolicy, ops: seq<Op>, i: nat, j: nat, sid: string, hash: string)
    requires LegalRun(policy, ops) && i <= j <= |ops| && sid in After(policy, ops[..i]).issued
    requires sid in After(policy, ops[..i]).t.sessions ==> After(policy, ops[..i]).t.sessions[sid].csrfHash == hash
    ensures sid in After(policy, ops[..j]).issued
    ensures sid in After(policy, ops[..j]).t.sessions ==> After(policy, ops[..j]).t.sessions[sid].csrfHash == hash
    decreases j
  {
    hide Perform, Inv, LegalRun;
    if i < j {
      CsrfHashStays(policy, ops, i, j - 1, sid, hash);
      StepAt(policy, ops, j - 1);
      StepAdvancesSessions(policy, After(policy, ops[..j - 1]), ops[j - 1]);
    }
  }
}
