/** Legal runs of the identity and session stores that end in an answer one would not expect. */
module AuthFindings {
  import opened Wrappers
  import opened Timestamps
  import opened AuthTables
  import opened AuthRuns
  import opened AuthLaws

  lemma OneMore(policy: SessionPolicy, ops: seq<Op>, op: Op)
    ensures After(policy, ops + [op]) == Apply(policy, After(policy, ops), op)
    ensures LegalRun(policy, ops) && Legal(After(policy, ops), op) ==> LegalRun(policy, ops + [op])
    ensures ReplyAt(policy, ops + [op], |ops|) == Perform(policy, After(policy, ops).t, op).1
  {
    var all := ops + [op];
    assert all[..|ops|] == ops;
    if LegalRun(policy, ops) && Legal(After(policy, ops), op) {
      hide Perform, After, Legal;
      forall i | 0 <= i < |all| ensures Legal(After(policy, all[..i]), all[i]) {
        assert i < |ops| ==> all[..i] == ops[..i] && all[i] == ops[i];
      }
    }
  }

  // ---------------------------------------------------------------- a capability that cannot be taken back

  const FIRST := DoBootstrap("root", "secret", 0, "s", "c")

  function Bootstrapped(policy: SessionPolicy): World
  {
    World(Tables(map[1 := User("root", HashPassword("secret"), true, None, 0)], 1, true, {(1, MANAGE)},
                 map["s" := Session(1, HashToken("c"), 0, 0, policy.ttl, None)], map[]), 0, {"s"})
  }

  lemma BootstrapRuns(policy: SessionPolicy)
    ensures LegalRun(policy, [FIRST]) && After(policy, [FIRST]) == Bootstrapped(policy)
  {
    FirstCall(policy);
    assert [] + [FIRST] == [FIRST];
    assert After(policy, []) == START;
    OneMore(policy, [], FIRST);
    hide After, Perform, Apply, Bootstrapped;
  }

  lemma FirstCall(policy: SessionPolicy)
    ensures Apply(policy, START, FIRST) == Bootstrapped(policy)
  {
    assert ActiveUsers(EMPTY) == {};
    assert OpenSession(Bootstrapped(policy).t.(sessions := map[]), 1, 0, "s", "c", policy).0 == Bootstrapped(policy).t;
  }

  const CREATE := DoCreateUser("second", 0)
  const GRANT := DoGrant(2, MANAGE, 0)
  const DISABLE := DoDisable(2, 0)
  const REVOKE := DoRevokeCapability(2, MANAGE, 0)

  /** A second manager is created and disabled again; the first one is then the only active one. */
  lemma DisabledManager(t: Tables) returns (t2: Tables, t3: Tables, t4: Tables)
    requires t.users.Keys == {1} && t.users[1].superAdmin && t.users[1].disabledAt == None && t.users[1].username == "root"
    requires t.lastUserId == 1 && t.grants == {(1, MANAGE)}
    ensures t2 == CreateManagedUser(t, "second", 0).0
    ensures t3 == GrantCapability(t2, 2, MANAGE).0
    ensures t4 == DisableUser(t3, 2, 0).0
    ensures ActiveManagers(t4) == {1} && (2, MANAGE) in t4.grants && 2 in t4.users && !Active(t4, 2)
  {
    assert !UsernameTaken(t, "second");
    t2 := CreateManagedUser(t, "second", 0).0;
    t3 := GrantCapability(t2, 2, MANAGE).0;
    assert t3.users == t.users[2 := User("second", "", false, None, 0)] && t3.grants == {(1, MANAGE), (2, MANAGE)};
    assert ActiveManagers(t3) == {1, 2};
    assert DisableGuard(t3, 2) == None;
    t4 := DisableUser(t3, 2, 0).0;
    assert t4.users == t3.users[2 := User("second", "", false, Some(0), 0)] && t4.grants == t3.grants;
    assert ActiveManagers(t4) == {1};
  }

  lemma Steps(policy: SessionPolicy, w: World)
    ensures Apply(policy, w, CREATE) == World(CreateManagedUser(w.t, "second", 0).0, 0, w.issued)
    ensures Apply(policy, w, GRANT) == World(GrantCapability(w.t, 2, MANAGE).0, 0, w.issued)
    ensures Apply(policy, w, DISABLE) == World(DisableUser(w.t, 2, 0).0, 0, w.issued)
    ensures Perform(policy, w.t, REVOKE) == RevokeCapability(w.t, 2, MANAGE)
    ensures w.clock == 0 ==> Legal(w, CREATE) && Legal(w, GRANT) && Legal(w, DISABLE) && Legal(w, REVOKE)
  {
    hide CreateManagedUser, GrantCapability, DisableUser, RevokeCapability;
  }

  lemma RevokeIsRefused(t: Tables)
    requires ActiveManagers(t) == {1} && (2, MANAGE) in t.grants
    ensures RevokeCapability(t, 2, MANAGE).1 == Refused(SelfLockout)
    ensures ActiveManagers(t) - {2} != {}
  {
    assert 1 in ActiveManagers(t) - {2};
  }

  /**
   Taking the identity capability from a disabled holder is refused although another manager would be left: a
   legal run that ends so.
   */
  lemma UnneededRefusal(policy: SessionPolicy) returns (ops: seq<Op>)
    ensures |ops| > 0 && ops[|ops| - 1] == REVOKE && LegalRun(policy, ops)
    ensures ReplyAt(policy, ops, |ops| - 1) == Refused(SelfLockout)
    ensures var t := After(policy, ops[..|ops| - 1]).t;
            (2, MANAGE) in t.grants && !Active(t, 2) && ActiveManagers(t) - {2} != {}
  {
    BootstrapRuns(policy);
    var t2, t3, t4 := DisabledManager(Bootstrapped(policy).t);
    assert Bootstrapped(policy).clock == 0;
    var w1 := Bootstrapped(policy);
    var w2 := Apply(policy, w1, CREATE);
    var w3 := Apply(policy, w2, GRANT);
    var w4 := Apply(policy, w3, DISABLE);
    RevokeIsRefused(t4);
    hide *;
    Steps(policy, w1);
    Steps(policy, w2);
    Steps(policy, w3);
    Steps(policy, w4);
    var before := [FIRST] + [CREATE] + [GRANT] + [DISABLE];
    OneMore(policy, [FIRST], CREATE);
    OneMore(policy, [FIRST] + [CREATE], GRANT);
    OneMore(policy, [FIRST] + [CREATE] + [GRANT], DISABLE);
    OneMore(policy, before, REVOKE);
    ops := before + [REVOKE];
    assert ops[..|ops| - 1] == before;
  }

  // ---------------------------------------------------------------- a session that is cleaned up too early

  /** A start time for which the session expires one nanosecond after a whole second. */
  function StartTime(ttl: int): Instant
    requires ttl > 0
  {
    SECOND + 1 - ttl % SECOND
  }

  function Touch(policy: SessionPolicy, n: nat): Op
  {
    DoValidate("s", StartTime(policy.ttl) + n, StartTime(policy.ttl) + n)
  }

  /** A bootstrap, and then a validation every nanosecond. */
  function KeptAlive(policy: SessionPolicy, n: nat): seq<Op>
    decreases n
  {
    if n == 0 then [DoBootstrap("root", "secret", StartTime(policy.ttl), "s", "c")]
    else KeptAlive(policy, n - 1) + [Touch(policy, n)]
  }

  ghost predicate Lively(policy: SessionPolicy, w: World, n: nat)
  {
    var c := StartTime(policy.ttl);
    && w.clock == c + n && "s" in w.t.sessions && LiveSession(w.t, "s")
    && w.t.sessions["s"].lastSeenAt == c + n && w.t.sessions["s"].expiresAt == c + policy.ttl
  }

  lemma {:induction false} SessionIsKeptAlive(policy: SessionPolicy, n: nat)
    requires n < policy.ttl && policy.idle >= 2
    ensures LegalRun(policy, KeptAlive(policy, n)) && Lively(policy, After(policy, KeptAlive(policy, n)), n)
    decreases n
  {
    hide *;
    if n == 0 {
      LivelyFromStart(policy);
    } else {
      SessionIsKeptAlive(policy, n - 1);
      var before, op := KeptAlive(policy, n - 1), Touch(policy, n);
      assert KeptAlive(policy, n) == before + [op] by { KeptAliveGrows(policy, n); }
      OneMore(policy, before, op);
      LivelyOn(policy, After(policy, before), n);
    }
  }

  lemma KeptAliveGrows(policy: SessionPolicy, n: nat)
    requires n > 0
    ensures KeptAlive(policy, n) == KeptAlive(policy, n - 1) + [Touch(policy, n)]
  {
  }

  lemma LivelyFromStart(policy: SessionPolicy)
    ensures LegalRun(policy, KeptAlive(policy, 0)) && Lively(policy, After(policy, KeptAlive(policy, 0)), 0)
  {
    var op := DoBootstrap("root", "secret", StartTime(policy.ttl), "s", "c");
    assert ActiveUsers(EMPTY) == {};
    assert [] + [op] == [op];
    assert After(policy, []) == START;
    OneMore(policy, [], op);
    hide After, LegalRun;
  }

  lemma LivelyOn(policy: SessionPolicy, w: World, n: nat)
    requires 0 < n < policy.ttl && policy.idle >= 2 && Lively(policy, w, n - 1)
    ensures var op := Touch(policy, n);
            Legal(w, op) && Lively(policy, Apply(policy, w, op), n)
  {
  }

  /** Whole seconds have no fraction digits, and one nanosecond later there are nine. */
  lemma OneNanosecondLater(k: nat)
    ensures SameSecond(k * SECOND, k * SECOND + 1)
    ensures FractionDigits(k * SECOND) < FractionDigits(k * SECOND + 1)
  {
    StripZerosOfZero(9);
    DecimalWidth(1, 9);
    assert (k * SECOND) / SECOND == k && (k * SECOND) % SECOND == 0;
    assert (k * SECOND + 1) / SECOND == k && (k * SECOND + 1) % SECOND == 1;
    var d := Decimal(1, 9);
    assert d[8] == DigitChar(1);
  }

  /**
   For every policy with an idle timeout of at least two nanoseconds there is a legal run in which cleanup deletes
   a session that a validation at the same instant would accept.
   */
  lemma CleanupCanBeEarly(policy: SessionPolicy) returns (ops: seq<Op>, now: Instant)
    requires policy.idle >= 2 && FourDigitYear(StartTime(policy.ttl) + policy.ttl)
    ensures LegalRun(policy, ops + [DoCleanup(now)]) && LegalRun(policy, ops + [DoValidate("s", now, now)])
    ensures ReplyAt(policy, ops + [DoValidate("s", now, now)], |ops|).Principal?
    ensures "s" in After(policy, ops).t.sessions && "s" !in After(policy, ops + [DoCleanup(now)]).t.sessions
  {
    hide *;
    ops, now := KeptAlive(policy, policy.ttl - 1), Touch(policy, policy.ttl - 1).now;
    SessionIsKeptAlive(policy, policy.ttl - 1);
    OneMore(policy, ops, DoCleanup(now));
    OneMore(policy, ops, DoValidate("s", now, now));
    LastNanosecond(policy, After(policy, ops));
  }

  lemma LastNanosecond(policy: SessionPolicy, w: World)
    requires policy.idle >= 2 && FourDigitYear(StartTime(policy.ttl) + policy.ttl) && Lively(policy, w, policy.ttl - 1)
    ensures var now := Touch(policy, policy.ttl - 1).now;
            && Legal(w, DoCleanup(now)) && Legal(w, DoValidate("s", now, now))
            && Perform(policy, w.t, DoValidate("s", now, now)).1.Principal?
            && "s" in w.t.sessions && "s" !in Apply(policy, w, DoCleanup(now)).t.sessions
  {
    hide *;
    ExpiryTime(policy);
    LastValidation(policy, w);
    LastCleanup(policy, w);
  }

  lemma ExpiryTime(policy: SessionPolicy)
    ensures Touch(policy, policy.ttl - 1).now + 1 == StartTime(policy.ttl) + policy.ttl
    ensures exists k: nat :: StartTime(policy.ttl) + policy.ttl == k * SECOND + 1
  {
    var k: nat := policy.ttl / SECOND + 1;
    assert StartTime(policy.ttl) + policy.ttl == k * SECOND + 1;
  }

  lemma LastValidation(policy: SessionPolicy, w: World)
    requires policy.idle >= 2 && Lively(policy, w, policy.ttl - 1)
    ensures var now := Touch(policy, policy.ttl - 1).now;
            && Legal(w, DoCleanup(now)) && Legal(w, DoValidate("s", now, now))
            && Perform(policy, w.t, DoValidate("s", now, now)).1.Principal? && "s" in w.t.sessions
  {
    hide StartTime;
  }

  lemma LastCleanup(policy: SessionPolicy, w: World)
    requires FourDigitYear(StartTime(policy.ttl) + policy.ttl) && Lively(policy, w, policy.ttl - 1)
    ensures "s" !in Apply(policy, w, DoCleanup(Touch(policy, policy.ttl - 1).now)).t.sessions
  {
    hide *;
    var now := Touch(policy, policy.ttl - 1).now;
    ExpiryTime(policy);
    LivelyRow(policy, w);
    CleanupIs(policy, w, now);
    var k: nat :| StartTime(policy.ttl) + policy.ttl == k * SECOND + 1;
    OneNanosecondLater(k);
    EarlyCleanupOnlyInLastSecond(w.t, "s", now);
  }

  lemma LivelyRow(policy: SessionPolicy, w: World)
    requires Lively(policy, w, policy.ttl - 1)
    ensures "s" in w.t.sessions && w.t.sessions["s"].revokedAt == None
    ensures w.t.sessions["s"].expiresAt == StartTime(policy.ttl) + policy.ttl
  {
    hide StartTime;
  }

  lemma CleanupIs(policy: SessionPolicy, w: World, now: Instant)
    ensures Apply(policy, w, DoCleanup(now)).t == CleanupSessions(w.t, now).0
  {
    hide CleanupSessions;
  }
}
