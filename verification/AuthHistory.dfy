/** The state of the identity and session tables told from the calls and their replies alone, over whole runs. */
module AuthHistory {
  import opened Wrappers
  import opened TextOrder
  import opened Timestamps
  import opened AuthTables
  import opened AuthRuns
  import opened AuthLaws
  import opened AuthAcceptance

  // ---------------------------------------------------------------- users

  /** The call made a user. */
  predicate Makes(op: Op, r: Reply)
  {
    (op.DoBootstrap? && r.Opened?) || (op.DoCreateUser? && r == Done)
  }

  ghost predicate MakesAt(policy: SessionPolicy, ops: seq<Op>, k: nat)
    requires k < |ops|
  {
    Makes(ops[k], ReplyAt(policy, ops, k))
  }

  /** How many of the first n calls made a user. */
  ghost function Made(policy: SessionPolicy, ops: seq<Op>, n: nat): nat
    requires n <= |ops|
  {
    if n == 0 then 0 else Made(policy, ops, n - 1) + if MakesAt(policy, ops, n - 1) then 1 else 0
  }

  /** Call k made the user that has this id: ids are handed out in order, from 1. */
  ghost predicate MakesUserAt(policy: SessionPolicy, ops: seq<Op>, k: nat, id: int)
    requires k < |ops|
  {
    MakesAt(policy, ops, k) && id == Made(policy, ops, k) + 1
  }

  lemma StepUsers(policy: SessionPolicy, t: Tables, op: Op, id: int)
    ensures var (t', r) := Perform(policy, t, op);
            && t'.lastUserId == t.lastUserId + (if Makes(op, r) then 1 else 0)
            && (id in t'.users <==> id in t.users || (Makes(op, r) && id == t'.lastUserId))
            && (Makes(op, r) ==> t'.users[t'.lastUserId].username == op.username)
            && (op.DoBootstrap? && r.Opened? ==> r.userId == t'.lastUserId)
  {
    hide HashToken, HashPassword, UsernameTaken, ActiveUsers, Text, Less;
  }

  /** The users are numbered 1, 2, ... in the order in which calls made them. */
  lemma {:induction false} UsersAreNumbered(policy: SessionPolicy, ops: seq<Op>, n: nat, id: int)
    requires LegalRun(policy, ops) && n <= |ops|
    ensures After(policy, ops[..n]).t.lastUserId == Made(policy, ops, n)
    ensures id in After(policy, ops[..n]).t.users <==> 1 <= id <= Made(policy, ops, n)
    decreases n
  {
    hide Perform, Inv, LegalRun, Legal, Apply;
    if n > 0 {
      hide After;
      UsersAreNumbered(policy, ops, n - 1, id);
      RunOn(policy, ops, n - 1);
      StepUsers(policy, After(policy, ops[..n - 1]).t, ops[n - 1], id);
    }
  }

  /** A bootstrap that succeeds tells the number of the user it made. */
  lemma BootstrapNumber(policy: SessionPolicy, ops: seq<Op>, k: nat)
    requires LegalRun(policy, ops) && k < |ops| && ops[k].DoBootstrap? && ReplyAt(policy, ops, k).Opened?
    ensures MakesUserAt(policy, ops, k, ReplyAt(policy, ops, k).userId)
  {
    hide Perform, Inv, LegalRun, Legal, Apply, After;
    UsersAreNumbered(policy, ops, k, 0);
    StepUsers(policy, After(policy, ops[..k]).t, ops[k], 0);
  }

  /** A user keeps the name given in the call that made it. */
  lemma {:induction false} NameIsGiven(policy: SessionPolicy, ops: seq<Op>, k: nat, n: nat)
    requires LegalRun(policy, ops) && k < n <= |ops| && MakesAt(policy, ops, k)
    ensures var users, id := After(policy, ops[..n]).t.users, Made(policy, ops, k) + 1;
            id in users && users[id].username == ops[k].username
    decreases n
  {
    hide Perform, Inv, LegalRun, Legal, Apply, After, Made;
    RunOn(policy, ops, n - 1);
    if n == k + 1 {
      UsersAreNumbered(policy, ops, k, 0);
      StepUsers(policy, After(policy, ops[..k]).t, ops[k], Made(policy, ops, k) + 1);
    } else {
      NameIsGiven(policy, ops, k, n - 1);
      StepAt(policy, ops, n - 1);
      StepAdvancesUsers(policy, After(policy, ops[..n - 1]), ops[n - 1]);
    }
  }

  /** Every number up to the count belongs to a call. */
  lemma {:induction false} UserWasMade(policy: SessionPolicy, ops: seq<Op>, n: nat, id: int) returns (k: nat)
    requires n <= |ops| && 1 <= id <= Made(policy, ops, n)
    ensures k < n && MakesUserAt(policy, ops, k, id)
    decreases n
  {
    if id <= Made(policy, ops, n - 1) {
      k := UserWasMade(policy, ops, n - 1, id);
    } else {
      k := n - 1;
    }
  }

  /** A name is taken exactly if a call gave it to a user. */
  lemma TakenIff(policy: SessionPolicy, ops: seq<Op>, n: nat, username: string)
    requires LegalRun(policy, ops) && n <= |ops|
    ensures UsernameTaken(After(policy, ops[..n]).t, username) <==>
            exists k :: 0 <= k < n && MakesAt(policy, ops, k) && ops[k].username == username
  {
    hide Perform, Inv, LegalRun, Legal, Apply, After, Made, ReplyAt;
    var t := After(policy, ops[..n]).t;
    if id :| id in t.users && t.users[id].username == username {
      UsersAreNumbered(policy, ops, n, id);
      var k := UserWasMade(policy, ops, n, id);
      NameIsGiven(policy, ops, k, n);
    }
    if k :| 0 <= k < n && MakesAt(policy, ops, k) && ops[k].username == username {
      NameIsGiven(policy, ops, k, n);
    }
  }

  // ---------------------------------------------------------------- active users

  predicate Disables(op: Op, r: Reply, id: int)
  {
    op.DoDisable? && op.id == id && r == Done
  }

  predicate Enables(op: Op, r: Reply, id: int)
  {
    op.DoEnable? && op.id == id && r == Done
  }

  ghost predicate DisablesAt(policy: SessionPolicy, ops: seq<Op>, k: nat, id: int)
    requires k < |ops|
  {
    Disables(ops[k], ReplyAt(policy, ops, k), id)
  }

  ghost predicate ActivatesAt(policy: SessionPolicy, ops: seq<Op>, k: nat, id: int)
    requires k < |ops|
  {
    MakesUserAt(policy, ops, k, id) || Enables(ops[k], ReplyAt(policy, ops, k), id)
  }

  /** Some call made or enabled the user, and no call since has disabled it. */
  ghost predicate StandsActive(policy: SessionPolicy, ops: seq<Op>, n: nat, id: int)
    requires n <= |ops|
  {
    exists k :: 0 <= k < n && ActivatesAt(policy, ops, k, id) && forall m | k < m < n :: !DisablesAt(policy, ops, m, id)
  }

  lemma StepActive(policy: SessionPolicy, t: Tables, op: Op, id: int)
    ensures var (t', r) := Perform(policy, t, op);
            Active(t', id) <==> (Makes(op, r) && id == t'.lastUserId) || Enables(op, r, id) || (Active(t, id) && !Disables(op, r, id))
  {
    hide HashToken, HashPassword, UsernameTaken, ActiveUsers, Text, Less, DisableGuard;
    assert op.DoDisable? && Perform(policy, t, op).1 == Done ==> DisableGuard(t, op.id) == None;
    GuardNeedsUser(t, id);
  }

  lemma GuardNeedsUser(t: Tables, id: int)
    ensures DisableGuard(t, id) == None ==> id in t.users
  {
  }

  /** A user is active exactly if no disabling follows its creation or its last enabling. */
  lemma {:induction false} ActiveIff(policy: SessionPolicy, ops: seq<Op>, n: nat, id: int)
    requires LegalRun(policy, ops) && n <= |ops|
    ensures Active(After(policy, ops[..n]).t, id) <==> StandsActive(policy, ops, n, id)
    decreases n
  {
    hide Perform, Inv, LegalRun, Legal, Apply, Made;
    if n > 0 {
      var t := After(policy, ops[..n - 1]).t;
      hide After, Active;
      ActiveIff(policy, ops, n - 1, id);
      RunOn(policy, ops, n - 1);
      UsersAreNumbered(policy, ops, n - 1, id);
      StepUsers(policy, t, ops[n - 1], id);
      StepActive(policy, t, ops[n - 1], id);
      hide ReplyAt, Enables, Disables, Makes, MakesAt, MakesUserAt;
      NextActive(policy, ops, n - 1, id);
    }
  }

  lemma NextActive(policy: SessionPolicy, ops: seq<Op>, n: nat, id: int)
    requires n < |ops|
    ensures StandsActive(policy, ops, n + 1, id) <==>
            ActivatesAt(policy, ops, n, id) || (StandsActive(policy, ops, n, id) && !DisablesAt(policy, ops, n, id))
  {
    hide ActivatesAt, DisablesAt;
    if ActivatesAt(policy, ops, n, id) {
      assert StandsActive(policy, ops, n + 1, id);
    }
    if k :| 0 <= k < n && ActivatesAt(policy, ops, k, id) && forall m | k < m < n :: !DisablesAt(policy, ops, m, id) {
      assert StandsActive(policy, ops, n, id);
      assert !DisablesAt(policy, ops, n, id) ==> forall m | k < m < n + 1 :: !DisablesAt(policy, ops, m, id);
    }
    if StandsActive(policy, ops, n + 1, id) && !ActivatesAt(policy, ops, n, id) {
      var k :| 0 <= k < n + 1 && ActivatesAt(policy, ops, k, id) && forall m | k < m < n + 1 :: !DisablesAt(policy, ops, m, id);
      assert k < n;
    }
  }

  /** When a call on a user is done. */
  lemma UserRepliesIff(policy: SessionPolicy, ops: seq<Op>, j: nat)
    requires LegalRun(policy, ops) && j < |ops|
    ensures ops[j].DoCreateUser? ==>
              (ReplyAt(policy, ops, j) == Done <==>
               && ops[j].username != ""
               && !exists k :: 0 <= k < j && MakesAt(policy, ops, k) && ops[k].username == ops[j].username)
    ensures ops[j].DoEnable? ==>
              (ReplyAt(policy, ops, j) == Done <==> 1 <= ops[j].id <= Made(policy, ops, j))
    ensures ops[j].DoGrant? ==>
              (ReplyAt(policy, ops, j) == Done <==> ops[j].capability in CAPABILITIES && 1 <= ops[j].id <= Made(policy, ops, j))
    ensures ops[j].DoDisable? ==>
              (ReplyAt(policy, ops, j) == Done <==>
               && StandsActive(policy, ops, j, ops[j].id)
               && !(ops[j].id in SuperAdmins(After(policy, ops[..j]).t))
               && ActiveManagers(After(policy, ops[..j]).t) != {ops[j].id})
  {
    hide Inv, LegalRun, Legal, Apply, After, Made, StandsActive, MakesAt, Perform;
    var t := After(policy, ops[..j]).t;
    match ops[j] {
      case DoCreateUser(username, _) =>
        TakenIff(policy, ops, j, username);
        CreateReply(policy, t, ops[j]);
      case DoEnable(id, _) =>
        UsersAreNumbered(policy, ops, j, id);
        EnableReply(policy, t, ops[j]);
      case DoGrant(id, _, _) =>
        UsersAreNumbered(policy, ops, j, id);
        GrantReply(policy, t, ops[j]);
      case DoDisable(id, _) =>
        ActiveIff(policy, ops, j, id);
        StepAt(policy, ops, j);
        DisableReply(policy, After(policy, ops[..j]), ops[j]);
      case _ =>
    }
  }

  ghost predicate BootstrapsAt(policy: SessionPolicy, ops: seq<Op>, k: nat)
    requires k < |ops|
  {
    ops[k].DoBootstrap? && ReplyAt(policy, ops, k).Opened?
  }

  lemma StepClaims(policy: SessionPolicy, t: Tables, op: Op)
    ensures var (t', r) := Perform(policy, t, op);
            t'.bootstrapClaimed <==> t.bootstrapClaimed || (op.DoBootstrap? && r.Opened?)
  {
    hide HashToken, HashPassword, UsernameTaken, ActiveUsers, ActiveManagers, Text, Less, DisableGuard;
  }

  /** The claim on bootstrap is taken exactly if a bootstrap succeeded. */
  lemma {:induction false} ClaimedIff(policy: SessionPolicy, ops: seq<Op>, n: nat)
    requires LegalRun(policy, ops) && n <= |ops|
    ensures After(policy, ops[..n]).t.bootstrapClaimed <==> exists k :: 0 <= k < n && BootstrapsAt(policy, ops, k)
    decreases n
  {
    hide Perform, Inv, LegalRun, Legal, Apply;
    if n > 0 {
      ClaimedIff(policy, ops, n - 1);
      RunOn(policy, ops, n - 1);
      StepClaims(policy, After(policy, ops[..n - 1]).t, ops[n - 1]);
      assert BootstrapsAt(policy, ops, n - 1) <==> ops[n - 1].DoBootstrap? && ReplyAt(policy, ops, n - 1).Opened?;
      hide After, BootstrapsAt;
    }
  }

  lemma BootstrapReply(policy: SessionPolicy, w: World, op: Op)
    requires Inv(policy, w) && Legal(w, op) && op.DoBootstrap?
    ensures Perform(policy, w.t, op).1.Opened? <==>
            && op.username != "" && op.password != "" && !w.t.bootstrapClaimed
            && (forall id :: !Active(w.t, id)) && !UsernameTaken(w.t, op.username)
  {
    hide Governed, UsersFit, UsernameTaken, HashToken, HashPassword;
    if id :| Active(w.t, id) {
      assert id in ActiveUsers(w.t);
    } else {
      assert ActiveUsers(w.t) == {};
    }
  }

  /** A bootstrap succeeds exactly for a name and a password, before any other, with no active user and a free name. */
  lemma BootstrapIff(policy: SessionPolicy, ops: seq<Op>, j: nat)
    requires LegalRun(policy, ops) && j < |ops| && ops[j].DoBootstrap?
    ensures ReplyAt(policy, ops, j).Opened? <==>
            && ops[j].username != "" && ops[j].password != ""
            && (!exists k :: 0 <= k < j && BootstrapsAt(policy, ops, k))
            && (forall id :: !StandsActive(policy, ops, j, id))
            && !exists k :: 0 <= k < j && MakesAt(policy, ops, k) && ops[k].username == ops[j].username
  {
    hide Perform, Inv, LegalRun, Legal, Apply, After, StandsActive, BootstrapsAt, Active;
    ClaimedIff(policy, ops, j);
    TakenIff(policy, ops, j, ops[j].username);
    forall id ensures Active(After(policy, ops[..j]).t, id) <==> StandsActive(policy, ops, j, id) {
      ActiveIff(policy, ops, j, id);
    }
    StepAt(policy, ops, j);
    BootstrapReply(policy, After(policy, ops[..j]), ops[j]);
  }

  lemma CreateReply(policy: SessionPolicy, t: Tables, op: Op)
    requires op.DoCreateUser?
    ensures Perform(policy, t, op).1 == Done <==> op.username != "" && !UsernameTaken(t, op.username)
  {
    hide UsernameTaken;
  }

  lemma EnableReply(policy: SessionPolicy, t: Tables, op: Op)
    requires op.DoEnable?
    ensures Perform(policy, t, op).1 == Done <==> op.id in t.users
  {
  }

  lemma GrantReply(policy: SessionPolicy, t: Tables, op: Op)
    requires op.DoGrant?
    ensures Perform(policy, t, op).1 == Done <==> op.capability in CAPABILITIES && op.id in t.users
  {
    hide CAPABILITIES;
  }

  lemma DisableReply(policy: SessionPolicy, w: World, op: Op)
    requires op.DoDisable? && Inv(policy, w)
    ensures Perform(policy, w.t, op).1 == Done <==>
            Active(w.t, op.id) && op.id !in SuperAdmins(w.t) && ActiveManagers(w.t) != {op.id}
  {
    hide SessionsFit;
    if Active(w.t, op.id) && w.t.bootstrapClaimed {
      DisableRefusedIff(w.t, op.id, op.now);
    } else if Active(w.t, op.id) {
      OnlyMember(ActiveManagers(w.t), op.id);
    }
  }

  // ---------------------------------------------------------------- capabilities

  /** The call gave the user exactly this capability. */
  predicate Gives(op: Op, r: Reply, id: int, capability: string)
  {
    || (op.DoGrant? && op.id == id && op.capability == capability && r == Done)
    || (op.DoBootstrap? && r.Opened? && r.userId == id && capability == MANAGE)
  }

  predicate Takes(op: Op, r: Reply, id: int, capability: string)
  {
    op.DoRevokeCapability? && op.id == id && op.capability == capability && r == Done
  }

  ghost predicate GivesAt(policy: SessionPolicy, ops: seq<Op>, k: nat, id: int, capability: string)
    requires k < |ops|
  {
    Gives(ops[k], ReplyAt(policy, ops, k), id, capability)
  }

  ghost predicate TakesAt(policy: SessionPolicy, ops: seq<Op>, k: nat, id: int, capability: string)
    requires k < |ops|
  {
    Takes(ops[k], ReplyAt(policy, ops, k), id, capability)
  }

  /** Some call gave the user this capability, and no call since has taken it. */
  ghost predicate Holds(policy: SessionPolicy, ops: seq<Op>, n: nat, id: int, capability: string)
    requires n <= |ops|
  {
    exists k :: 0 <= k < n && GivesAt(policy, ops, k, id, capability)
                && forall m | k < m < n :: !TakesAt(policy, ops, m, id, capability)
  }

  lemma StepGrants(policy: SessionPolicy, t: Tables, op: Op, id: int, capability: string)
    ensures var (t', r) := Perform(policy, t, op);
            (id, capability) in t'.grants <==>
            Gives(op, r, id, capability) || ((id, capability) in t.grants && !Takes(op, r, id, capability))
  {
    hide HashToken, HashPassword, UsernameTaken, ActiveUsers, ActiveManagers, Text, Less, DisableGuard;
  }

  lemma NextHolds(policy: SessionPolicy, ops: seq<Op>, n: nat, id: int, capability: string)
    requires n < |ops|
    ensures Holds(policy, ops, n + 1, id, capability) <==>
            || GivesAt(policy, ops, n, id, capability)
            || (Holds(policy, ops, n, id, capability) && !TakesAt(policy, ops, n, id, capability))
  {
    hide GivesAt, TakesAt;
    if GivesAt(policy, ops, n, id, capability) {
      assert Holds(policy, ops, n + 1, id, capability);
    }
    if k :| 0 <= k < n && GivesAt(policy, ops, k, id, capability)
            && forall m | k < m < n :: !TakesAt(policy, ops, m, id, capability) {
      assert !TakesAt(policy, ops, n, id, capability) ==> forall m | k < m < n + 1 :: !TakesAt(policy, ops, m, id, capability);
    }
    if Holds(policy, ops, n + 1, id, capability) && !GivesAt(policy, ops, n, id, capability) {
      var k :| 0 <= k < n + 1 && GivesAt(policy, ops, k, id, capability)
               && forall m | k < m < n + 1 :: !TakesAt(policy, ops, m, id, capability);
      assert k < n;
    }
  }

  /** A user holds a capability exactly if a call gave it that one and no call since has taken that one. */
  lemma {:induction false} GrantedIff(policy: SessionPolicy, ops: seq<Op>, n: nat, id: int, capability: string)
    requires LegalRun(policy, ops) && n <= |ops|
    ensures (id, capability) in After(policy, ops[..n]).t.grants <==> Holds(policy, ops, n, id, capability)
    decreases n
  {
    hide Perform, Inv, LegalRun, Legal, Apply;
    if n > 0 {
      var t := After(policy, ops[..n - 1]).t;
      hide After;
      GrantedIff(policy, ops, n - 1, id, capability);
      RunOn(policy, ops, n - 1);
      StepGrants(policy, t, ops[n - 1], id, capability);
      NextHolds(policy, ops, n - 1, id, capability);
      hide Gives, Takes;
    }
  }

  /** Taking a capability is done exactly if the user holds it, unless it is the last active manager's hold on managing. */
  lemma TakingIff(policy: SessionPolicy, ops: seq<Op>, j: nat)
    requires LegalRun(policy, ops) && j < |ops| && ops[j].DoRevokeCapability?
    ensures ReplyAt(policy, ops, j) == Done <==>
            && ops[j].capability in CAPABILITIES && Holds(policy, ops, j, ops[j].id, ops[j].capability)
            && (ops[j].capability == MANAGE ==> |ActiveManagers(After(policy, ops[..j]).t)| > 1)
  {
    hide Perform, Inv, LegalRun, Legal, Apply, After, Holds;
    GrantedIff(policy, ops, j, ops[j].id, ops[j].capability);
    TakingReply(policy, After(policy, ops[..j]).t, ops[j]);
  }

  lemma TakingReply(policy: SessionPolicy, t: Tables, op: Op)
    requires op.DoRevokeCapability?
    ensures Perform(policy, t, op).1 == Done <==>
            && op.capability in CAPABILITIES && (op.id, op.capability) in t.grants
            && (op.capability == MANAGE ==> |ActiveManagers(t)| > 1)
  {
    hide CAPABILITIES;
  }

  // ---------------------------------------------------------------- sessions

  /** The first call that opened a session under this id. */
  ghost predicate OpensAt(policy: SessionPolicy, ops: seq<Op>, c: nat, sid: string)
    requires c < |ops|
  {
    OpensSession(ops[c]) && ops[c].sid == sid && ReplyAt(policy, ops, c).Opened?
  }

  lemma StepRows(policy: SessionPolicy, t: Tables, op: Op, sid: string)
    ensures var (t', r) := Perform(policy, t, op);
            sid in t'.sessions && sid !in t.sessions ==> OpensSession(op) && op.sid == sid && r.Opened?
  {
    hide HashToken, HashPassword, UsernameTaken, ActiveUsers, ActiveManagers, Text, Less, DisableGuard;
  }

  /** Every session row leads back to the call that opened it. */
  lemma {:induction false} RowWasOpened(policy: SessionPolicy, ops: seq<Op>, n: nat, sid: string) returns (c: nat)
    requires LegalRun(policy, ops) && n <= |ops| && sid in After(policy, ops[..n]).t.sessions
    ensures c < n && OpensAt(policy, ops, c, sid)
    decreases n
  {
    hide Perform, Inv, LegalRun, Legal, Apply;
    RunOn(policy, ops, n - 1);
    StepRows(policy, After(policy, ops[..n - 1]).t, ops[n - 1], sid);
    if sid in After(policy, ops[..n - 1]).t.sessions {
      c := RowWasOpened(policy, ops, n - 1, sid);
    } else {
      c := n - 1;
    }
  }

  ghost predicate Unended(policy: SessionPolicy, ops: seq<Op>, c: nat, n: nat, sid: string, userId: int, expiresAt: Instant)
    requires n <= |ops|
  {
    forall k | c < k < n :: !EndsAt(policy, ops, k, sid, userId, expiresAt)
  }

  /** No call since its opening revoked the session, disabled its user or cleaned it up. */
  ghost predicate StandsOpen(policy: SessionPolicy, ops: seq<Op>, c: nat, n: nat)
    requires c < n <= |ops| && OpensSession(ops[c]) && ReplyAt(policy, ops, c).Opened?
  {
    Unended(policy, ops, c, n, ops[c].sid, ReplyAt(policy, ops, c).userId, SeenAt(ops[c]) + policy.ttl)
  }

  /** What a CSRF test needs of its state. */
  lemma CsrfFrom(policy: SessionPolicy, w: World, op: Op, userId: int, expiresAt: Instant, csrf: string)
    requires op.DoValidateCSRF? && RowIs(w, op.sid, userId, expiresAt)
    requires op.sid in w.t.sessions ==> w.t.sessions[op.sid].csrfHash == HashToken(csrf)
    ensures Perform(policy, w.t, op).1 ==
            if op.csrf != "" && op.csrf == csrf && Alive(w, op.sid) && Less(Text(op.now), Text(expiresAt)) then Done
            else Refused(InvalidCSRF)
  {
    HashesDiffer(op.csrf, csrf);
    hide HashToken, Text, Less;
  }

  /**
   In any run, the CSRF test of an issued session is passed if and only if the token is the one drawn with the session and
   is not empty, no call since the opening ended the session, and now sorts before creation plus TTL as text.
   */
  lemma CsrfIff(policy: SessionPolicy, ops: seq<Op>, c: nat, j: nat)
    requires LegalRun(policy, ops) && c < j < |ops| && OpensSession(ops[c]) && ReplyAt(policy, ops, c).Opened?
    requires ops[j].DoValidateCSRF? && ops[j].sid == ops[c].sid
    ensures ReplyAt(policy, ops, j) ==
            if && ops[j].csrf != "" && ops[j].csrf == ops[c].csrf
               && StandsOpen(policy, ops, c, j)
               && Less(Text(ops[j].now), Text(SeenAt(ops[c]) + policy.ttl))
            then Done else Refused(InvalidCSRF)
  {
    hide Perform, Inv, LegalRun, Legal, After, Apply, RowIs, Alive, ReplyAt, EndsAt, SeenAt, Text, Less, HashToken, StandsOpen;
    var userId, expiresAt := ReplyAt(policy, ops, c).userId, SeenAt(ops[c]) + policy.ttl;
    AliveIffStandsOpen(policy, ops, c, j);
    CsrfRow(policy, ops, c, j);
    CsrfFrom(policy, After(policy, ops[..j]), ops[j], userId, expiresAt, ops[c].csrf);
    ReplyIs(policy, ops, j);
  }

  lemma AliveIffStandsOpen(policy: SessionPolicy, ops: seq<Op>, c: nat, n: nat)
    requires LegalRun(policy, ops) && c < n <= |ops| && OpensSession(ops[c]) && ReplyAt(policy, ops, c).Opened?
    ensures RowIs(After(policy, ops[..n]), ops[c].sid, ReplyAt(policy, ops, c).userId, SeenAt(ops[c]) + policy.ttl)
    ensures Alive(After(policy, ops[..n]), ops[c].sid) <==> StandsOpen(policy, ops, c, n)
  {
    hide Perform, Inv, LegalRun, Legal, After, Apply, RowIs, Alive, ReplyAt, EndsAt, SeenAt;
    AliveUntilEnded(policy, ops, c, n);
  }

  lemma CsrfRow(policy: SessionPolicy, ops: seq<Op>, c: nat, n: nat)
    requires LegalRun(policy, ops) && c < n <= |ops| && OpensSession(ops[c]) && ReplyAt(policy, ops, c).Opened?
    ensures var sessions := After(policy, ops[..n]).t.sessions;
            ops[c].sid in sessions ==> sessions[ops[c].sid].csrfHash == HashToken(ops[c].csrf)
  {
    hide Perform, Inv, Legal, LegalRun, After, HashToken;
    StepAt(policy, ops, c);
    OpeningRow(policy, After(policy, ops[..c]), ops[c]);
    CsrfHashStays(policy, ops, c + 1, n, ops[c].sid, HashToken(ops[c].csrf));
  }

  lemma RevokeFrom(policy: SessionPolicy, w: World, op: Op)
    requires op.DoRevoke? && op.sid != ""
    ensures Perform(policy, w.t, op).1 == if Alive(w, op.sid) then Done else Refused(InvalidSession)
  {
  }

  /** A revocation of an issued session is done exactly if nothing ended it before; otherwise it is refused. */
  lemma RevocationIff(policy: SessionPolicy, ops: seq<Op>, c: nat, j: nat)
    requires LegalRun(policy, ops) && c < j < |ops| && OpensSession(ops[c]) && ReplyAt(policy, ops, c).Opened?
    requires ops[j].DoRevoke? && ops[j].sid == ops[c].sid
    ensures ReplyAt(policy, ops, j) == if StandsOpen(policy, ops, c, j) then Done else Refused(InvalidSession)
  {
    OpeningIsAlive(policy, ops, c);
    hide Perform, Inv, LegalRun, Legal, After, Apply, Alive, ReplyAt, EndsAt, StandsOpen, SeenAt;
    AliveIffStandsOpen(policy, ops, c, j);
    RevokeFrom(policy, After(policy, ops[..j]), ops[j]);
    ReplyIs(policy, ops, j);
  }

  lemma UnknownReply(policy: SessionPolicy, t: Tables, op: Op)
    requires op.DoValidate? || op.DoValidateCSRF? || op.DoRevoke?
    requires op.sid !in t.sessions
    ensures Perform(policy, t, op).1 == Refused(if op.DoValidateCSRF? then InvalidCSRF else InvalidSession)
  {
    hide Text, Less;
  }

  /** An id under which no session was opened is refused by all three calls. */
  lemma UnknownSessionIsRefused(policy: SessionPolicy, ops: seq<Op>, j: nat)
    requires LegalRun(policy, ops) && j < |ops| && (ops[j].DoValidate? || ops[j].DoValidateCSRF? || ops[j].DoRevoke?)
    requires forall c | 0 <= c < j :: !OpensAt(policy, ops, c, ops[j].sid)
    ensures ReplyAt(policy, ops, j) == Refused(if ops[j].DoValidateCSRF? then InvalidCSRF else InvalidSession)
  {
    hide Perform, Inv, LegalRun, Legal, After, Apply, OpensAt;
    if ops[j].sid in After(policy, ops[..j]).t.sessions {
      var c := RowWasOpened(policy, ops, j, ops[j].sid);
    } else {
      UnknownReply(policy, After(policy, ops[..j]).t, ops[j]);
    }
  }

  /** A cleanup at step m finds the session of step c ended, by itself or an earlier call. */
  ghost predicate CleanedAt(policy: SessionPolicy, ops: seq<Op>, c: nat, m: nat)
    requires c < m < |ops| && OpensSession(ops[c]) && ReplyAt(policy, ops, c).Opened?
  {
    ops[m].DoCleanup? && !StandsOpen(policy, ops, c, m + 1)
  }

  lemma StepRowStays(policy: SessionPolicy, w: World, op: Op, sid: string)
    requires Legal(w, op) && sid in w.issued
    ensures var w' := Apply(policy, w, op);
            sid in w'.t.sessions <==> sid in w.t.sessions && (op.DoCleanup? ==> Alive(w', sid))
  {
    hide Inv, HashToken, HashPassword, UsernameTaken, ActiveUsers, ActiveManagers, Text, Less, DisableGuard, SessionsAdvance;
    if OpensSession(op) {
      OpeningKeepsRows(policy, w, op, sid);
    }
  }

  lemma OpeningKeepsRows(policy: SessionPolicy, w: World, op: Op, sid: string)
    requires Legal(w, op) && OpensSession(op) && sid in w.issued
    ensures sid in Apply(policy, w, op).t.sessions <==> sid in w.t.sessions
  {
    hide HashToken, HashPassword, UsernameTaken, ActiveUsers, ActiveManagers;
  }

  /** The row of a session stays in the table exactly until a cleanup finds it ended. */
  lemma {:induction false} RowStaysIff(policy: SessionPolicy, ops: seq<Op>, c: nat, n: nat)
    requires LegalRun(policy, ops) && c < n <= |ops| && OpensSession(ops[c]) && ReplyAt(policy, ops, c).Opened?
    ensures ops[c].sid in After(policy, ops[..n]).t.sessions <==> forall m | c < m < n :: !CleanedAt(policy, ops, c, m)
    decreases n
  {
    hide Perform, Inv, LegalRun, Legal, After, Apply, ReplyAt, StandsOpen, SeenAt, Alive, RowIs, CleanedAt;
    if n == c + 1 {
      OpeningIsAlive(policy, ops, c);
      AliveHasRow(After(policy, ops[..n]), ops[c].sid);
    } else {
      RowStaysIff(policy, ops, c, n - 1);
      AliveIffStandsOpen(policy, ops, c, n - 1);
      AliveIffStandsOpen(policy, ops, c, n);
      StepAt(policy, ops, n - 1);
      RowIsIssued(After(policy, ops[..n - 1]), ops[c].sid, ReplyAt(policy, ops, c).userId, SeenAt(ops[c]) + policy.ttl);
      StepRowStays(policy, After(policy, ops[..n - 1]), ops[n - 1], ops[c].sid);
      CleanedMeans(policy, ops, c, n - 1);
    }
  }

  lemma CleanedMeans(policy: SessionPolicy, ops: seq<Op>, c: nat, m: nat)
    requires c < m < |ops| && OpensSession(ops[c]) && ReplyAt(policy, ops, c).Opened?
    ensures CleanedAt(policy, ops, c, m) <==> ops[m].DoCleanup? && !StandsOpen(policy, ops, c, m + 1)
  {
    hide StandsOpen, ReplyAt;
  }

  lemma AliveHasRow(w: World, sid: string)
    ensures Alive(w, sid) ==> sid in w.t.sessions
  {
  }

  lemma RowIsIssued(w: World, sid: string, userId: int, expiresAt: Instant)
    ensures RowIs(w, sid, userId, expiresAt) ==> sid in w.issued
  {
  }

  lemma CleanupReply(policy: SessionPolicy, t: Tables, op: Op)
    requires op.DoCleanup?
    ensures var (t', r) := Perform(policy, t, op); r == Removed(|t.sessions| - |t'.sessions|)
  {
    hide Text, Less;
    var gone := Stale(t, op.now);
    var left := Perform(policy, t, op).0;
    assert left.sessions.Keys == t.sessions.Keys - gone && gone <= t.sessions.Keys;
    assert |left.sessions.Keys| == |t.sessions.Keys| - |gone|;
  }

  lemma PrincipalIs(policy: SessionPolicy, t: Tables, op: Op)
    requires op.DoValidate? && Perform(policy, t, op).1.Principal?
    ensures var r := Perform(policy, t, op).1; r.id in t.users && r.username == t.users[r.id].username
  {
  }

  /** An accepted validation names the user the session was opened for, by the name given when that user was made. */
  lemma AcceptedAsItsUser(policy: SessionPolicy, ops: seq<Op>, c: nat, j: nat) returns (k: nat)
    requires LegalRun(policy, ops) && c < j < |ops| && OpensSession(ops[c]) && ReplyAt(policy, ops, c).Opened?
    requires ops[j].DoValidate? && ops[j].sid == ops[c].sid && ReplyAt(policy, ops, j).Principal?
    ensures k < j && MakesUserAt(policy, ops, k, ReplyAt(policy, ops, c).userId)
    ensures ReplyAt(policy, ops, j) == Principal(ReplyAt(policy, ops, c).userId, ops[k].username)
  {
    hide Perform, Inv, LegalRun, Legal, After, Apply, Made;
    AcceptedBeforeExpiry(policy, ops, c, j);
    PrincipalIs(policy, After(policy, ops[..j]).t, ops[j]);
    UsersAreNumbered(policy, ops, j, ReplyAt(policy, ops, c).userId);
    k := UserWasMade(policy, ops, j, ReplyAt(policy, ops, c).userId);
    NameIsGiven(policy, ops, k, j);
  }

  // ---------------------------------------------------------------- magic tokens

  /** The call issued this token. */
  ghost predicate IssuesAt(policy: SessionPolicy, ops: seq<Op>, k: nat, token: string)
    requires k < |ops|
  {
    ops[k].DoIssue? && ops[k].token == token && ReplyAt(policy, ops, k) == Done
  }

  lemma IssueReply(policy: SessionPolicy, t: Tables, op: Op)
    requires op.DoIssue?
    ensures Perform(policy, t, op).1 ==
            if op.ttl <= 0 then Refused(InvalidInput)
            else if op.userId !in t.users then Refused(UserNotFound)
            else if !Active(t, op.userId) then Refused(UserDisabled)
            else if op.createdBy in t.users && HashToken(op.token) !in t.tokens then Done
            else Refused(ConstraintFailed)
  {
    hide HashToken;
  }

  lemma {:induction false} TokenStays(policy: SessionPolicy, ops: seq<Op>, k: nat, n: nat)
    requires LegalRun(policy, ops) && k < n <= |ops| && ops[k].DoIssue? && ReplyAt(policy, ops, k) == Done
    ensures HashToken(ops[k].token) in After(policy, ops[..n]).t.tokens
  {
    ConsumedByRedemption(policy, ops, k, n);
    hide After, ReplyAt, LegalRun;
  }

  /** A token is in the table exactly if a call issued it. */
  lemma TokenInTableIff(policy: SessionPolicy, ops: seq<Op>, n: nat, token: string)
    requires LegalRun(policy, ops) && n <= |ops|
    ensures HashToken(token) in After(policy, ops[..n]).t.tokens <==> exists k :: 0 <= k < n && IssuesAt(policy, ops, k, token)
  {
    hide Perform, Inv, LegalRun, Legal, After, Apply, HashToken, ReplyAt;
    if HashToken(token) in After(policy, ops[..n]).t.tokens {
      var k := TokenWasIssued(policy, ops, n, token);
      assert IssuesAt(policy, ops, k, token);
    }
    if k :| 0 <= k < n && IssuesAt(policy, ops, k, token) {
      TokenStays(policy, ops, k, n);
    }
  }

  /**
   The reply to an issue, from the calls before it: refused for a lifetime that is not positive, for an owner that was never
   made, for one that is disabled, and for a creator never made or a token issued before, in this order; done otherwise.
   */
  lemma IssueReplyIs(policy: SessionPolicy, ops: seq<Op>, k: nat)
    requires LegalRun(policy, ops) && k < |ops| && ops[k].DoIssue?
    ensures ReplyAt(policy, ops, k) ==
            if ops[k].ttl <= 0 then Refused(InvalidInput)
            else if !(1 <= ops[k].userId <= Made(policy, ops, k)) then Refused(UserNotFound)
            else if !StandsActive(policy, ops, k, ops[k].userId) then Refused(UserDisabled)
            else if 1 <= ops[k].createdBy <= Made(policy, ops, k)
                    && !exists m :: 0 <= m < k && IssuesAt(policy, ops, m, ops[k].token) then Done
            else Refused(ConstraintFailed)
  {
    hide Perform, Inv, LegalRun, Legal, After, Apply, Made, StandsActive, IssuesAt, HashToken, Active;
    UsersAreNumbered(policy, ops, k, ops[k].userId);
    UsersAreNumbered(policy, ops, k, ops[k].createdBy);
    ActiveIff(policy, ops, k, ops[k].userId);
    TokenInTableIff(policy, ops, k, ops[k].token);
    IssueReply(policy, After(policy, ops[..k]).t, ops[k]);
  }

  /** A redemption that an issue at step k allows at step j. */
  ghost predicate RedeemableBy(policy: SessionPolicy, ops: seq<Op>, k: nat, j: nat)
    requires k < j < |ops| && ops[j].DoLoginMagic?
  {
    && IssuesAt(policy, ops, k, ops[j].token)
    && ops[j].token != ""
    && (forall m | k < m < j :: !RedeemsAt(policy, ops, m, ops[j].token))
    && ops[j].now < ops[k].now + ops[k].ttl
    && StandsActive(policy, ops, j, ops[k].userId)
  }

  lemma RedemptionFromIssue(policy: SessionPolicy, ops: seq<Op>, k: nat, j: nat)
    requires LegalRun(policy, ops) && k < j < |ops| && ops[j].DoLoginMagic? && IssuesAt(policy, ops, k, ops[j].token)
    ensures ReplyAt(policy, ops, j).Opened? <==> RedeemableBy(policy, ops, k, j)
  {
    hide Perform, Inv, LegalRun, Legal, After, Apply, StandsActive, RedeemsAt, ReplyAt, Active;
    RedeemedIff(policy, ops, k, j);
    ActiveIff(policy, ops, j, ops[k].userId);
  }

  /**
   In any run, a redemption under a fresh session id opens a session if and only if a call issued its non-empty token,
   no redemption since has used it, its lifetime is not over, and its owner is active, all told from the calls.
   */
  lemma RedemptionIff(policy: SessionPolicy, ops: seq<Op>, j: nat)
    requires LegalRun(policy, ops) && j < |ops| && ops[j].DoLoginMagic?
    ensures ReplyAt(policy, ops, j).Opened? <==> exists k :: 0 <= k < j && RedeemableBy(policy, ops, k, j)
  {
    hide Perform, Inv, LegalRun, Legal, After, Apply, StandsActive, RedeemsAt, ReplyAt;
    if ReplyAt(policy, ops, j).Opened? {
      var k := RedeemedWhileValid(policy, ops, j);
      assert IssuesAt(policy, ops, k, ops[j].token);
      RedemptionFromIssue(policy, ops, k, j);
    }
    if k :| 0 <= k < j && RedeemableBy(policy, ops, k, j) {
      RedemptionFromIssue(policy, ops, k, j);
    }
  }
}
