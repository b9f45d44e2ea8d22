/** When a session is accepted and when a magic token is redeemed: the exact conditions, over whole runs. */
module AuthAcceptance {
  import opened Wrappers
  import opened TextOrder
  import opened Timestamps
  import opened AuthTables
  import opened AuthRuns
  import opened AuthLaws

  // ---------------------------------------------------------------- sessions

  predicate Alive(w: World, sid: string)
  {
    sid in w.t.sessions && w.t.sessions[sid].revokedAt == None
  }

  /** The call revokes the session, disables its user, or cleans up after its expiry as text has it. */
  ghost predicate Ends(policy: SessionPolicy, w: World, op: Op, sid: string, userId: int, expiresAt: Instant)
  {
    || (op.DoRevoke? && op.sid == sid)
    || (op.DoDisable? && op.id == userId && Perform(policy, w.t, op).1 == Done)
    || (op.DoCleanup? && !Less(Text(op.now), Text(expiresAt)))
  }

  predicate RowIs(w: World, sid: string, userId: int, expiresAt: Instant)
  {
    sid in w.issued && sid != ""
    && (sid in w.t.sessions ==> w.t.sessions[sid].userId == userId && w.t.sessions[sid].expiresAt == expiresAt)
  }

  lemma RevokeEnds(policy: SessionPolicy, w: World, op: Op, sid: string, userId: int, expiresAt: Instant)
    requires RowIs(w, sid, userId, expiresAt) && Alive(w, sid) && op.DoRevoke?
    ensures Alive(Apply(policy, w, op), sid) <==> !Ends(policy, w, op, sid, userId, expiresAt)
  {
  }

  lemma DisableEnds(policy: SessionPolicy, w: World, op: Op, sid: string, userId: int, expiresAt: Instant)
    requires RowIs(w, sid, userId, expiresAt) && Alive(w, sid) && op.DoDisable?
    ensures Alive(Apply(policy, w, op), sid) <==> !Ends(policy, w, op, sid, userId, expiresAt)
  {
    hide DisableGuard;
  }

  lemma CleanupEnds(policy: SessionPolicy, w: World, op: Op, sid: string, userId: int, expiresAt: Instant)
    requires RowIs(w, sid, userId, expiresAt) && Alive(w, sid) && op.DoCleanup?
    ensures Alive(Apply(policy, w, op), sid) <==> !Ends(policy, w, op, sid, userId, expiresAt)
  {
    hide Text;
  }

  lemma OthersDoNotEnd(policy: SessionPolicy, w: World, op: Op, sid: string)
    requires Legal(w, op) && sid in w.issued && Alive(w, sid) && !op.DoRevoke? && !op.DoDisable? && !op.DoCleanup?
    ensures Alive(Apply(policy, w, op), sid)
  {
    hide HashToken, HashPassword, UsernameTaken, ActiveUsers, Active, DisableGuard;
  }

  lemma DeadStaysDead(policy: SessionPolicy, w: World, op: Op, sid: string)
    requires Inv(policy, w) && Legal(w, op) && sid in w.issued && !Alive(w, sid)
    ensures !Alive(Apply(policy, w, op), sid)
  {
    StepAdvancesSessions(policy, w, op);
    hide Perform, Inv;
  }

  lemma StepAlive(policy: SessionPolicy, w: World, op: Op, sid: string, userId: int, expiresAt: Instant)
    requires Inv(policy, w) && Legal(w, op) && RowIs(w, sid, userId, expiresAt)
    ensures RowIs(Apply(policy, w, op), sid, userId, expiresAt)
    ensures Alive(Apply(policy, w, op), sid) <==> Alive(w, sid) && !Ends(policy, w, op, sid, userId, expiresAt)
  {
    hide Perform, Inv, Ends, Legal;
    StepAdvancesSessions(policy, w, op);
    if !Alive(w, sid) {
      DeadStaysDead(policy, w, op, sid);
    } else if op.DoRevoke? {
      RevokeEnds(policy, w, op, sid, userId, expiresAt);
    } else if op.DoDisable? {
      DisableEnds(policy, w, op, sid, userId, expiresAt);
    } else if op.DoCleanup? {
      CleanupEnds(policy, w, op, sid, userId, expiresAt);
    } else {
      OthersDoNotEnd(policy, w, op, sid);
      OnlyThreeEnd(policy, w, op, sid, userId, expiresAt);
    }
  }

  lemma OnlyThreeEnd(policy: SessionPolicy, w: World, op: Op, sid: string, userId: int, expiresAt: Instant)
    requires !op.DoRevoke? && !op.DoDisable? && !op.DoCleanup?
    ensures !Ends(policy, w, op, sid, userId, expiresAt)
  {
  }

  ghost predicate EndsAt(policy: SessionPolicy, ops: seq<Op>, k: nat, sid: string, userId: int, expiresAt: Instant)
    requires k < |ops|
  {
    Ends(policy, After(policy, ops[..k]), ops[k], sid, userId, expiresAt)
  }

  /** A session that was just opened is alive, with its user and expiry. */
  lemma OpeningIsAlive(policy: SessionPolicy, ops: seq<Op>, c: nat)
    requires LegalRun(policy, ops) && c < |ops| && OpensSession(ops[c]) && ReplyAt(policy, ops, c).Opened?
    ensures var w := After(policy, ops[..c + 1]);
            RowIs(w, ops[c].sid, ReplyAt(policy, ops, c).userId, SeenAt(ops[c]) + policy.ttl) && Alive(w, ops[c].sid)
  {
    hide Perform;
    StepAt(policy, ops, c);
    OpeningRow(policy, After(policy, ops[..c]), ops[c]);
  }

  /** From its opening on, a session is alive exactly until a call ends it. */
  lemma {:induction false} AliveUntilEnded(policy: SessionPolicy, ops: seq<Op>, c: nat, n: nat)
    requires LegalRun(policy, ops) && c < n <= |ops| && OpensSession(ops[c]) && ReplyAt(policy, ops, c).Opened?
    ensures var userId, expiresAt := ReplyAt(policy, ops, c).userId, SeenAt(ops[c]) + policy.ttl;
            && RowIs(After(policy, ops[..n]), ops[c].sid, userId, expiresAt)
            && (Alive(After(policy, ops[..n]), ops[c].sid)
                <==> forall k | c < k < n :: !EndsAt(policy, ops, k, ops[c].sid, userId, expiresAt))
    decreases n
  {
    hide Perform, Inv, LegalRun, Legal, After, Apply, RowIs, Alive, ReplyAt, Ends;
    if n == c + 1 {
      OpeningIsAlive(policy, ops, c);
    } else {
      var userId, expiresAt := ReplyAt(policy, ops, c).userId, SeenAt(ops[c]) + policy.ttl;
      AliveUntilEnded(policy, ops, c, n - 1);
      StepAt(policy, ops, n - 1);
      StepAlive(policy, After(policy, ops[..n - 1]), ops[n - 1], ops[c].sid, userId, expiresAt);
      assert EndsAt(policy, ops, n - 1, ops[c].sid, userId, expiresAt)
        <==> Ends(policy, After(policy, ops[..n - 1]), ops[n - 1], ops[c].sid, userId, expiresAt);
      hide EndsAt;
    }
  }

  /** What a validation needs of its state. */
  lemma AcceptedFrom(policy: SessionPolicy, w: World, op: Op, userId: int, expiresAt: Instant, seen: Instant)
    requires Inv(policy, w) && op.DoValidate? && RowIs(w, op.sid, userId, expiresAt) && LastSeenIs(w, op.sid, seen)
    ensures Perform(policy, w.t, op).1.Principal? <==> Alive(w, op.sid) && op.now < expiresAt && op.now < seen + policy.idle
  {
    hide Governed, UsersFit;
  }

  /**
   In any run, a validation of an issued session is accepted if and only if no call since its opening revoked
   it, disabled its user or cleaned it up, its time to live is not over, and the idle timeout since the last
   call that saw it is not over.
   */
  lemma AcceptedIff(policy: SessionPolicy, ops: seq<Op>, c: nat, i: nat, j: nat)
    requires LegalRun(policy, ops) && c <= i < j < |ops| && OpensSession(ops[c]) && ReplyAt(policy, ops, c).Opened?
    requires ops[j].DoValidate? && ops[j].sid == ops[c].sid
    requires Sees(policy, ops, i, ops[c].sid) && forall k | i < k < j :: !Sees(policy, ops, k, ops[c].sid)
    ensures var userId, expiresAt := ReplyAt(policy, ops, c).userId, SeenAt(ops[c]) + policy.ttl;
            ReplyAt(policy, ops, j).Principal? <==>
            && (forall k | c < k < j :: !EndsAt(policy, ops, k, ops[c].sid, userId, expiresAt))
            && ops[j].now < expiresAt && ops[j].now < SeenAt(ops[i]) + policy.idle
  {
    hide Perform, Inv, LegalRun, Legal, After, Apply, RowIs, Alive, ReplyAt, EndsAt, Sees, LastSeenIs, SeenAt;
    var sid, userId, expiresAt := ops[c].sid, ReplyAt(policy, ops, c).userId, SeenAt(ops[c]) + policy.ttl;
    AliveUntilEnded(policy, ops, c, j);
    StepAt(policy, ops, j);
    IssuedBySeeing(policy, ops, i, sid);
    UnseenKeepsLastSeen(policy, ops, i + 1, j, sid, SeenAt(ops[i]));
    AcceptedFrom(policy, After(policy, ops[..j]), ops[j], userId, expiresAt, SeenAt(ops[i]));
    ReplyIs(policy, ops, j);
  }

  lemma ReplyIs(policy: SessionPolicy, ops: seq<Op>, j: nat)
    requires j < |ops|
    ensures ReplyAt(policy, ops, j) == Perform(policy, After(policy, ops[..j]).t, ops[j]).1
  {
  }

  // ---------------------------------------------------------------- magic tokens

  predicate TokenIs(t: Tables, hash: string, userId: int, expiresAt: Instant)
  {
    hash in t.tokens && t.tokens[hash].userId == userId && t.tokens[hash].expiresAt == expiresAt
    && t.tokens[hash].revokedAt == None
  }

  ghost predicate Redeems(policy: SessionPolicy, t: Tables, op: Op, token: string)
  {
    op.DoLoginMagic? && op.token == token && Perform(policy, t, op).1.Opened?
  }

  lemma StepToken(policy: SessionPolicy, t: Tables, op: Op, token: string, userId: int, expiresAt: Instant)
    requires TokenIs(t, HashToken(token), userId, expiresAt)
    ensures var t' := Perform(policy, t, op).0;
            && TokenIs(t', HashToken(token), userId, expiresAt)
            && (Consumed(t', HashToken(token)) <==> Consumed(t, HashToken(token)) || Redeems(policy, t, op, token))
  {
    if op.DoLoginMagic? {
      HashesDiffer(token, op.token);
    } else if op.DoIssue? || op.DoCleanup? {
    } else {
      TokensUntouched(policy, t, op);
      hide Perform;
    }
  }

  lemma TokensUntouched(policy: SessionPolicy, t: Tables, op: Op)
    requires !op.DoLoginMagic? && !op.DoIssue? && !op.DoCleanup?
    ensures Perform(policy, t, op).0.tokens == t.tokens
  {
  }

  ghost predicate RedeemsAt(policy: SessionPolicy, ops: seq<Op>, m: nat, token: string)
    requires m < |ops|
  {
    Redeems(policy, After(policy, ops[..m]).t, ops[m], token)
  }

  lemma IssueMakesToken(policy: SessionPolicy, ops: seq<Op>, k: nat)
    requires LegalRun(policy, ops) && k < |ops| && ops[k].DoIssue? && ReplyAt(policy, ops, k) == Done
    ensures var t, hash := After(policy, ops[..k + 1]).t, HashToken(ops[k].token);
            ops[k].ttl > 0 && TokenIs(t, hash, ops[k].userId, ops[k].now + ops[k].ttl) && !Consumed(t, hash)
  {
    StepAt(policy, ops, k);
    hide Inv, LegalRun, After;
  }

  /** From its issue on, a token stands with its owner and expiry, and is consumed exactly by a redemption. */
  lemma {:induction false} ConsumedByRedemption(policy: SessionPolicy, ops: seq<Op>, k: nat, n: nat)
    requires LegalRun(policy, ops) && k < n <= |ops| && ops[k].DoIssue? && ReplyAt(policy, ops, k) == Done
    ensures var t, hash := After(policy, ops[..n]).t, HashToken(ops[k].token);
            && ops[k].ttl > 0 && TokenIs(t, hash, ops[k].userId, ops[k].now + ops[k].ttl)
            && (Consumed(t, hash) <==> exists m :: k < m < n && RedeemsAt(policy, ops, m, ops[k].token))
    decreases n
  {
    hide Perform, Inv, LegalRun, Legal, After, Apply, TokenIs, Consumed, ReplyAt, Redeems, HashToken;
    if n == k + 1 {
      IssueMakesToken(policy, ops, k);
    } else {
      var expiresAt := ops[k].now + ops[k].ttl;
      ConsumedByRedemption(policy, ops, k, n - 1);
      RunOn(policy, ops, n - 1);
      StepToken(policy, After(policy, ops[..n - 1]).t, ops[n - 1], ops[k].token, ops[k].userId, expiresAt);
      assert RedeemsAt(policy, ops, n - 1, ops[k].token)
        <==> Redeems(policy, After(policy, ops[..n - 1]).t, ops[n - 1], ops[k].token);
      hide RedeemsAt;
    }
  }

  lemma RunOn(policy: SessionPolicy, ops: seq<Op>, n: nat)
    requires LegalRun(policy, ops) && n < |ops|
    ensures After(policy, ops[..n + 1]).t == Perform(policy, After(policy, ops[..n]).t, ops[n]).0
  {
    hide Perform, Inv, LegalRun, After;
    StepAt(policy, ops, n);
  }

  lemma RedeemedFrom(policy: SessionPolicy, w: World, op: Op, userId: int, expiresAt: Instant)
    requires Inv(policy, w) && Legal(w, op) && op.DoLoginMagic? && TokenIs(w.t, HashToken(op.token), userId, expiresAt)
    ensures Perform(policy, w.t, op).1.Opened? <==>
            op.token != "" && !Consumed(w.t, HashToken(op.token)) && op.now < expiresAt && Active(w.t, userId)
  {
    hide Governed, UsersFit, HashToken;
  }

  /**
   In any run, a redemption of an issued token, under a fresh session id, opens a session if and only if no redemption
   since the issue has, its lifetime is not over, its owner is active, and it is not the empty string.
   */
  lemma RedeemedIff(policy: SessionPolicy, ops: seq<Op>, k: nat, j: nat)
    requires LegalRun(policy, ops) && k < j < |ops| && ops[k].DoIssue? && ReplyAt(policy, ops, k) == Done
    requires ops[j].DoLoginMagic? && ops[j].token == ops[k].token
    ensures ReplyAt(policy, ops, j).Opened? <==>
            && ops[k].token != ""
            && (forall m | k < m < j :: !RedeemsAt(policy, ops, m, ops[k].token))
            && ops[j].now < ops[k].now + ops[k].ttl
            && Active(After(policy, ops[..j]).t, ops[k].userId)
  {
    hide *;
    ConsumedByRedemption(policy, ops, k, j);
    StepAt(policy, ops, j);
    RedeemedFrom(policy, After(policy, ops[..j]), ops[j], ops[k].userId, ops[k].now + ops[k].ttl);
    ReplyIs(policy, ops, j);
  }
}
