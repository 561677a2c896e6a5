/** What signatures bind: who granted, who submitted, who ordered, if nobody else can sign. */
module Signatures {
  import opened Bytes
  import opened Layout
  import Wire
  import opened HostChain
  import opened Submission
  import opened LockPackage
  import opened LockOutcomes
  import opened KeyperRuns
  import opened KeyperSafety
  import opened KeyperApprovals
  import opened Recovery
  import opened Settlement
  import opened SettledResults
  import opened Program
  import L = Ledger

  // ---- what a signed message determines ----

  /** The operator's signature on a grant covers every field of it. */
  lemma AuthMessageInjective(a: Authorization, b: Authorization)
    requires AuthMessage(a) == AuthMessage(b)
    ensures a.(signature := b.signature) == b
  {
    var f, g := UnsignedFields(a), UnsignedFields(b);
    Wire.SameTail(FUNDED_AUTH_DOMAIN, PutAll(f), PutAll(g));
    assert KindsOf(f) == KindsOf(g);
    PutAllInjective(f, g);
    assert f[0] == g[0] && f[1] == g[1] && f[2] == g[2] && f[3] == g[3] && f[4] == g[4];
    assert f[5] == g[5] && f[6] == g[6] && f[7] == g[7] && f[8] == g[8];
  }

  function AuthHashed(a: Authorization): seq<byte> { FUNDED_AUTH_DOMAIN + AuthBytes(a) }

  lemma AuthHashedInjective(a: Authorization, b: Authorization)
    requires AuthHashed(a) == AuthHashed(b)
    ensures a == b
  {
    Wire.SameTail(FUNDED_AUTH_DOMAIN, AuthBytes(a), AuthBytes(b));
    PutAllInjective(AuthFields(a), AuthFields(b));
    AuthFieldsInjective(a, b);
  }

  lemma FourWords(d: seq<byte>, a: seq<byte>, b: seq<byte>, c: seq<byte>, e: seq<byte>)
    requires |a| == 32 && |b| == 32 && |c| == 32 && |e| == 32
    ensures var s := d + a + b + c + e;
            && s[|d| + 32..|d| + 64] == b && s[|d| + 64..|d| + 96] == c && s[|d| + 96..] == e
  {
  }

  /** The trader's signature on a submission covers the grant, the ciphertext and the receipt. */
  lemma SubmissionMessageInjective(c: Crypto, s: EncryptedSubmission, t: EncryptedSubmission,
      auths: iset<seq<byte>>, texts: iset<seq<byte>>)
    requires SubmissionMessage(c, s) == SubmissionMessage(c, t) && Sound(c.sha, auths) && Sound(c.sha, texts)
    requires AuthHashed(s.auth) in auths && AuthHashed(t.auth) in auths
    requires s.ciphertext in texts && t.ciphertext in texts
    ensures s.(outer := t.outer) == t
  {
    FourWords(SUBMISSION_DOMAIN, Raw(s.auth.epochId), Raw(c.sha(AuthHashed(s.auth))), Raw(c.sha(s.ciphertext)),
      Raw(s.receipt));
    FourWords(SUBMISSION_DOMAIN, Raw(t.auth.epochId), Raw(c.sha(AuthHashed(t.auth))), Raw(c.sha(t.ciphertext)),
      Raw(t.receipt));
    AuthHashedInjective(s.auth, t.auth);
  }

  lemma Begins(d: seq<byte>, a: seq<byte>, b: seq<byte>, c: seq<byte>, e: seq<byte>, k: nat)
    requires k < |d|
    ensures (d + a)[k] == d[k] && (d + a + b + c)[k] == d[k] && (d + a + b + c + e)[k] == d[k]
  {
  }

  /** A grant is never taken for a snapshot, nor a submission for an intent. */
  lemma OperatorMessagesApart(a: Authorization, t: Snapshot)
    ensures AuthMessage(a) != SnapshotMessage(t)
  {
    var d, e := FUNDED_AUTH_DOMAIN, SNAPSHOT_DOMAIN;
    assert d[6] == 70 && e[6] == 66;
    Begins(d, PutAll(UnsignedFields(a)), [], [], [], 6);
    Begins(e, Raw(t.epochId), Le32(t.recordCount), Raw(t.balanceRoot), [], 6);
  }

  lemma TraderMessagesApart(c: Crypto, s: EncryptedSubmission, body: seq<byte>)
    ensures SubmissionMessage(c, s) != INTENT_DOMAIN + body
  {
    var d, e := SUBMISSION_DOMAIN, INTENT_DOMAIN;
    assert d[6] == 83 && e[6] == 73;
    Begins(d, Raw(s.auth.epochId), Raw(c.sha(AuthHashed(s.auth))), Raw(c.sha(s.ciphertext)), Raw(s.receipt), 6);
    Begins(e, body, [], [], [], 6);
  }

  // ---- nobody else signs ----

  /** What the operator has signed: these grants and these snapshots, and nothing else verifies under its key. */
  ghost predicate OperatorSigned(c: Crypto, key: Bytes32, grants: iset<Authorization>, shots: iset<Snapshot>) {
    forall m, sig | c.sigOk(key, m, sig) ::
      (exists a | a in grants :: m == AuthMessage(a)) || (exists t | t in shots :: m == SnapshotMessage(t))
  }

  /** What a trader has signed: these submissions and these intent bodies. */
  ghost predicate TraderSigned(c: Crypto, key: Bytes32, made: iset<EncryptedSubmission>, bodies: iset<seq<byte>>) {
    forall m, sig | c.sigOk(key, m, sig) ::
      (exists s | s in made :: m == SubmissionMessage(c, s)) || (exists b | b in bodies :: m == INTENT_DOMAIN + b)
  }

  /** Some grant of the operator's has this epoch, participant, trading key, nonce, amounts and expiry. */
  ghost predicate GrantedBy(a: Authorization, grants: iset<Authorization>) {
    exists g | g in grants :: g.(signature := a.signature) == a
  }

  lemma MeantGrant(c: Crypto, key: Bytes32, a: Authorization, grants: iset<Authorization>, shots: iset<Snapshot>)
    requires c.sigOk(key, AuthMessage(a), a.signature) && OperatorSigned(c, key, grants, shots)
    ensures GrantedBy(a, grants)
  {
    forall t ensures AuthMessage(a) != SnapshotMessage(t) { OperatorMessagesApart(a, t); }
    var g :| g in grants && AuthMessage(a) == AuthMessage(g);
    AuthMessageInjective(g, a);
  }

  /** A valid submission rests on a grant the operator made. */
  lemma WasGranted(c: Crypto, policy: Policy, s: EncryptedSubmission, grants: iset<Authorization>,
      shots: iset<Snapshot>)
    requires ValidSubmission(c, policy, s) && OperatorSigned(c, policy.operatorKey, grants, shots)
    ensures GrantedBy(s.auth, grants)
  {
    ValidIff(c, policy, s);
    MeantGrant(c, policy.operatorKey, s.auth, grants, shots);
  }

  ghost function Submitting(made: iset<EncryptedSubmission>, s: EncryptedSubmission): iset<seq<byte>> {
    (iset t | t in made :: AuthHashed(t.auth)) + iset{AuthHashed(s.auth)}
  }

  ghost function Enclosed(made: iset<EncryptedSubmission>, s: EncryptedSubmission): iset<seq<byte>> {
    (iset t | t in made :: t.ciphertext) + iset{s.ciphertext}
  }

  lemma MeantSubmission(c: Crypto, s: EncryptedSubmission, made: iset<EncryptedSubmission>, bodies: iset<seq<byte>>)
    returns (t: EncryptedSubmission)
    requires c.sigOk(s.auth.tradingKey, SubmissionMessage(c, s), s.outer)
    requires TraderSigned(c, s.auth.tradingKey, made, bodies)
    ensures t in made && SubmissionMessage(c, s) == SubmissionMessage(c, t)
  {
    forall b ensures SubmissionMessage(c, s) != INTENT_DOMAIN + b { TraderMessagesApart(c, s, b); }
    t :| t in made && SubmissionMessage(c, s) == SubmissionMessage(c, t);
  }

  /** And on a submission its trader made: same grant, same ciphertext, same receipt. */
  lemma WasSubmitted(c: Crypto, policy: Policy, s: EncryptedSubmission, made: iset<EncryptedSubmission>,
      bodies: iset<seq<byte>>)
    requires ValidSubmission(c, policy, s) && TraderSigned(c, s.auth.tradingKey, made, bodies)
    requires Sound(c.sha, Submitting(made, s)) && Sound(c.sha, Enclosed(made, s))
    ensures exists t | t in made :: t.(outer := s.outer) == s
  {
    ValidIff(c, policy, s);
    var t := MeantSubmission(c, s, made, bodies);
    SubmissionMessageInjective(c, t, s, Submitting(made, s), Enclosed(made, s));
  }

  /** A netted order was signed by the member it is for: its body by that member's trading key, for this epoch, with a
      limit. */
  lemma WasOrdered(c: Crypto, subs: seq<EncryptedSubmission>, epochId: Bytes32, xs: seq<SignedIntent>, i: nat)
    requires IntentsFit(c, subs, epochId, xs) && i < |xs|
    ensures xs[i].epochId == epochId && xs[i].limit > 0
    ensures exists s | s in subs :: s.auth.participant == xs[i].participant && SignedFor(c, s, xs[i])
  {
    assert IntentFits(c, subs, epochId, xs[i]);
    var s := FindMember(subs, xs[i].participant).value;
    forall made, bodies | TraderSigned(c, s.auth.tradingKey, made, bodies) ensures xs[i].body in bodies {
      OrderedBody(c, s.auth.tradingKey, xs[i], made, bodies);
    }
    assert SignedFor(c, s, xs[i]);
  }

  /** This member's trading key signed the body, and in a world of honest keys that body alone could have been meant. */
  ghost predicate SignedFor(c: Crypto, s: EncryptedSubmission, x: SignedIntent) {
    && c.validKey(s.auth.tradingKey) && c.sigOk(s.auth.tradingKey, INTENT_DOMAIN + x.body, x.signature)
    && forall made, bodies | TraderSigned(c, s.auth.tradingKey, made, bodies) :: x.body in bodies
  }

  lemma OrderedBody(c: Crypto, key: Bytes32, x: SignedIntent, made: iset<EncryptedSubmission>, bodies: iset<seq<byte>>)
    requires TraderSigned(c, key, made, bodies) && c.sigOk(key, INTENT_DOMAIN + x.body, x.signature)
    ensures x.body in bodies
  {
    forall s ensures SubmissionMessage(c, s) != INTENT_DOMAIN + x.body { TraderMessagesApart(c, s, x.body); }
    var b :| b in bodies && INTENT_DOMAIN + x.body == INTENT_DOMAIN + b;
    Wire.SameTail(INTENT_DOMAIN, x.body, b);
  }

  // ---- whatever is locked or opened ----

  ghost predicate ShotOf(p: Package, shots: iset<Snapshot>) {
    exists t | t in shots ::
      t.epochId == p.configuration.epochId && t.recordCount == |p.balances| && t.balanceRoot == p.preBalanceRoot
  }

  /** Everything in this package the operator put its name to, it did: every member's grant and the balances. */
  ghost predicate AllGranted(p: Package, grants: iset<Authorization>, shots: iset<Snapshot>) {
    (forall i | 0 <= i < |p.submissions| :: GrantedBy(p.submissions[i].auth, grants)) && ShotOf(p, shots)
  }

  lemma SnapshotWasMade(c: Crypto, p: Package, key: Bytes32, grants: iset<Authorization>, shots: iset<Snapshot>)
    requires SnapshotSigned(c, p, key) && OperatorSigned(c, key, grants, shots)
    ensures ShotOf(p, shots)
  {
    forall a ensures AuthMessage(a) != SnapshotMessage(p.snapshot) { OperatorMessagesApart(a, p.snapshot); }
    var t :| t in shots && SnapshotMessage(p.snapshot) == SnapshotMessage(t);
    SnapshotMessageInjective(p.snapshot, t);
  }

  lemma MembersWereGranted(c: Crypto, policy: Policy, subs: seq<EncryptedSubmission>, grants: iset<Authorization>,
      shots: iset<Snapshot>)
    requires SubmittedApart(c, policy, subs) && OperatorSigned(c, policy.operatorKey, grants, shots)
    ensures forall i | 0 <= i < |subs| :: GrantedBy(subs[i].auth, grants)
  {
    forall i | 0 <= i < |subs| ensures GrantedBy(subs[i].auth, grants) {
      assert Submitted(c, policy, subs[i]);
      MeantGrant(c, policy.operatorKey, subs[i].auth, grants, shots);
    }
  }

  /** So every lock approved and every share released, in any run, is over members the pool's operator granted and
      balances it signed. */
  lemma BackedIsGranted(c: Crypto, p: Package, operator: Bytes32, grants: iset<Authorization>, shots: iset<Snapshot>)
    requires OperatorBacked(c, p, operator) && OperatorSigned(c, operator, grants, shots)
    ensures AllGranted(p, grants, shots)
  {
    var policy: Policy :| policy.operatorKey == operator && SubmittedApart(c, policy, p.submissions);
    MembersWereGranted(c, policy, p.submissions, grants, shots);
    SnapshotWasMade(c, p, operator, grants, shots);
  }

  /** In any run, a share is released only in a set the pool's operator granted member by member, over balances it
      signed. */
  lemma ReleasedWereGranted(env: Env, tokens: Tokens, steps: seq<Step>, r: Released, grants: iset<Authorization>,
      shots: iset<Snapshot>)
    requires r in Run(env, Start(tokens), steps).released
    requires OperatorSigned(env.crypto, env.ctx.pool.operator, grants, shots)
    ensures AllGranted(r.package, grants, shots)
  {
    ShareReleaseSafety(env, tokens, steps, r);
    BackedIsGranted(env.crypto, r.package, env.ctx.pool.operator, grants, shots);
  }

  /** And so is a lock approved. */
  lemma ApprovedWereGranted(env: Env, tokens: Tokens, steps: seq<Step>, a: LockApproval, grants: iset<Authorization>,
      shots: iset<Snapshot>)
    requires a in Run(env, Start(tokens), steps).approvals
    requires OperatorSigned(env.crypto, env.ctx.pool.operator, grants, shots)
    ensures AllGranted(a.package, grants, shots)
  {
    ApprovedLockSafety(env, tokens, steps, a);
    BackedIsGranted(env.crypto, a.package, env.ctx.pool.operator, grants, shots);
  }

  /** Whatever a recomputation nets, its orders are those of intents their members signed, one each. */
  lemma NettedWereOrdered(c: Crypto, t: Threshold, p: Package, evs: seq<Evidence>, nonce: Bytes32, f: ConfirmedLock)
    returns (xs: seq<SignedIntent>, result: L.BatchResult)
    requires RecomputeSpec(c, t, p, evs, nonce, f).Ok?
    ensures Explains(c, p, f, RecomputeSpec(c, t, p, evs, nonce, f).value, xs, result)
    ensures forall i | 0 <= i < |xs| ::
              exists s | s in p.submissions :: s.auth.participant == xs[i].participant && SignedFor(c, s, xs[i])
  {
    xs, result := Explained(c, t, p, evs, nonce, f);
    forall i | 0 <= i < |xs|
      ensures exists s | s in p.submissions :: s.auth.participant == xs[i].participant && SignedFor(c, s, xs[i])
    {
      WasOrdered(c, p.submissions, p.configuration.epochId, xs, i);
    }
  }
}
