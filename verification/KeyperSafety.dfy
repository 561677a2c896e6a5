/** What no run of the keypers and the chain can do: lock an epoch twice, or release a share for anything but a
    locked member. */
module KeyperSafety {
  import opened Bytes
  import opened Order
  import opened Wire
  import opened ChainState
  import opened Quorum
  import opened Program
  import P = ProgramRuns
  import opened HostChain
  import opened Submission
  import opened Admission
  import opened LockPackage
  import opened Keyper
  import opened LockOutcomes
  import opened KeyperRuns

  // ---- a half-initialised journal ----

  /** The marker exists, the journal does not, and nobody is about to write it. */
  ghost predicate Shut(w: World, k: nat) {
    && At(w, k).files.marker && At(w, k).files.journal.None?
    && forall h: nat :: Hd(w, h).Opening? ==> Hd(w, h).k != k
  }

  lemma ShutStore(env: Env, w: World, step: Step, k: nat)
    requires Inv(env, w) && Shut(w, k)
    ensures At(Exec(env, w, step), k).files == At(w, k).files && At(Exec(env, w, step), k).history == At(w, k).history
  {
    if Filesless(step) { FilesStay(env, w, step); }
    if step.Journal? && Exec(env, w, step) != w {
      JournalParts(env, w, step.h, step.package, step.open, step.secretFits);
      assert Hd(w, step.h).k != k by { JournalNeedsFile(env, w, step.h, step.package, step.open, step.secretFits); }
    }
  }

  lemma JournalNeedsFile(env: Env, w: World, h: nat, p: Package, open: ConfirmedOpen, secretFits: bool)
    requires ExecJournal(env, w, h, p, open, secretFits) != w
    ensures Hd(w, h).Ready? && At(w, Hd(w, h).k).files.journal.Some?
  {
  }

  lemma ShutHandles(env: Env, w: World, step: Step, k: nat, h: nat)
    requires Shut(w, k) && Hd(Exec(env, w, step), h).Opening?
    ensures Hd(Exec(env, w, step), h).k != k
  {
    if Actor(step) != Some(h) { OthersStay(env, w, step, h); }
  }

  lemma ShutStep(env: Env, w: World, step: Step, k: nat)
    requires Inv(env, w) && Shut(w, k)
    ensures Shut(Exec(env, w, step), k) && At(Exec(env, w, step), k).history == At(w, k).history
  {
    ShutStore(env, w, step, k);
    forall h: nat | Hd(Exec(env, w, step), h).Opening? ensures Hd(Exec(env, w, step), h).k != k {
      ShutHandles(env, w, step, k, h);
    }
  }

  /** A journal whose marker was written without it never opens again and never records another digest. */
  lemma {:induction false} HalfInitialisedStaysShut(env: Env, w: World, steps: seq<Step>, k: nat)
    requires Inv(env, w) && Shut(w, k)
    ensures Shut(Run(env, w, steps), k) && At(Run(env, w, steps), k).history == At(w, k).history
    decreases |steps|
  {
    if steps != [] {
      ShutStep(env, w, steps[0], k);
      StepInv(env, w, steps[0]);
      HalfInitialisedStaysShut(env, Exec(env, w, steps[0]), steps[1..], k);
    }
  }

  // ---- at most one lock digest per epoch gathers two approvals ----

  ghost predicate Supports(env: Env, w: World, k: nat, digest: Bytes32) {
    exists a | a in w.approvals :: a.k == k && LockDigest(env.crypto.sha, a.payload) == digest
  }

  ghost function Supporters(env: Env, w: World, digest: Bytes32): set<nat> {
    set k: nat | k < 3 && Supports(env, w, k, digest)
  }

  function LockMessage(p: LockPayload): seq<byte> { LOCK_DOMAIN + LockBytes(p) }

  /** No two lock messages of the run collide. */
  ghost predicate LocksSound(env: Env, w: World, more: iset<LockPayload>) {
    Sound(env.crypto.sha,
      (iset a | a in w.approvals :: LockMessage(a.payload)) + (iset p | p in more :: LockMessage(p)))
  }

  lemma SameLockPayload(env: Env, w: World, more: iset<LockPayload>, a: LockApproval, p: LockPayload)
    requires LocksSound(env, w, more) && a in w.approvals && p in more
    requires LockDigest(env.crypto.sha, a.payload) == LockDigest(env.crypto.sha, p)
    ensures a.payload == p
  {
    var msgs := (iset a | a in w.approvals :: LockMessage(a.payload)) + (iset p | p in more :: LockMessage(p));
    assert LockMessage(a.payload) in msgs && LockMessage(p) in msgs;
    LockDigestInjective(env.crypto.sha, a.payload, p);
  }

  lemma TwoOfThreeMeet(a: set<nat>, b: set<nat>) returns (k: nat)
    requires (forall x | x in a :: x < 3) && (forall x | x in b :: x < 3) && |a| >= 2 && |b| >= 2
    ensures k in a && k in b
  {
    var all: set<nat> := {0, 1, 2};
    SubsetSize(a + b, all);
    assert a + b == a + (b - a) && b == (b - a) + (b * a);
    assert |a + b| == |a| + |b - a| && |b| == |b - a| + |b * a|;
    k :| k in b * a;
  }

  /** A keyper approves at most one payload per epoch. */
  lemma OneApprovalPerKeyper(env: Env, w: World, p: LockPayload, q: LockPayload, k: nat)
    requires Inv(env, w) && LocksSound(env, w, iset{p, q}) && p.epochAccount == q.epochAccount
    requires Supports(env, w, k, LockDigest(env.crypto.sha, p)) && Supports(env, w, k, LockDigest(env.crypto.sha, q))
    ensures p == q
  {
    var a :| a in w.approvals && a.k == k && LockDigest(env.crypto.sha, a.payload) == LockDigest(env.crypto.sha, p);
    var b :| b in w.approvals && b.k == k && LockDigest(env.crypto.sha, b.payload) == LockDigest(env.crypto.sha, q);
    SameLockPayload(env, w, iset{p, q}, a, p);
    SameLockPayload(env, w, iset{p, q}, b, q);
    assert Wrote(env, w, k, p) && Wrote(env, w, k, q);
    SameLockPayload(env, w, iset{p, q}, a, q);
  }

  /** In every reachable world at most one lock of an epoch has two of three approvals. */
  lemma LockUniqueness(env: Env, tokens: Tokens, steps: seq<Step>, p: LockPayload, q: LockPayload)
    requires var w := Run(env, Start(tokens), steps);
             && LocksSound(env, w, iset{p, q}) && p.epochAccount == q.epochAccount
             && |Supporters(env, w, LockDigest(env.crypto.sha, p))| >= 2
                && |Supporters(env, w, LockDigest(env.crypto.sha, q))| >= 2
    ensures p == q
  {
    RunInv(env, Start(tokens), steps);
    var w := Run(env, Start(tokens), steps);
    var k := TwoOfThreeMeet(Supporters(env, w, LockDigest(env.crypto.sha, p)),
      Supporters(env, w, LockDigest(env.crypto.sha, q)));
    OneApprovalPerKeyper(env, w, p, q, k);
  }

  // ---- the chain's lock is the one that gathered two approvals ----

  /** Keypers sign only through `sign_lock` and nobody else can sign for them: a lock instruction shows only approvals
      that were given. */
  ghost predicate Honest(env: Env, w: World, step: Step) {
    step.OnChain? && step.step.act.Lock? ==>
      var digest := LockDigest(env.ctx.sha, step.step.act.payload);
      forall i: nat | i < 3 :: Quorum.Signed(env.ctx.verifier, step.step.act.ixs, digest, Key(env.ctx.pool.keypers, i))
                               ==> Supports(env, w, i, digest)
  }

  ghost predicate HonestRun(env: Env, w: World, steps: seq<Step>)
    decreases |steps|
  {
    steps == [] || (Honest(env, w, steps[0]) && HonestRun(env, Exec(env, w, steps[0]), steps[1..]))
  }

  ghost predicate Backed(env: Env, w: World, key: Bytes32) {
    key in w.chain.epochs
      && (P.HasLock(w.chain.epochs[key]) ==> |Supporters(env, w, w.chain.epochs[key].lockDigest)| >= 2)
  }

  ghost predicate ChainInv(env: Env, w: World) {
    P.AllEpochs(env.ctx, w.chain) && forall key | key in w.chain.epochs :: Backed(env, w, key)
  }

  lemma SupportersGrow(env: Env, w: World, step: Step, digest: Bytes32)
    ensures Supporters(env, w, digest) <= Supporters(env, Exec(env, w, step), digest)
    ensures |Supporters(env, w, digest)| <= |Supporters(env, Exec(env, w, step), digest)|
  {
    ApprovalsGrow(env, w, step);
    SubsetSize(Supporters(env, w, digest), Supporters(env, Exec(env, w, step), digest));
  }

  lemma ApprovalsGrow(env: Env, w: World, step: Step)
    ensures w.approvals <= Exec(env, w, step).approvals
  {
  }

  lemma CountIndices(s: set<nat>)
    requires forall i | i in s :: i < 3
    ensures |s| == One(0 in s) + One(1 in s) + One(2 in s)
  {
    var a: set<nat> := s - {0};
    var b: set<nat> := a - {1};
    var c: set<nat> := b - {2};
    WithoutIndex(s, 0);
    WithoutIndex(a, 1);
    WithoutIndex(b, 2);
    assert c == {};
  }

  lemma WithoutIndex(s: set<nat>, i: nat)
    ensures |s| == |s - {i}| + One(i in s)
  {
    if i !in s { assert s - {i} == s; }
  }

  /** Every keyper the program counts gave its approval. */
  lemma CountedSupport(env: Env, w: World, ixs: seq<Instruction>, digest: Bytes32)
    requires forall i: nat | i < 3 :: Quorum.Signed(env.ctx.verifier, ixs, digest, Key(env.ctx.pool.keypers, i))
                                      ==> Supports(env, w, i, digest)
    ensures Count(env.ctx.verifier, ixs, env.ctx.pool.keypers, digest) <= |Supporters(env, w, digest)|
  {
    var k := env.ctx.pool.keypers;
    CountThree(k, Approvers(env.ctx.verifier, ixs, k, digest));
    CountIndices(Supporters(env, w, digest));
    assert Key(k, 0) == k.k0 && Key(k, 1) == k.k1 && Key(k, 2) == k.k2;
  }

  /** An epoch gets its lock only through an instruction with two approvals. */
  lemma LockNeedsQuorum(ctx: Context, c: Chain, step: P.Step, key: Bytes32)
    requires key in P.Exec(ctx, c, step).epochs && P.HasLock(P.Exec(ctx, c, step).epochs[key])
    ensures (key in c.epochs && P.HasLock(c.epochs[key])
            && c.epochs[key].lockDigest == P.Exec(ctx, c, step).epochs[key].lockDigest)
            || (step.act.Lock? && P.Exec(ctx, c, step).epochs[key].lockDigest == LockDigest(ctx.sha, step.act.payload)
                && Count(ctx.verifier, step.act.ixs, ctx.pool.keypers, LockDigest(ctx.sha, step.act.payload)) >= 2)
  {
    if key != step.act.key { P.OtherEpochsStay(ctx, c, step, key); }
  }

  lemma ChainStepBacked(env: Env, w: World, step: Step, key: Bytes32)
    requires ChainInv(env, w) && step.OnChain? && Honest(env, w, step) && env.crypto.sha == env.ctx.sha
             && key in Exec(env, w, step).chain.epochs
    ensures Backed(env, Exec(env, w, step), key)
  {
    var t := Exec(env, w, step);
    if P.HasLock(t.chain.epochs[key]) {
      LockNeedsQuorum(env.ctx, w.chain, step.step, key);
      SupportersGrow(env, w, step, t.chain.epochs[key].lockDigest);
      if key in w.chain.epochs { assert Backed(env, w, key); }
      if step.step.act.Lock? {
        CountedSupport(env, w, step.step.act.ixs, LockDigest(env.ctx.sha, step.step.act.payload));
      }
    }
  }

  lemma StepChainInv(env: Env, w: World, step: Step)
    requires ChainInv(env, w) && Honest(env, w, step) && env.crypto.sha == env.ctx.sha
    ensures ChainInv(env, Exec(env, w, step))
  {
    var t := Exec(env, w, step);
    if step.OnChain? {
      P.StepAllEpochs(env.ctx, w.chain, step.step);
      forall key | key in t.chain.epochs ensures Backed(env, t, key) { ChainStepBacked(env, w, step, key); }
    } else {
      ChainStays(env, w, step);
      forall key | key in t.chain.epochs ensures Backed(env, t, key) {
        assert Backed(env, w, key);
        SupportersGrow(env, w, step, w.chain.epochs[key].lockDigest);
      }
    }
  }

  lemma ChainStays(env: Env, w: World, step: Step)
    requires !step.OnChain?
    ensures Exec(env, w, step).chain == w.chain
  {
  }

  lemma {:induction false} RunChainInv(env: Env, w: World, steps: seq<Step>)
    requires ChainInv(env, w) && HonestRun(env, w, steps) && env.crypto.sha == env.ctx.sha
    ensures ChainInv(env, Run(env, w, steps))
    decreases |steps|
  {
    if steps != [] {
      StepChainInv(env, w, steps[0]);
      RunChainInv(env, Exec(env, w, steps[0]), steps[1..]);
    }
  }

  lemma BackedLock(env: Env, w: World, key: Bytes32)
    requires ChainInv(env, w) && key in w.chain.epochs && P.HasLock(w.chain.epochs[key])
             && env.crypto.sha == env.ctx.sha
    ensures |Supporters(env, w, LockDigest(env.crypto.sha, P.LockOf(key, w.chain.epochs[key])))| >= 2
  {
    assert Backed(env, w, key) && P.EpochInv(env.ctx, key, w.chain.epochs[key]);
  }

  /** Once the chain holds a lock of an epoch, that is the only payload of the epoch that two keypers ever approve. */
  lemma ChainLockIsTheOne(env: Env, tokens: Tokens, steps: seq<Step>, key: Bytes32, p: LockPayload)
    requires HonestRun(env, Start(tokens), steps) && env.crypto.sha == env.ctx.sha
    requires var w := Run(env, Start(tokens), steps);
             && key in w.chain.epochs && P.HasLock(w.chain.epochs[key]) && p.epochAccount == key
             && |Supporters(env, w, LockDigest(env.crypto.sha, p))| >= 2
             && LocksSound(env, w, iset{p, P.LockOf(key, w.chain.epochs[key])})
    ensures p == P.LockOf(key, Run(env, Start(tokens), steps).chain.epochs[key])
  {
    RunChainInv(env, Start(tokens), steps);
    var w := Run(env, Start(tokens), steps);
    BackedLock(env, w, key);
    LockUniqueness(env, tokens, steps, p, P.LockOf(key, w.chain.epochs[key]));
  }

  // ---- released shares ----

  /** A capability read off the chain: the epoch was Locked then, and still has that lock. */
  ghost predicate LockRead(env: Env, w: World, l: ConfirmedLock) {
    && l.epochAccount in w.chain.epochs && l.state.terminal == Locked && l.pool == Some(env.ctx.pool)
    && P.Later(l.state, w.chain.epochs[l.epochAccount])
  }

  /** A released share: of the ciphertext of the member asked for, in an accepted package whose digest this keyper had
      journaled. */
  ghost predicate SafeRelease(env: Env, w: World, r: Released) {
    && r.confirmed in w.locks && ValidateLockedSpec(env.crypto, r.package, r.confirmed).Ok?
    && r.package.epochAccount in At(w, r.k).history
    && At(w, r.k).history[r.package.epochAccount] == ValidateLockedSpec(env.crypto, r.package, r.confirmed).value
    && r.member < |r.package.submissions| && r.ciphertext == r.package.submissions[r.member].ciphertext
    && CiphersApart(env.crypto, r.package.submissions)
  }

  ghost predicate ReleaseInv(env: Env, w: World) {
    && Inv(env, w)
    && (forall l | l in w.locks :: LockRead(env, w, l))
    && (forall r | r in w.released :: SafeRelease(env, w, r))
  }

  lemma FetchedLock(env: Env, w: World, key: Bytes32, clock: Clock, slot: u64, l: ConfirmedLock)
    requires l in ExecFetch(env, w, key, clock, slot).locks && l !in w.locks
    ensures LockRead(env, w, l)
  {
    ConfirmedLockReads(env.host, key, w.chain.epochs[key], env.ctx.pool, clock, slot);
  }

  lemma LocksGrowByFetch(env: Env, w: World, step: Step)
    ensures w.locks <= Exec(env, w, step).locks
    ensures !step.Fetch? ==> Exec(env, w, step).locks == w.locks
  {
  }

  lemma LockReadStays(env: Env, w: World, step: Step, l: ConfirmedLock)
    requires LockRead(env, w, l)
    ensures LockRead(env, Exec(env, w, step), l)
  {
    var key := l.epochAccount;
    if step.OnChain? {
      P.StepMoves(env.ctx, w.chain, step.step, key);
      P.MovesLater(env.ctx, key, w.chain.epochs[key], Exec(env, w, step).chain.epochs[key]);
    } else {
      ChainStays(env, w, step);
    }
  }

  lemma LocksStep(env: Env, w: World, step: Step, l: ConfirmedLock)
    requires ReleaseInv(env, w) && l in Exec(env, w, step).locks
    ensures LockRead(env, Exec(env, w, step), l)
  {
    LocksGrowByFetch(env, w, step);
    if l !in w.locks { FetchedLock(env, w, step.key, step.clock, step.slot, l); }
    LockReadStays(env, w, step, l);
  }

  lemma NewRelease(env: Env, w: World, step: Step, r: Released)
    requires Inv(env, w) && r in Exec(env, w, step).released && r !in w.released
    ensures SafeRelease(env, w, r)
  {
    if step.Release? {
      var x := Hd(w, step.h);
      assert HandleInv(env, w, step.h);
      var key := KeyOf(env.ctx.pool.keypers, x.k).value;
      ReleaseIff(env.crypto, x.k, key, x.known, step.package, step.confirmed, step.secretFits, step.member);
      AcceptedDigest(env.crypto, step.package, step.confirmed);
    }
  }

  lemma ReleaseStays(env: Env, w: World, step: Step, r: Released)
    requires Inv(env, w) && SafeRelease(env, w, r)
    ensures SafeRelease(env, Exec(env, w, step), r)
  {
    LocksGrowByFetch(env, w, step);
    StoreStep(env, w, step, r.k);
  }

  lemma StepReleaseInv(env: Env, w: World, step: Step)
    requires ReleaseInv(env, w)
    ensures ReleaseInv(env, Exec(env, w, step))
  {
    var t := Exec(env, w, step);
    StepInv(env, w, step);
    forall l | l in t.locks ensures LockRead(env, t, l) { LocksStep(env, w, step, l); }
    forall r | r in t.released ensures SafeRelease(env, t, r) {
      if r !in w.released { NewRelease(env, w, step, r); }
      ReleaseStays(env, w, step, r);
    }
  }

  lemma {:induction false} RunReleaseInv(env: Env, w: World, steps: seq<Step>)
    requires ReleaseInv(env, w)
    ensures ReleaseInv(env, Run(env, w, steps))
    decreases |steps|
  {
    if steps != [] {
      StepReleaseInv(env, w, steps[0]);
      RunReleaseInv(env, Exec(env, w, steps[0]), steps[1..]);
    }
  }

  /** The share is of this member's ciphertext and of no other member's. */
  ghost predicate OwnShare(r: Released) {
    && r.member < |r.package.submissions| && r.ciphertext == r.package.submissions[r.member].ciphertext
    && forall j | 0 <= j < |r.package.submissions|
       && j != r.member :: r.package.submissions[j].ciphertext != r.ciphertext
  }

  /** All members were granted by this operator and submitted under their own key, no two alike, at least four of them,
      over balances the operator signed. */
  ghost predicate OperatorBacked(c: Crypto, p: Package, operator: Bytes32) {
    && |p.submissions| >= 4
       && (exists policy: Policy :: policy.operatorKey == operator && SubmittedApart(c, policy, p.submissions))
    && SnapshotSigned(c, p, operator) && Reserves(p.submissions, p.balances)
  }

  lemma AcceptedIsBacked(c: Crypto, p: Package, confirmed: ConfirmedLock)
    requires ValidateLockedSpec(c, p, confirmed).Ok?
    ensures confirmed.pool.Some? && OperatorBacked(c, p, confirmed.pool.value.operator)
  {
    ValidateLockedIff(c, p, confirmed);
    var open :| StandsFor(confirmed, confirmed.pool.value, open) && InOrder(c, p, open);
    assert open.policy.operatorKey == confirmed.pool.value.operator;
  }

  /** Every share ever released is of the ciphertext of the member asked for and of nobody else's, in the set whose
      digest the chain holds as the epoch's lock and this keyper had journaled. That set has at least four members, all
      granted by the pool's operator and signed by their traders, with distinct participants, nonces and receipts, over
      balances the pool's operator signed. */
  lemma ShareReleaseSafety(env: Env, tokens: Tokens, steps: seq<Step>, r: Released)
    requires r in Run(env, Start(tokens), steps).released
    ensures var w, p := Run(env, Start(tokens), steps), r.package;
            && p.epochAccount in w.chain.epochs && P.HasLock(w.chain.epochs[p.epochAccount])
            && w.chain.epochs[p.epochAccount].lockDigest == PackageDigest(env.crypto, p)
            && w.chain.epochs[p.epochAccount].memberRoot == p.memberRoot
            && p.epochAccount in At(w, r.k).history
               && At(w, r.k).history[p.epochAccount] == PackageDigest(env.crypto, p)
    ensures OwnShare(r) && OperatorBacked(env.crypto, r.package, env.ctx.pool.operator)
  {
    RunReleaseInv(env, Start(tokens), steps);
    var w := Run(env, Start(tokens), steps);
    assert SafeRelease(env, w, r) && LockRead(env, w, r.confirmed);
    ValidateLockedMeans(env.crypto, r.package, r.confirmed);
    AcceptedIsBacked(env.crypto, r.package, r.confirmed);
    OwnShareOnly(env.crypto, r);
  }

  lemma OwnShareOnly(c: Crypto, r: Released)
    requires r.member < |r.package.submissions| && r.ciphertext == r.package.submissions[r.member].ciphertext
    requires CiphersApart(c, r.package.submissions)
    ensures OwnShare(r)
  {
    var subs := r.package.submissions;
    forall j | 0 <= j < |subs| && j != r.member ensures subs[j].ciphertext != r.ciphertext {
      if j < r.member { assert c.sha(subs[j].ciphertext) != c.sha(subs[r.member].ciphertext); }
      else { assert c.sha(subs[r.member].ciphertext) != c.sha(subs[j].ciphertext); }
    }
  }
}
