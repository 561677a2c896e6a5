/** Every run of keypers and chain in which settlements are signed too: what the chain settles is what anyone
    recomputes. */
module SettlementRuns {
  import opened Bytes
  import opened Wire
  import opened ChainState
  import opened Quorum
  import Pr = Program
  import P = ProgramRuns
  import EpochHistory
  import HC = HostChain
  import LP = LockPackage
  import Keyper
  import K = KeyperRuns
  import S = KeyperSafety
  import Recovery
  import St = Settlement
  import Ag = Agreement
  import RW = RequestWire
  import Ap = Approval
  import L = Ledger

  /** What does not change during a run. */
  datatype Setup = Setup(env: K.Env, threshold: Recovery.Threshold)

  /** A settlement approval: by whom, on which request, against which confirmed lock. */
  datatype Approved = Approved(k: nat, request: RW.Request, confirmed: HC.ConfirmedLock, payload: SettlementPayload)

  datatype World = World(base: K.World, approved: set<Approved>)

  datatype Step =
    | Other(step: K.Step)
    | SignSettlement(h: nat, request: RW.Request, confirmed: HC.ConfirmedLock, secretFits: bool)

  /** A running keyper approves against a lock that was read off the chain. */
  ghost function ExecSign(u: Setup, w: World, h: nat, r: RW.Request, confirmed: HC.ConfirmedLock,
                          secretFits: bool): World {
    var x := K.Hd(w.base, h);
    if !x.Ready? || confirmed !in w.base.locks then w
    else
      match Keyper.KeyOf(u.env.ctx.pool.keypers, x.k)
      case None => w
      case Some(key) =>
        match Ap.SignSpec(u.env.crypto, u.threshold, x.k, key, x.known, r, confirmed, secretFits)
        case Err(_) => w
        case Ok(payload) => w.(approved := w.approved + {Approved(x.k, r, confirmed, payload)})
  }

  ghost function Exec(u: Setup, w: World, step: Step): World {
    match step
    case Other(s) => w.(base := K.Exec(u.env, w.base, s))
    case SignSettlement(h, r, confirmed, secretFits) => ExecSign(u, w, h, r, confirmed, secretFits)
  }

  ghost function Run(u: Setup, w: World, steps: seq<Step>): World
    decreases |steps|
  {
    if steps == [] then w else Run(u, Exec(u, w, steps[0]), steps[1..])
  }

  function Start(tokens: Pr.Tokens): World { World(K.Start(tokens), {}) }

  // ---- signatures come from the keypers ----

  ghost predicate Gave(u: Setup, w: World, k: nat, digest: Bytes32) {
    exists a | a in w.approved :: a.k == k && SettlementDigest(u.env.crypto.sha, a.payload) == digest
  }

  ghost predicate TwoGave(u: Setup, w: World, digest: Bytes32) {
    exists i: nat, j: nat | i < j < 3 :: Gave(u, w, i, digest) && Gave(u, w, j, digest)
  }

  /** Keypers sign settlements only through `sign_settlement` and nobody else can sign for them: a settle instruction
      shows only approvals that were given. */
  ghost predicate Honest(u: Setup, w: World, step: Step) {
    step.Other? && step.step.OnChain? ==> HonestSettle(u, w, step.step.step)
  }

  ghost predicate HonestSettle(u: Setup, w: World, step: P.Step) {
    step.act.Settle? && step.act.key in w.base.chain.epochs ==>
      var ctx := u.env.ctx;
      var digest := SettlementDigest(ctx.sha,
        Pr.SettlementPayloadOf(ctx, step.act.key, w.base.chain.epochs[step.act.key], step.act.compact));
      forall i: nat | i < 3 :: Signed(ctx.verifier, step.act.ixs, digest, Key(ctx.pool.keypers, i))
                               ==> Gave(u, w, i, digest)
  }

  ghost predicate HonestRun(u: Setup, w: World, steps: seq<Step>)
    decreases |steps|
  {
    steps == [] || (Honest(u, w, steps[0]) && HonestRun(u, Exec(u, w, steps[0]), steps[1..]))
  }

  // ---- the invariant ----

  /** The approved payload is what the keyper recomputed against a lock it had journaled. */
  ghost predicate Recomputes(u: Setup, w: World, a: Approved) {
    var m := St.RecomputeSpec(u.env.crypto, u.threshold, a.request.package, a.request.evidence,
      a.request.settlementNonce, a.confirmed);
    && m.Ok? && m.value.payload == a.payload && a.confirmed in w.base.locks
    && a.confirmed.epochAccount in K.At(w.base, a.k).history
    && K.At(w.base, a.k).history[a.confirmed.epochAccount] == a.confirmed.state.lockDigest
  }

  ghost predicate SettledByTwo(u: Setup, w: World, key: Bytes32)
    requires key in w.base.chain.epochs
  {
    w.base.chain.epochs[key].terminal == Settled ==> TwoGave(u, w, w.base.chain.epochs[key].settlementDigest)
  }

  ghost predicate ReadWell(u: Setup, l: HC.ConfirmedLock) { P.EpochInv(u.env.ctx, l.epochAccount, l.state) }

  ghost predicate ChainWell(u: Setup, w: K.World) {
    S.ReleaseInv(u.env, w) && P.AllEpochs(u.env.ctx, w.chain) && forall l | l in w.locks :: ReadWell(u, l)
  }

  ghost predicate Inv(u: Setup, w: World) {
    && ChainWell(u, w.base)
    && (forall a | a in w.approved :: Recomputes(u, w, a))
    && (forall key | key in w.base.chain.epochs :: SettledByTwo(u, w, key))
  }

  lemma BaseAllEpochs(u: Setup, w: K.World, step: K.Step)
    requires P.AllEpochs(u.env.ctx, w.chain)
    ensures P.AllEpochs(u.env.ctx, K.Exec(u.env, w, step).chain)
  {
    if step.OnChain? { P.StepAllEpochs(u.env.ctx, w.chain, step.step); } else { S.ChainStays(u.env, w, step); }
  }

  lemma NewLockRead(u: Setup, w: K.World, step: K.Step, l: HC.ConfirmedLock)
    requires P.AllEpochs(u.env.ctx, w.chain) && l in K.Exec(u.env, w, step).locks && l !in w.locks
    ensures ReadWell(u, l)
  {
    S.LocksGrowByFetch(u.env, w, step);
    HC.ConfirmedLockReads(u.env.host, step.key, w.chain.epochs[step.key], u.env.ctx.pool, step.clock, step.slot);
    assert P.EpochInv(u.env.ctx, step.key, w.chain.epochs[step.key]);
  }

  lemma BaseStep(u: Setup, w: K.World, step: K.Step)
    requires ChainWell(u, w)
    ensures ChainWell(u, K.Exec(u.env, w, step))
  {
    S.StepReleaseInv(u.env, w, step);
    BaseAllEpochs(u, w, step);
    forall l | l in K.Exec(u.env, w, step).locks ensures ReadWell(u, l) {
      if l !in w.locks { NewLockRead(u, w, step, l); }
    }
  }

  /** An approval stays good while the rest goes on. */
  lemma StillRecomputes(u: Setup, w: World, step: K.Step, a: Approved)
    requires S.ReleaseInv(u.env, w.base) && Recomputes(u, w, a)
    ensures Recomputes(u, w.(base := K.Exec(u.env, w.base, step)), a)
  {
    S.LocksGrowByFetch(u.env, w.base, step);
    K.StoreStep(u.env, w.base, step, a.k);
  }

  /** What a settle step stores was signed by two keypers. */
  lemma NewlySettled(ctx: Pr.Context, c: Pr.Chain, step: P.Step, key: Bytes32)
    requires key in P.Exec(ctx, c, step).epochs && P.Exec(ctx, c, step).epochs[key].terminal == Settled
    requires key !in c.epochs || c.epochs[key] != P.Exec(ctx, c, step).epochs[key]
    ensures key in c.epochs && step.act.Settle? && step.act.key == key
    ensures var digest := SettlementDigest(ctx.sha, Pr.SettlementPayloadOf(ctx, key, c.epochs[key], step.act.compact));
            P.Exec(ctx, c, step).epochs[key].settlementDigest == digest
              && EpochHistory.TwoSigned(ctx, step.act.ixs, digest)
  {
    if key !in c.epochs {
      P.StepCreates(ctx, c, step, key);
    } else {
      if key != step.act.key { P.OtherEpochsStay(ctx, c, step, key); }
      P.StepMoves(ctx, c, step, key);
      if step.act.Settle? { EpochHistory.SettleTold(ctx, c, step); }
    }
  }

  lemma SignedGave(u: Setup, w: World, ixs: seq<Instruction>, digest: Bytes32)
    requires EpochHistory.TwoSigned(u.env.ctx, ixs, digest)
    requires forall i: nat | i < 3 :: Signed(u.env.ctx.verifier, ixs, digest, Key(u.env.ctx.pool.keypers, i))
                                      ==> Gave(u, w, i, digest)
    ensures TwoGave(u, w, digest)
  {
    var i: nat, j: nat :| i < j < 3 && EpochHistory.SignedByBoth(u.env.ctx, ixs, digest, i, j);
    assert Gave(u, w, i, digest) && Gave(u, w, j, digest);
  }

  lemma SettledStep(u: Setup, w: World, step: P.Step, key: Bytes32)
    requires Inv(u, w) && HonestSettle(u, w, step) && key in P.Exec(u.env.ctx, w.base.chain, step).epochs
    ensures SettledByTwo(u, w.(base := K.Exec(u.env, w.base, K.OnChain(step))), key)
  {
    var c := w.base.chain;
    var d := P.Exec(u.env.ctx, c, step);
    if d.epochs[key].terminal == Settled {
      if key in c.epochs && c.epochs[key] == d.epochs[key] {
        assert SettledByTwo(u, w, key);
      } else {
        NewlySettled(u.env.ctx, c, step, key);
        SignedGave(u, w, step.act.ixs, d.epochs[key].settlementDigest);
      }
      SameGave(u, w, w.(base := K.Exec(u.env, w.base, K.OnChain(step))), d.epochs[key].settlementDigest);
    }
  }

  lemma SameGave(u: Setup, w: World, v: World, digest: Bytes32)
    requires w.approved <= v.approved && TwoGave(u, w, digest)
    ensures TwoGave(u, v, digest)
  {
    var i: nat, j: nat :| i < j < 3 && Gave(u, w, i, digest) && Gave(u, w, j, digest);
    assert Gave(u, v, i, digest) && Gave(u, v, j, digest);
  }

  lemma OtherStep(u: Setup, w: World, step: K.Step)
    requires Inv(u, w) && Honest(u, w, Other(step))
    ensures Inv(u, Exec(u, w, Other(step)))
  {
    var v := Exec(u, w, Other(step));
    BaseStep(u, w.base, step);
    forall a | a in v.approved ensures Recomputes(u, v, a) { StillRecomputes(u, w, step, a); }
    forall key | key in v.base.chain.epochs ensures SettledByTwo(u, v, key) {
      if step.OnChain? {
        SettledStep(u, w, step.step, key);
      } else {
        S.ChainStays(u.env, w.base, step);
        assert SettledByTwo(u, w, key);
        if w.base.chain.epochs[key].terminal == Settled {
          SameGave(u, w, v, w.base.chain.epochs[key].settlementDigest);
        }
      }
    }
  }

  lemma NewApproval(u: Setup, w: World, h: nat, r: RW.Request, confirmed: HC.ConfirmedLock, secretFits: bool,
                    a: Approved)
    requires Inv(u, w) && a in ExecSign(u, w, h, r, confirmed, secretFits).approved && a !in w.approved
    ensures Recomputes(u, w, a)
  {
    var x := K.Hd(w.base, h);
    assert K.HandleInv(u.env, w.base, h);
    var key := Keyper.KeyOf(u.env.ctx.pool.keypers, x.k).value;
    Ap.ApprovedIsRecomputed(u.env.crypto, u.threshold, x.k, key, x.known, r, confirmed, secretFits);
  }

  lemma SignStep(u: Setup, w: World, h: nat, r: RW.Request, confirmed: HC.ConfirmedLock, secretFits: bool)
    requires Inv(u, w)
    ensures Inv(u, ExecSign(u, w, h, r, confirmed, secretFits))
  {
    var v := ExecSign(u, w, h, r, confirmed, secretFits);
    forall a | a in v.approved ensures Recomputes(u, v, a) {
      if a !in w.approved { NewApproval(u, w, h, r, confirmed, secretFits, a); }
      assert Recomputes(u, w, a);
    }
    forall key | key in v.base.chain.epochs ensures SettledByTwo(u, v, key) {
      assert SettledByTwo(u, w, key);
      if v.base.chain.epochs[key].terminal == Settled { SameGave(u, w, v, v.base.chain.epochs[key].settlementDigest); }
    }
  }

  lemma {:induction false} RunInv(u: Setup, w: World, steps: seq<Step>)
    requires Inv(u, w) && HonestRun(u, w, steps)
    ensures Inv(u, Run(u, w, steps))
    decreases |steps|
  {
    if steps != [] {
      match steps[0] {
        case Other(s) => OtherStep(u, w, s);
        case SignSettlement(h, r, confirmed, secretFits) => SignStep(u, w, h, r, confirmed, secretFits);
      }
      RunInv(u, Exec(u, w, steps[0]), steps[1..]);
    }
  }

  lemma StartInv(u: Setup, tokens: Pr.Tokens)
    ensures Inv(u, Start(tokens))
  {
  }

  // ---- what the chain settled ----

  function Stored(u: Setup, key: Bytes32, e: EpochState): SettlementPayload {
    Pr.SettlementPayloadOf(u.env.ctx, key, e, P.CompactOf(e))
  }

  function Message(p: SettlementPayload): seq<byte> { SETTLEMENT_DOMAIN + SettlementBytes(p) }

  /** No two settlement messages of the run collide. */
  ghost predicate SettlementsSound(u: Setup, w: World, p: SettlementPayload) {
    Sound(u.env.ctx.sha, (iset a | a in w.approved :: Message(a.payload)) + iset{Message(p)})
  }

  lemma SameMessage(u: Setup, w: World, a: Approved, p: SettlementPayload)
    requires a in w.approved && SettlementsSound(u, w, p)
             && SettlementDigest(u.env.ctx.sha, a.payload) == SettlementDigest(u.env.ctx.sha, p)
    ensures a.payload == p
  {
    var msgs := (iset b | b in w.approved :: Message(b.payload)) + iset{Message(p)};
    assert Message(a.payload) in msgs && Message(p) in msgs;
    SettlementDigestInjective(u.env.ctx.sha, a.payload, p);
  }

  lemma StoredDigest(u: Setup, w: World, key: Bytes32)
    requires P.AllEpochs(u.env.ctx, w.base.chain) && key in w.base.chain.epochs
             && w.base.chain.epochs[key].terminal == Settled
    ensures w.base.chain.epochs[key].settlementDigest
            == SettlementDigest(u.env.ctx.sha, Stored(u, key, w.base.chain.epochs[key]))
  {
    assert P.EpochInv(u.env.ctx, key, w.base.chain.epochs[key]);
  }

  lemma ApprovedAccount(u: Setup, w: World, a: Approved)
    requires Recomputes(u, w, a)
    ensures a.payload.epochAccount == a.confirmed.epochAccount
  {
    Ap.PayloadCarries(u.env.crypto, u.threshold, a.request.package, a.request.evidence, a.request.settlementNonce,
      a.confirmed);
  }

  /** An approval of the digest a settled epoch stores is an approval of the payload it stores. */
  lemma ApprovedIsStored(u: Setup, w: World, key: Bytes32, a: Approved)
    requires Inv(u, w) && u.env.crypto.sha == u.env.ctx.sha && a in w.approved && key in w.base.chain.epochs
    requires var e := w.base.chain.epochs[key];
             e.terminal == Settled && SettlementDigest(u.env.crypto.sha, a.payload) == e.settlementDigest
               && SettlementsSound(u, w, Stored(u, key, e))
    ensures a.payload == Stored(u, key, w.base.chain.epochs[key]) && a.confirmed.epochAccount == key
  {
    StoredDigest(u, w, key);
    SameMessage(u, w, a, Stored(u, key, w.base.chain.epochs[key]));
    ApprovedAccount(u, w, a);
  }

  /** Two reads of one epoch's lock, at whatever times, differ at most in the slot. */
  lemma ReadsAgree(u: Setup, w: World, l: HC.ConfirmedLock, g: HC.ConfirmedLock)
    requires Inv(u, w) && l in w.base.locks && g in w.base.locks && l.epochAccount == g.epochAccount
    ensures Ag.SameLock(l, g)
  {
    assert S.LockRead(u.env, w.base, l) && S.LockRead(u.env, w.base, g) && ReadWell(u, l) && ReadWell(u, g);
    assert P.SettleInv(u.env.ctx, l.epochAccount, l.state) && P.SettleInv(u.env.ctx, g.epochAccount, g.state);
    assert l.state == g.state;
  }

  /** Two different keypers recomputed, against journaled locks of this very epoch, exactly the payload it stores. */
  ghost predicate RecomputedByTwo(u: Setup, w: World, key: Bytes32, a: Approved, b: Approved)
    requires key in w.base.chain.epochs
  {
    var e := w.base.chain.epochs[key];
    && a in w.approved && b in w.approved && a.k < b.k < 3 && Recomputes(u, w, a) && Recomputes(u, w, b)
    && a.payload == b.payload == Stored(u, key, e) && a.confirmed.epochAccount == b.confirmed.epochAccount == key
  }

  /** In every run where settlement signatures come only from `sign_settlement`, each settled epoch stores a payload
      that two different keypers recomputed. */
  lemma SettledWasRecomputed(u: Setup, tokens: Pr.Tokens, steps: seq<Step>, key: Bytes32)
    requires HonestRun(u, Start(tokens), steps) && u.env.crypto.sha == u.env.ctx.sha
    requires var w := Run(u, Start(tokens), steps);
             && key in w.base.chain.epochs && w.base.chain.epochs[key].terminal == Settled
             && SettlementsSound(u, w, Stored(u, key, w.base.chain.epochs[key]))
    ensures exists a, b :: RecomputedByTwo(u, Run(u, Start(tokens), steps), key, a, b)
  {
    StartInv(u, tokens);
    RunInv(u, Start(tokens), steps);
    var w := Run(u, Start(tokens), steps);
    var a, b := TwoRecomputed(u, w, key);
  }

  lemma Giver(u: Setup, w: World, k: nat, digest: Bytes32) returns (a: Approved)
    requires Gave(u, w, k, digest)
    ensures a in w.approved && a.k == k && SettlementDigest(u.env.crypto.sha, a.payload) == digest
  {
    a :| a in w.approved && a.k == k && SettlementDigest(u.env.crypto.sha, a.payload) == digest;
  }

  lemma TwoRecomputed(u: Setup, w: World, key: Bytes32) returns (a: Approved, b: Approved)
    requires Inv(u, w) && u.env.crypto.sha == u.env.ctx.sha && key in w.base.chain.epochs
             && w.base.chain.epochs[key].terminal == Settled
    requires SettlementsSound(u, w, Stored(u, key, w.base.chain.epochs[key]))
    ensures RecomputedByTwo(u, w, key, a, b)
  {
    var digest := w.base.chain.epochs[key].settlementDigest;
    assert SettledByTwo(u, w, key);
    var i: nat, j: nat :| i < j < 3 && Gave(u, w, i, digest) && Gave(u, w, j, digest);
    a := Giver(u, w, i, digest);
    b := Giver(u, w, j, digest);
    ApprovedIsStored(u, w, key, a);
    ApprovedIsStored(u, w, key, b);
  }

  /** The hypotheses under which recomputations agree: threshold recovery and hashing are sound, key sets are short. */
  ghost predicate Comparable(u: Setup, w: World, plain: (seq<byte>, seq<byte>) -> Option<seq<byte>>, p: LP.Package) {
    && Recovery.ThresholdSound(u.threshold, plain) && Ag.KeysShort(p)
    && forall a | a in w.approved :: Ag.HashSound(u.env.crypto, a.request.package, p) && Ag.KeysShort(a.request.package)
  }

  /** The residual and commitment an epoch stores are those of this recomputation. */
  ghost predicate StoresResultOf(e: EpochState, m: St.Recomputed) {
    e.residualSide == L.ResidualSide(m.residual) && e.residualLots == L.ResidualLots(m.residual)
      && e.resultCommitment == m.resultCommitment
  }

  /** And anyone who recomputes the batch against any read of that epoch's lock arrives at what the chain settled. */
  lemma SettledAsAnyoneRecomputes(u: Setup, plain: (seq<byte>, seq<byte>) -> Option<seq<byte>>, tokens: Pr.Tokens,
                                  steps: seq<Step>, key: Bytes32,
                                  p: LP.Package, evs: seq<Recovery.Evidence>, nonce: Bytes32, g: HC.ConfirmedLock)
    requires HonestRun(u, Start(tokens), steps) && u.env.crypto.sha == u.env.ctx.sha
    requires var w := Run(u, Start(tokens), steps);
             && key in w.base.chain.epochs && w.base.chain.epochs[key].terminal == Settled
             && SettlementsSound(u, w, Stored(u, key, w.base.chain.epochs[key]))
             && Comparable(u, w, plain, p) && g in w.base.locks && g.epochAccount == key
    requires St.RecomputeSpec(u.env.crypto, u.threshold, p, evs, nonce, g).Ok?
    ensures StoresResultOf(Run(u, Start(tokens), steps).base.chain.epochs[key],
            St.RecomputeSpec(u.env.crypto, u.threshold, p, evs, nonce, g).value)
  {
    StartInv(u, tokens);
    RunInv(u, Start(tokens), steps);
    var w := Run(u, Start(tokens), steps);
    var a, b := TwoRecomputed(u, w, key);
    ReadsAgree(u, w, a.confirmed, g);
    Ag.SettlementAgreement(u.env.crypto, u.threshold, plain, a.request.package, a.request.evidence,
      a.request.settlementNonce, a.confirmed, p, evs, nonce, g);
    Ap.PayloadCarries(u.env.crypto, u.threshold, p, evs, nonce, g);
  }
}
