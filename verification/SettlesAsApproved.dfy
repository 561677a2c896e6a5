/** What keypers approve is what the program settles. */
module SettlesAsApproved {
  import opened Bytes
  import opened Order
  import opened Wire
  import opened ChainState
  import opened Quorum
  import Pr = Program
  import P = ProgramRuns
  import EpochHistory
  import PO = ProgramOutcomes
  import HC = HostChain
  import Sub = Submission
  import LP = LockPackage
  import S = KeyperSafety
  import Recovery
  import St = Settlement
  import SR = SettledResults
  import Ap = Approval
  import opened SettlementRuns
  import L = Ledger

  /** The instruction that settles a recomputation. */
  function Compact(m: St.Recomputed, nonce: Bytes32): Pr.CompactSettlement {
    Pr.CompactSettlement(m.resultCommitment, L.ResidualSide(m.residual), L.ResidualLots(m.residual), nonce)
  }

  /** A keyper's payload is the one the program rebuilds from its accounts. */
  lemma PayloadIsPrograms(u: Setup, w: World, p: LP.Package, evs: seq<Recovery.Evidence>, nonce: Bytes32,
                          g: HC.ConfirmedLock)
    requires ChainWell(u, w.base) && g in w.base.locks
             && St.RecomputeSpec(u.env.crypto, u.threshold, p, evs, nonce, g).Ok?
    ensures var m := St.RecomputeSpec(u.env.crypto, u.threshold, p, evs, nonce, g).value;
            m.payload == PO.PayloadSigned(u.env.ctx, g.epochAccount, g.state, Compact(m, nonce))
  {
    assert S.LockRead(u.env, w.base, g);
    PayloadFields(u, p, evs, nonce, g);
  }

  lemma PayloadFields(u: Setup, p: LP.Package, evs: seq<Recovery.Evidence>, nonce: Bytes32, g: HC.ConfirmedLock)
    requires St.RecomputeSpec(u.env.crypto, u.threshold, p, evs, nonce, g).Ok? && g.pool == Some(u.env.ctx.pool)
    ensures var m := St.RecomputeSpec(u.env.crypto, u.threshold, p, evs, nonce, g).value;
            m.payload == PO.PayloadSigned(u.env.ctx, g.epochAccount, g.state, Compact(m, nonce))
  {
    var c, account, digest := u.env.crypto, g.epochAccount, g.state.lockDigest;
    St.LockedSizes(c, p, g);
    St.RecoverLength(c, u.threshold, p.keys, p.submissions, evs, account, digest, 0);
    var xs := Recovery.RecoverFrom(c, u.threshold, p.keys, p.submissions, evs, account, digest, 0).value;
    SR.NetSucceeded(c, p, g, xs, nonce);
    SR.FinishExplained(c, account, g.state, g.pool.value, St.RecoveredRoot(c.sha, xs), p.preBalanceRoot,
      St.BookOf(p.balances),
                       L.NetSpec(St.ConfigOf(p), St.BookOf(p.balances), Map(xs, Recovery.ORDER)).value, nonce);
  }

  lemma NonceFresh(c: Sub.Crypto, t: Recovery.Threshold, p: LP.Package, evs: seq<Recovery.Evidence>, nonce: Bytes32,
                   g: HC.ConfirmedLock)
    requires St.RecomputeSpec(c, t, p, evs, nonce, g).Ok?
    ensures nonce != ZERO && nonce != g.state.lockNonce
  {
  }

  lemma NettedResidual(cfg: L.BatchConfig, before: L.Book, orders: seq<L.FundedOrder>)
    requires |orders| <= U32_MAX && L.NetSpec(cfg, before, orders).Ok?
    ensures var r := L.NetSpec(cfg, before, orders).value.residual;
            if L.ResidualSide(r) == 0 then L.ResidualLots(r) == 0 else L.ResidualSide(r) <= 2 && L.ResidualLots(r) > 0
  {
    L.NettedFrame(cfg, before, orders);
  }

  /** A netting's residual is a proper one. */
  lemma ResidualProper(c: Sub.Crypto, t: Recovery.Threshold, p: LP.Package, evs: seq<Recovery.Evidence>, nonce: Bytes32,
                       g: HC.ConfirmedLock)
    requires St.RecomputeSpec(c, t, p, evs, nonce, g).Ok?
    ensures PO.ResidualInOrder(Compact(St.RecomputeSpec(c, t, p, evs, nonce, g).value, nonce))
  {
    var xs, result := SR.Explained(c, t, p, evs, nonce, g);
    NettedResidual(St.ConfigOf(p), St.BookOf(p.balances), Map(xs, Recovery.ORDER));
  }

  /** While the epoch is still Locked, its account is what every read of its lock showed. */
  lemma StillAsRead(u: Setup, w: World, g: HC.ConfirmedLock)
    requires ChainWell(u, w.base) && g in w.base.locks && g.epochAccount in w.base.chain.epochs
    requires w.base.chain.epochs[g.epochAccount].terminal == Locked
    ensures w.base.chain.epochs[g.epochAccount] == g.state
  {
    var e := w.base.chain.epochs[g.epochAccount];
    assert S.LockRead(u.env, w.base, g) && ReadWell(u, g) && P.EpochInv(u.env.ctx, g.epochAccount, e);
    assert P.SettleInv(u.env.ctx, g.epochAccount, g.state) && P.SettleInv(u.env.ctx, g.epochAccount, e);
  }

  /** In every reachable world: a recomputation against a read of an epoch's lock, signed by two different keypers,
      settles that epoch, as long as it is Locked, up to its abort deadline, and the accounts can pay; and the epoch
      then stores the residual and the commitment of that recomputation. */
  lemma ApprovedRecomputationSettles(u: Setup, w: World, now: i64, p: LP.Package, evs: seq<Recovery.Evidence>,
                                     nonce: Bytes32,
                                     g: HC.ConfirmedLock, ixs: seq<Instruction>)
    requires ChainWell(u, w.base) && g in w.base.locks
             && St.RecomputeSpec(u.env.crypto, u.threshold, p, evs, nonce, g).Ok?
    requires g.epochAccount in w.base.chain.epochs && w.base.chain.epochs[g.epochAccount].terminal == Locked
             && now <= g.state.abortDeadline
    requires var m := St.RecomputeSpec(u.env.crypto, u.threshold, p, evs, nonce, g).value;
             var lots := L.ResidualLots(m.residual);
             && m.resultCommitment != ZERO
                && EpochHistory.TwoSigned(u.env.ctx, ixs, SettlementDigest(u.env.ctx.sha, m.payload))
             && lots * g.state.baseLot <= U64_MAX && lots * g.state.quotePerLot <= U64_MAX
             && PO.CanPay(w.base.chain.tokens, L.ResidualSide(m.residual), lots * g.state.baseLot,
               lots * g.state.quotePerLot)
    ensures var m := St.RecomputeSpec(u.env.crypto, u.threshold, p, evs, nonce, g).value;
            var r := Pr.SettleSpec(u.env.ctx, w.base.chain, now, g.epochAccount, Compact(m, nonce), ixs);
            r.Ok? && g.epochAccount in r.value.epochs && StoresResultOf(r.value.epochs[g.epochAccount], m)
  {
    var key, chain := g.epochAccount, w.base.chain;
    var m := St.RecomputeSpec(u.env.crypto, u.threshold, p, evs, nonce, g).value;
    StillAsRead(u, w, g);
    PayloadIsPrograms(u, w, p, evs, nonce, g);
    ResidualProper(u.env.crypto, u.threshold, p, evs, nonce, g);
    NonceFresh(u.env.crypto, u.threshold, p, evs, nonce, g);
    assert P.EpochInv(u.env.ctx, key, chain.epochs[key]);
    PO.SettleSpecIff(u.env.ctx, chain, now, key, Compact(m, nonce), ixs);
    PO.SettleStores(u.env.ctx, chain, now, key, Compact(m, nonce), ixs);
  }

  /** The commitment a Settled epoch stores fixes its closing balances: whoever shows a recomputation with that
      commitment, of whatever package against whatever lock, shows the result two keypers recomputed. */
  lemma SettledFixesResult(u: Setup, w: World, key: Bytes32, a: Approved, b: Approved, xs: seq<Recovery.SignedIntent>,
                           r: L.BatchResult,
                           q: LP.Package, fvs: seq<Recovery.Evidence>, n: Bytes32, g: HC.ConfirmedLock,
                           ys: seq<Recovery.SignedIntent>, s: L.BatchResult)
    requires key in w.base.chain.epochs && RecomputedByTwo(u, w, key, a, b)
    requires St.RecomputeSpec(u.env.crypto, u.threshold, q, fvs, n, g).Ok?
    requires var x := St.RecomputeSpec(u.env.crypto, u.threshold, a.request.package, a.request.evidence,
             a.request.settlementNonce, a.confirmed);
             var y := St.RecomputeSpec(u.env.crypto, u.threshold, q, fvs, n, g).value;
             && x.Ok? && y.resultCommitment == w.base.chain.epochs[key].resultCommitment
             && SR.Explains(u.env.crypto, a.request.package, a.confirmed, x.value, xs, r)
                && SR.Explains(u.env.crypto, q, g, y, ys, s)
             && SR.ResultsSound(u.env.crypto, a.confirmed, xs, St.BookOf(a.request.package.balances), x.value, g, ys,
               St.BookOf(q.balances), y)
    ensures g.epochAccount == key
    ensures SR.SameResult(
              a.confirmed, xs, St.BookOf(a.request.package.balances),
              St.RecomputeSpec(u.env.crypto, u.threshold, a.request.package, a.request.evidence,
              a.request.settlementNonce, a.confirmed).value,
              g, ys, St.BookOf(q.balances), St.RecomputeSpec(u.env.crypto, u.threshold, q, fvs, n, g).value)
  {
    Ap.PayloadCarries(u.env.crypto, u.threshold, a.request.package, a.request.evidence, a.request.settlementNonce,
      a.confirmed);
    SR.CommitmentFixesResult(u.env.crypto, u.threshold, a.request.package, a.request.evidence,
      a.request.settlementNonce, a.confirmed, xs, r,
                             q, fvs, n, g, ys, s);
  }
}
