/** Approving a settlement: a keyper signs only what it recomputed itself. */
module Approval {
  import opened Bytes
  import opened Order
  import opened Wire
  import opened HostChain
  import opened Submission
  import opened LockPackage
  import opened Keyper
  import opened Recovery
  import opened Settlement
  import opened Agreement
  import opened RequestWire
  import opened ChainState
  import Pr = Program
  import P = ProgramRuns
  import L = Ledger

  datatype ApprovalError = Invalid(inner: SettlementError) | Differs | NotThisKeyper

  /** The keyper is the configured one, holds the right secret, and has journaled this lock. */
  predicate MaySign(index: nat, key: Bytes32, known: Digests, confirmed: ConfirmedLock, secretFits: bool) {
    && confirmed.pool.Some? && KeyOf(confirmed.pool.value.keypers, index) == Some(key) && secretFits
    && confirmed.epochAccount in known && known[confirmed.epochAccount] == confirmed.state.lockDigest
  }

  ghost function SignSpec(c: Crypto, t: Threshold, index: nat, key: Bytes32, known: Digests, r: Request,
                          confirmed: ConfirmedLock, secretFits: bool): Result<SettlementPayload, ApprovalError> {
    var m := RecomputeSpec(c, t, r.package, r.evidence, r.settlementNonce, confirmed);
    if m.Err? then Err(Invalid(m.error))
    else if r != BuiltFrom(c.sha, r.package, r.evidence, r.settlementNonce, m.value) then Err(Differs)
    else if !MaySign(index, key, known, confirmed, secretFits) then Err(NotThisKeyper)
    else Ok(m.value.payload)
  }

  /** `sign_settlement`: recompute, compare field by field, then check who is asking. */
  method SignSettlement(c: Crypto, t: Threshold, index: nat, key: Bytes32, known: Digests, r: Request,
                        confirmed: ConfirmedLock, secretFits: bool)
    returns (a: Result<SettlementPayload, ApprovalError>)
    ensures a == SignSpec(c, t, index, key, known, r, confirmed, secretFits)
  {
    var m := Recompute(c, t, r.package, r.evidence, r.settlementNonce, confirmed);
    if m.Err? { return Err(Invalid(m.error)); }
    var v := m.value;
    if r.post != v.post || r.preBalanceRoot != v.preBalanceRoot || r.postBalanceRoot != v.postBalanceRoot
        || r.residual != v.residual
       || r.resultRoot != v.resultRoot || r.resultCommitment != v.resultCommitment
          || r.settlementDigest != SettlementDigest(c.sha, v.payload)
    {
      return Err(Differs);
    }
    if !MaySign(index, key, known, confirmed, secretFits) { return Err(NotThisKeyper); }
    return Ok(v.payload);
  }

  /** A request made by `build` is approved by exactly the keypers that may sign, and what they sign is its digest. */
  lemma BuiltRequestApproved(c: Crypto, t: Threshold, index: nat, key: Bytes32, known: Digests, p: Package,
                             evs: seq<Evidence>, nonce: Bytes32,
                             confirmed: ConfirmedLock, secretFits: bool, r: Request)
    requires BuildSpec(c, t, p, evs, nonce, confirmed) == Ok(r)
    ensures var a := SignSpec(c, t, index, key, known, r, confirmed, secretFits);
            && (a.Ok? <==> MaySign(index, key, known, confirmed, secretFits))
            && (a.Ok? ==> SettlementDigest(c.sha, a.value) == r.settlementDigest)
  {
    BuiltFields(c.sha, p, evs, nonce, RecomputeSpec(c, t, p, evs, nonce, confirmed).value);
  }

  /** Everything a request claims is what a recomputation of its own package and evidence yields. */
  ghost predicate Claims(c: Crypto, r: Request, m: Recomputed) {
    && r.post == m.post && r.residual == m.residual && r.preBalanceRoot == m.preBalanceRoot
    && r.postBalanceRoot == m.postBalanceRoot && r.resultRoot == m.resultRoot
    && r.resultCommitment == m.resultCommitment && r.settlementDigest == SettlementDigest(c.sha, m.payload)
  }

  lemma BuiltIff(c: Crypto, r: Request, m: Recomputed)
    ensures r == BuiltFrom(c.sha, r.package, r.evidence, r.settlementNonce, m) <==> Claims(c, r, m)
  {
  }

  lemma MayIff(index: nat, key: Bytes32, known: Digests, f: ConfirmedLock, secretFits: bool)
    ensures MaySign(index, key, known, f, secretFits) <==>
            && f.pool.Some? && index < 3 && secretFits
            && key == [f.pool.value.keypers.k0, f.pool.value.keypers.k1, f.pool.value.keypers.k2][index]
            && f.epochAccount in known && known[f.epochAccount] == f.state.lockDigest
  {
  }

  /** A keyper approves a request if and only if the request recomputes, claims nothing else, and this keyper is the
      configured one at its index, holds the matching secret and has journaled the lock; what it signs is the recomputed
      payload. */
  lemma SignIff(c: Crypto, t: Threshold, index: nat, key: Bytes32, known: Digests, r: Request, f: ConfirmedLock,
                secretFits: bool, payload: SettlementPayload)
    ensures SignSpec(c, t, index, key, known, r, f, secretFits) == Ok(payload)
            <==> var m := RecomputeSpec(c, t, r.package, r.evidence, r.settlementNonce, f);
                 && m.Ok? && Claims(c, r, m.value) && payload == m.value.payload
                 && f.pool.Some? && index < 3 && secretFits
                 && key == [f.pool.value.keypers.k0, f.pool.value.keypers.k1, f.pool.value.keypers.k2][index]
                 && f.epochAccount in known && known[f.epochAccount] == f.state.lockDigest
  {
    var m := RecomputeSpec(c, t, r.package, r.evidence, r.settlementNonce, f);
    if m.Ok? {
      BuiltIff(c, r, m.value);
      MayIff(index, key, known, f, secretFits);
    }
  }

  lemma ApprovedIsRecomputed(c: Crypto, t: Threshold, index: nat, key: Bytes32, known: Digests, r: Request,
                             confirmed: ConfirmedLock, secretFits: bool)
    requires SignSpec(c, t, index, key, known, r, confirmed, secretFits).Ok?
    ensures RecomputeSpec(c, t, r.package, r.evidence, r.settlementNonce, confirmed).Ok?
    ensures RecomputeSpec(c, t, r.package, r.evidence, r.settlementNonce, confirmed).value.payload
            == SignSpec(c, t, index, key, known, r, confirmed, secretFits).value
  {
  }

  /** A keyper's approval of a request: who signs, what it was shown, what it signs. */
  ghost predicate Approves(c: Crypto, t: Threshold, index: nat, key: Bytes32, known: Digests, r: Request,
                           confirmed: ConfirmedLock, payload: SettlementPayload) {
    SignSpec(c, t, index, key, known, r, confirmed, true) == Ok(payload)
  }

  /** Whatever requests two keypers are shown against one lock, the payloads they approve differ at most in the
      nonce. */
  lemma ApprovalsAgree(c: Crypto, t: Threshold, plain: (seq<byte>, seq<byte>) -> Option<seq<byte>>,
                       i: nat, keyA: Bytes32, knownA: Digests, r: Request, f: ConfirmedLock, a: SettlementPayload,
                       j: nat, keyB: Bytes32, knownB: Digests, s: Request, g: ConfirmedLock, b: SettlementPayload)
    requires ThresholdSound(t, plain) && SameLock(f, g) && HashSound(c, r.package, s.package) && KeysShort(r.package)
             && KeysShort(s.package)
    requires Approves(c, t, i, keyA, knownA, r, f, a) && Approves(c, t, j, keyB, knownB, s, g, b)
    ensures SamePayload(a, b)
  {
    ApprovedIsRecomputed(c, t, i, keyA, knownA, r, f, true);
    ApprovedIsRecomputed(c, t, j, keyB, knownB, s, g, true);
    SettlementAgreement(c, t, plain, r.package, r.evidence, r.settlementNonce, f, s.package, s.evidence,
      s.settlementNonce, g);
  }

  /** The payload names this account and carries the residual and commitment that were recomputed. */
  ghost predicate Carries(m: Recomputed, account: Bytes32) {
    && m.payload.epochAccount == account && m.payload.resultCommitment == m.resultCommitment
    && m.payload.residualSide == L.ResidualSide(m.residual) && m.payload.residualLots == L.ResidualLots(m.residual)
  }

  lemma FinishCarries(c: Crypto, account: Bytes32, e: EpochState, pool: PoolState, recovered: Bytes32, pre: Bytes32,
                      before: L.Book, result: L.BatchResult, nonce: Bytes32)
    requires Finish(c, account, e, pool, recovered, pre, before, result, nonce).Ok?
    ensures Carries(Finish(c, account, e, pool, recovered, pre, before, result, nonce).value, account)
  {
  }

  lemma NetCarries(c: Crypto, p: Package, confirmed: ConfirmedLock, xs: seq<SignedIntent>, nonce: Bytes32)
    requires |xs| <= U32_MAX && confirmed.pool.Some? && Net(c, p, confirmed, xs, nonce).Ok?
    ensures Carries(Net(c, p, confirmed, xs, nonce).value, confirmed.epochAccount)
  {
    FinishCarries(c, confirmed.epochAccount, confirmed.state, confirmed.pool.value, RecoveredRoot(c.sha, xs),
      p.preBalanceRoot, BookOf(p.balances),
                  L.NetSpec(ConfigOf(p), BookOf(p.balances), Map(xs, ORDER)).value, nonce);
  }

  lemma PayloadCarries(c: Crypto, t: Threshold, p: Package, evs: seq<Evidence>, nonce: Bytes32,
                       confirmed: ConfirmedLock)
    requires RecomputeSpec(c, t, p, evs, nonce, confirmed).Ok?
    ensures Carries(RecomputeSpec(c, t, p, evs, nonce, confirmed).value, confirmed.epochAccount)
  {
    var account, digest := confirmed.epochAccount, confirmed.state.lockDigest;
    RecoverLength(c, t, p.keys, p.submissions, evs, account, digest, 0);
    NetCarries(c, p, confirmed, RecoverFrom(c, t, p.keys, p.submissions, evs, account, digest, 0).value, nonce);
  }

  /** A settled epoch whose digest a keyper approved stores the residual of the netting that keyper recomputed. */
  lemma SettledAsRecomputed(ctx: Pr.Context, key: Bytes32, e: EpochState, c: Crypto, t: Threshold, p: Package,
                            evs: seq<Evidence>, nonce: Bytes32, confirmed: ConfirmedLock)
    requires P.EpochInv(ctx, key, e) && e.terminal == Settled && RecomputeSpec(c, t, p, evs, nonce, confirmed).Ok?
    requires var m := RecomputeSpec(c, t, p, evs, nonce, confirmed).value;
             && SettlementDigest(ctx.sha, m.payload) == e.settlementDigest
             && Sound(ctx.sha, iset{SETTLEMENT_DOMAIN + SettlementBytes(m.payload),
                                    SETTLEMENT_DOMAIN
                                      + SettlementBytes(Pr.SettlementPayloadOf(ctx, key, e, P.CompactOf(e)))})
    ensures var m := RecomputeSpec(c, t, p, evs, nonce, confirmed).value;
            e.residualSide == L.ResidualSide(m.residual) && e.residualLots == L.ResidualLots(m.residual)
              && e.resultCommitment == m.resultCommitment
  {
    var m := RecomputeSpec(c, t, p, evs, nonce, confirmed).value;
    PayloadCarries(c, t, p, evs, nonce, confirmed);
    SettlementDigestInjective(ctx.sha, m.payload, Pr.SettlementPayloadOf(ctx, key, e, P.CompactOf(e)));
  }
}
