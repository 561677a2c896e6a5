/** Recomputing a batch from its locked package, and why everyone who does so arrives at the same payload. */
module Settlement {
  import opened Bytes
  import opened Order
  import opened Layout
  import opened Wire
  import opened ChainState
  import opened HostChain
  import opened Submission
  import opened Admission
  import opened Commitment
  import opened LockPackage
  import opened Recovery
  import L = Ledger

  datatype SettlementError = InvalidLock | InvalidNonce | InvalidBatch | InvalidBalance | InvalidResult

  datatype Recomputed = Recomputed(
    post: seq<(Bytes32, L.Balance)>, preBalanceRoot: Bytes32, postBalanceRoot: Bytes32, residual: L.Residual,
    resultRoot: Bytes32, resultCommitment: Bytes32, payload: SettlementPayload)

  // "KAGEB_RESULT_COMMITMENT_V1\0"
  const RESULT_COMMITMENT_DOMAIN: seq<byte> := [75, 65, 71, 69, 66, 95, 82, 69, 83, 85, 76, 84, 95, 67, 79, 77, 77, 73,
                                                84, 77, 69, 78, 84, 95, 86, 49, 0]
  // "KAGEB_RECOVERED_INTENTS_V1\0"
  const RECOVERED_INTENTS_DOMAIN: seq<byte> := [75, 65, 71, 69, 66, 95, 82, 69, 67, 79, 86, 69, 82, 69, 68, 95, 73, 78,
                                                84, 69, 78, 84, 83, 95, 86, 49, 0]

  // ---- opening balances ----

  /** The balances collected by participant. */
  function BookOf(balances: seq<BalanceRecord>): L.Book {
    if balances == [] then map[]
    else
      var n := |balances| - 1;
      BookOf(balances[..n])[balances[n].participant := L.Balance(balances[n].base, balances[n].quote)]
  }

  lemma {:induction false} BookKeys(balances: seq<BalanceRecord>)
    ensures BookOf(balances).Keys == Holders(balances)
  {
    if balances != [] {
      var n := |balances| - 1;
      BookKeys(balances[..n]);
      assert balances == balances[..n] + [balances[n]];
    }
  }

  lemma {:induction false} BookAt(balances: seq<BalanceRecord>, b: BalanceRecord)
    requires OnePerParticipant(balances) && b in balances
    ensures b.participant in BookOf(balances) && BookOf(balances)[b.participant] == L.Balance(b.base, b.quote)
  {
    var n := |balances| - 1;
    if b != balances[n] {
      var i :| 0 <= i < |balances| && balances[i] == b;
      assert balances[..n][i] == b;
      assert OnePerParticipant(balances[..n]);
      BookAt(balances[..n], b);
      assert balances[i].participant != balances[n].participant;
    }
  }

  /** Reordering the balances gives the same book. */
  lemma BookSame(a: seq<BalanceRecord>, b: seq<BalanceRecord>)
    requires OnePerParticipant(a) && OnePerParticipant(b) && multiset(a) == multiset(b)
    ensures BookOf(a) == BookOf(b)
  {
    BookKeys(a);
    BookKeys(b);
    forall x ensures x in a <==> x in b { assert x in multiset(a) <==> x in multiset(b); }
    forall p | p in BookOf(a) ensures p in BookOf(b) && BookOf(a)[p] == BookOf(b)[p] {
      var x :| x in a && x.participant == p;
      BookAt(a, x);
      BookAt(b, x);
    }
    assert BookOf(a).Keys == BookOf(b).Keys;
  }

  // ---- the digests of the result ----

  function IntentHash(sha: Sha): SignedIntent -> Bytes32 { x => sha(IntentBytes(x)) }

  /** `recovered_intents_root`. */
  function RecoveredRoot(sha: Sha, xs: seq<SignedIntent>): Bytes32 {
    sha(RECOVERED_INTENTS_DOMAIN + Le(|xs|, 8) + EncodeAll(Sort(Map(xs, IntentHash(sha))), Raw))
  }

  function ResultFields(before: L.Book, e: (Bytes32, L.Balance)): seq<Field> {
    var prior := if e.0 in before then before[e.0] else L.Balance(0, 0);
    [Word(e.0), U64(prior.base), U64(prior.quote), U64(e.1.base), U64(e.1.quote)]
  }

  /** A participant's result: who, the opening balance, the closing balance. */
  function ResultLeaf(before: L.Book): ((Bytes32, L.Balance)) -> seq<byte> {
    (e: (Bytes32, L.Balance)) => PutAll(ResultFields(before, e))
  }

  ghost function PostRoot(sha: Sha, post: seq<(Bytes32, L.Balance)>): Result<Bytes32, CommitmentError> {
    ContentRootSpec(sha, BalanceSet, Map(post, L.PUT_BALANCE))
  }

  ghost function ResultRoot(sha: Sha, before: L.Book,
                            post: seq<(Bytes32, L.Balance)>): Result<Bytes32, CommitmentError> {
    ContentRootSpec(sha, ResultSet, Map(post, ResultLeaf(before)))
  }

  function CommitmentFields(account: Bytes32, digest: Bytes32, recovered: Bytes32, pre: Bytes32, post: Bytes32,
                            r: L.Residual, result: Bytes32): seq<Field> {
    [Word(account), Word(digest), Word(recovered), Word(pre), Word(post), Byte(L.ResidualSide(r)),
     U32(L.ResidualLots(r)), Word(result)]
  }

  /** What the result commitment is the hash of. */
  function CommitmentMessage(account: Bytes32, digest: Bytes32, recovered: Bytes32, pre: Bytes32, post: Bytes32,
                             r: L.Residual, result: Bytes32): seq<byte> {
    RESULT_COMMITMENT_DOMAIN + PutAll(CommitmentFields(account, digest, recovered, pre, post, r, result))
  }

  function ResultCommitment(sha: Sha, account: Bytes32, digest: Bytes32, recovered: Bytes32, pre: Bytes32,
                            post: Bytes32, r: L.Residual, result: Bytes32): Bytes32 {
    sha(CommitmentMessage(account, digest, recovered, pre, post, r, result))
  }

  function PayloadFor(account: Bytes32, e: EpochState, pool: PoolState, commitment: Bytes32, r: L.Residual,
                      nonce: Bytes32): SettlementPayload {
    SettlementPayload(account, e.lockDigest, commitment, L.ResidualSide(r), L.ResidualLots(r), e.baseLot, e.quotePerLot,
                      pool.baseMint, pool.quoteMint, pool.poolBaseVault, pool.poolQuoteVault, pool.venueBase,
                      pool.venueQuote,
                      pool.venueAuthority, nonce)
  }

  // ---- recomputation ----

  function ConfigOf(p: Package): L.BatchConfig { L.BatchConfig(p.configuration.baseLot, p.configuration.quotePerLot) }

  /** The roots of the closing balances and of the per-participant results. */
  ghost function Roots(c: Crypto, before: L.Book,
                       post: seq<(Bytes32, L.Balance)>): Result<(Bytes32, Bytes32), SettlementError> {
    var postRoot := PostRoot(c.sha, post);
    if postRoot.Err? then Err(SettlementError.InvalidBalance)
    else
      var resultRoot := ResultRoot(c.sha, before, post);
      if resultRoot.Err? then Err(InvalidResult) else Ok((postRoot.value, resultRoot.value))
  }

  function Assemble(sha: Sha, account: Bytes32, e: EpochState, pool: PoolState, recovered: Bytes32, pre: Bytes32,
                    result: L.BatchResult, roots: (Bytes32, Bytes32), nonce: Bytes32): Recomputed {
    var commitment := ResultCommitment(sha, account, e.lockDigest, recovered, pre, roots.0, result.residual, roots.1);
    Recomputed(Entries(result.after), pre, roots.0, result.residual, roots.1, commitment,
      PayloadFor(account, e, pool, commitment, result.residual, nonce))
  }

  /** From a netting result to the payload. */
  ghost function Finish(c: Crypto, account: Bytes32, e: EpochState, pool: PoolState, recovered: Bytes32, pre: Bytes32,
                        before: L.Book, result: L.BatchResult, nonce: Bytes32)
    : Result<Recomputed, SettlementError>
  {
    match Roots(c, before, Entries(result.after))
    case Err(error) => Err(error)
    case Ok(roots) => Ok(Assemble(c.sha, account, e, pool, recovered, pre, result, roots, nonce))
  }

  /** The batch once its intents are known. */
  ghost function Net(c: Crypto, p: Package, confirmed: ConfirmedLock, xs: seq<SignedIntent>,
                     nonce: Bytes32): Result<Recomputed, SettlementError>
    requires |xs| <= U32_MAX && confirmed.pool.Some?
  {
    if !IntentsFit(c, p.submissions, p.configuration.epochId, xs) then Err(InvalidBatch)
    else if !OnePerParticipant(p.balances) then Err(SettlementError.InvalidBalance)
    else if L.NewConfig(p.configuration.baseLot, p.configuration.quotePerLot).Err? then Err(InvalidBatch)
    else
      var result := L.NetSpec(ConfigOf(p), BookOf(p.balances), Map(xs, ORDER));
      if result.Err? then Err(InvalidBatch)
      else Finish(c, confirmed.epochAccount, confirmed.state, confirmed.pool.value, RecoveredRoot(c.sha, xs),
        p.preBalanceRoot, BookOf(p.balances), result.value, nonce)
  }

  ghost function RecomputeSpec(c: Crypto, t: Threshold, p: Package, evs: seq<Evidence>, nonce: Bytes32,
                               confirmed: ConfirmedLock): Result<Recomputed, SettlementError> {
    if ValidateLockedSpec(c, p, confirmed).Err? then Err(InvalidLock)
    else if nonce == ZERO || nonce == confirmed.state.lockNonce then Err(InvalidNonce)
    else if |evs| != |p.submissions| || |evs| > MAX_BATCH_MEMBERS then Err(InvalidBatch)
    else
      var xs := RecoverFrom(c, t, p.keys, p.submissions, evs, confirmed.epochAccount, confirmed.state.lockDigest, 0);
      if xs.None? then Err(InvalidBatch)
      else
        RecoverLength(c, t, p.keys, p.submissions, evs, confirmed.epochAccount, confirmed.state.lockDigest, 0);
        Net(c, p, confirmed, xs.value, nonce)
  }

  lemma {:induction false} RecoverLength(c: Crypto, t: Threshold, keys: seq<byte>, subs: seq<EncryptedSubmission>,
                                         evs: seq<Evidence>, account: Bytes32, digest: Bytes32, i: nat)
    requires |evs| == |subs| && i <= |subs| && RecoverFrom(c, t, keys, subs, evs, account, digest, i).Some?
    ensures |RecoverFrom(c, t, keys, subs, evs, account, digest, i).value| == |subs| - i
    decreases |subs| - i
  {
    if i < |subs| { RecoverLength(c, t, keys, subs, evs, account, digest, i + 1); }
  }

  // ---- the program ----

  lemma {:induction false} BookSize(balances: seq<BalanceRecord>)
    ensures |BookOf(balances)| <= |balances|
  {
    if balances != [] {
      var n := |balances| - 1;
      BookSize(balances[..n]);
      var m, next := BookOf(balances[..n]), BookOf(balances);
      assert next.Keys == m.Keys + {balances[n].participant};
      assert |next| == |next.Keys| && |m| == |m.Keys|;
    }
  }

  lemma SameKeysSize(a: L.Book, b: L.Book)
    requires a.Keys == b.Keys
    ensures |a| == |b|
  {
    assert |a| == |a.Keys| && |b| == |b.Keys|;
  }

  method FinishResult(c: Crypto, account: Bytes32, e: EpochState, pool: PoolState, recovered: Bytes32, pre: Bytes32,
                      before: L.Book, result: L.BatchResult, nonce: Bytes32)
    returns (r: Result<Recomputed, SettlementError>)
    ensures r == Finish(c, account, e, pool, recovered, pre, before, result, nonce)
  {
    var post := Entries(result.after);
    var postRoot := ContentRoot(c.sha, BalanceSet, Map(post, L.PUT_BALANCE));
    if postRoot.Err? { return Err(SettlementError.InvalidBalance); }
    var resultRoot := ContentRoot(c.sha, ResultSet, Map(post, ResultLeaf(before)));
    if resultRoot.Err? { return Err(InvalidResult); }
    return Ok(Assemble(c.sha, account, e, pool, recovered, pre, result, (postRoot.value, resultRoot.value), nonce));
  }

  method NetIntents(c: Crypto, p: Package, confirmed: ConfirmedLock, xs: seq<SignedIntent>, nonce: Bytes32)
    returns (r: Result<Recomputed, SettlementError>)
    requires |xs| <= U32_MAX && |p.balances| <= U32_MAX && confirmed.pool.Some?
    ensures r == Net(c, p, confirmed, xs, nonce)
  {
    var orders := CollectOrders(c, p.submissions, p.configuration.epochId, xs);
    if orders.None? { return Err(InvalidBatch); }
    var index := IndexBalances(p.balances);
    if |index| != |p.balances| { return Err(SettlementError.InvalidBalance); }
    if L.NewConfig(p.configuration.baseLot, p.configuration.quotePerLot).Err? { return Err(InvalidBatch); }
    BookSize(p.balances);
    var result := L.NetBatch(ConfigOf(p), BookOf(p.balances), orders.value);
    if result.Err? { return Err(InvalidBatch); }
    L.NettedResult(ConfigOf(p), BookOf(p.balances), orders.value);
    SameKeysSize(result.value.after, BookOf(p.balances));
    var conserved := L.Conserves(result.value, BookOf(p.balances));
    if !conserved { return Err(SettlementError.InvalidBalance); }
    r := FinishResult(c, confirmed.epochAccount, confirmed.state, confirmed.pool.value, RecoveredRoot(c.sha, xs),
      p.preBalanceRoot, BookOf(p.balances), result.value, nonce);
  }

  lemma LockedSizes(c: Crypto, p: Package, confirmed: ConfirmedLock)
    requires ValidateLockedSpec(c, p, confirmed).Ok?
    ensures confirmed.pool.Some? && |p.balances| == |p.submissions| <= MAX_BATCH_MEMBERS
  {
    ValidateLockedMeans(c, p, confirmed);
    ContentsMean(c, p, Reopened(c, confirmed).value.policy);
  }

  /** `recompute`. */
  method Recompute(c: Crypto, t: Threshold, p: Package, evs: seq<Evidence>, nonce: Bytes32, confirmed: ConfirmedLock)
    returns (r: Result<Recomputed, SettlementError>)
    ensures r == RecomputeSpec(c, t, p, evs, nonce, confirmed)
  {
    var valid := ValidateLocked(c, p, confirmed);
    if valid.Err? { return Err(InvalidLock); }
    LockedSizes(c, p, confirmed);
    if nonce == ZERO || nonce == confirmed.state.lockNonce { return Err(InvalidNonce); }
    if |evs| != |p.submissions| || |evs| > MAX_BATCH_MEMBERS { return Err(InvalidBatch); }
    var xs := RecoverAll(c, t, p.keys, p.submissions, evs, confirmed.epochAccount, confirmed.state.lockDigest);
    if xs.None? { return Err(InvalidBatch); }
    RecoverLength(c, t, p.keys, p.submissions, evs, confirmed.epochAccount, confirmed.state.lockDigest, 0);
    r := NetIntents(c, p, confirmed, xs.value, nonce);
  }

  // ---- full coverage of the locked crowd ----

  predicate LimitHolds(cfg: L.BatchConfig, o: L.FundedOrder) {
    if o.side.Buy? then cfg.quotePerLot <= o.limit else cfg.quotePerLot >= o.limit
  }

  predicate CreditFits(cfg: L.BatchConfig, b: L.Balance, o: L.FundedOrder) {
    if o.side.Buy? then b.base + cfg.baseLot <= U64_MAX else b.quote + cfg.quotePerLot <= U64_MAX
  }

  /** A funded participant's order fails only by its limit or by an overflow of the credited balance. */
  lemma FillFailsOnly(cfg: L.BatchConfig, book: L.Book, o: L.FundedOrder)
    requires o.participant in book && book[o.participant].base >= cfg.baseLot
             && book[o.participant].quote >= cfg.quotePerLot
    ensures L.FillOrder(cfg, book, o).Ok? <==> LimitHolds(cfg, o) && CreditFits(cfg, book[o.participant], o)
    ensures L.FillOrder(cfg, book, o).Err?
            ==> L.FillOrder(cfg, book, o).error.LimitViolated? || L.FillOrder(cfg, book, o).error.ArithmeticOverflow?
  {
  }

  ghost predicate BookFunds(cfg: L.BatchConfig, book: L.Book, orders: seq<L.FundedOrder>) {
    forall o | o in orders :: o.participant in book && book[o.participant].base >= cfg.baseLot
                              && book[o.participant].quote >= cfg.quotePerLot
  }

  lemma {:induction false} FirstFailureOnly(cfg: L.BatchConfig, book: L.Book, orders: seq<L.FundedOrder>, i: nat)
    requires i <= |orders| && BookFunds(cfg, book, orders)
    ensures var f := L.FirstFailure(cfg, book, orders, i);
            f.Some? ==> f.value.LimitViolated? || f.value.ArithmeticOverflow?
    decreases |orders| - i
  {
    if i < |orders| {
      FillFailsOnly(cfg, book, orders[i]);
      FirstFailureOnly(cfg, book, orders, i + 1);
    }
  }

  /** Distinct funded orders net unless a limit is violated or a credited balance overflows. */
  lemma NetFailsOnly(cfg: L.BatchConfig, book: L.Book, orders: seq<L.FundedOrder>)
    requires 0 < |orders| <= U32_MAX && L.Distinct(orders) && BookFunds(cfg, book, orders)
    ensures L.NetSpec(cfg, book, orders).Ok?
            <==> forall o | o in orders :: LimitHolds(cfg, o) && CreditFits(cfg, book[o.participant], o)
    ensures var r := L.NetSpec(cfg, book, orders); r.Err? ==> r.error.LimitViolated? || r.error.ArithmeticOverflow?
  {
    L.NetSucceedsIff(cfg, book, orders);
    L.FirstDuplicateNone(orders, 0);
    FirstFailureOnly(cfg, book, orders, 0);
    forall o | o in orders { FillFailsOnly(cfg, book, o); }
  }

  /** The opening book holds a full lot of both assets for a member. */
  lemma MemberFunded(c: Crypto, p: Package, policy: Policy, s: EncryptedSubmission)
    requires ContentsFit(c, p, policy) && s in p.submissions && policy.base == p.configuration.baseLot
             && policy.quote == p.configuration.quotePerLot
    ensures var book := BookOf(p.balances);
            s.auth.participant in book && book[s.auth.participant].base >= p.configuration.baseLot
              && book[s.auth.participant].quote >= p.configuration.quotePerLot
  {
    MemberValid(c, policy, p.submissions, s);
    var b :| b in p.balances && b.participant == s.auth.participant && Covers(b, s);
    BookAt(p.balances, b);
  }

  lemma OrderFunded(c: Crypto, p: Package, policy: Policy, xs: seq<SignedIntent>, o: L.FundedOrder)
    requires ContentsFit(c, p, policy) && policy.base == p.configuration.baseLot
             && policy.quote == p.configuration.quotePerLot
    requires IntentsFit(c, p.submissions, p.configuration.epochId, xs) && o in Map(xs, ORDER)
    ensures var book := BookOf(p.balances);
            o.participant in book && book[o.participant].base >= p.configuration.baseLot
              && book[o.participant].quote >= p.configuration.quotePerLot
  {
    var x := MapFrom(xs, ORDER, o);
    var i :| 0 <= i < |xs| && xs[i] == x;
    assert IntentFits(c, p.submissions, p.configuration.epochId, xs[i]);
    MemberFunded(c, p, policy, FindMember(p.submissions, x.participant).value);
  }

  lemma OrdersDistinct(c: Crypto, subs: seq<EncryptedSubmission>, epochId: Bytes32, xs: seq<SignedIntent>)
    requires IntentsFit(c, subs, epochId, xs)
    ensures L.Distinct(Map(xs, ORDER))
  {
  }

  /** Reopening a confirmed lock gives back the configuration's own lots. */
  lemma ReopenedLots(c: Crypto, p: Package, confirmed: ConfirmedLock)
    requires Reopened(c, confirmed).Some? && SizesFit(p, Reopened(c, confirmed).value)
    ensures var policy := Reopened(c, confirmed).value.policy;
            policy.base == p.configuration.baseLot && policy.quote == p.configuration.quotePerLot
  {
  }

  lemma OrdersFunded(c: Crypto, p: Package, policy: Policy, xs: seq<SignedIntent>)
    requires ContentsFit(c, p, policy) && policy.base == p.configuration.baseLot
             && policy.quote == p.configuration.quotePerLot
    requires IntentsFit(c, p.submissions, p.configuration.epochId, xs)
    ensures BookFunds(ConfigOf(p), BookOf(p.balances), Map(xs, ORDER))
  {
    forall o | o in Map(xs, ORDER) { OrderFunded(c, p, policy, xs, o); }
  }

  /** A package accepted against a confirmed lock whose intents verify: every locked member trades exactly once,
      funded. */
  lemma CrowdCovered(c: Crypto, p: Package, confirmed: ConfirmedLock, xs: seq<SignedIntent>)
    requires ValidateLockedSpec(c, p, confirmed).Ok? && |xs| == |p.submissions|
             && IntentsFit(c, p.submissions, p.configuration.epochId, xs)
    ensures 4 <= |xs| <= MAX_BATCH_MEMBERS && L.Distinct(Map(xs, ORDER))
    ensures multiset(Map(xs, TRADER)) == multiset(Map(p.submissions, PARTICIPANT))
    ensures BookFunds(ConfigOf(p), BookOf(p.balances), Map(xs, ORDER))
  {
    ValidateLockedMeans(c, p, confirmed);
    var policy := Reopened(c, confirmed).value.policy;
    ContentsMean(c, p, policy);
    ReopenedLots(c, p, confirmed);
    EveryMemberTradesOnce(c, p.submissions, p.configuration.epochId, xs);
    OrdersFunded(c, p, policy, xs);
    OrdersDistinct(c, p.submissions, p.configuration.epochId, xs);
  }

  /** For such a package the netting succeeds unless a limit is violated or a credited balance overflows. */
  lemma FullCoverage(c: Crypto, p: Package, confirmed: ConfirmedLock, xs: seq<SignedIntent>)
    requires ValidateLockedSpec(c, p, confirmed).Ok? && |xs| == |p.submissions|
             && IntentsFit(c, p.submissions, p.configuration.epochId, xs)
    ensures |xs| <= U32_MAX && BookFunds(ConfigOf(p), BookOf(p.balances), Map(xs, ORDER))
    ensures multiset(Map(xs, TRADER)) == multiset(Map(p.submissions, PARTICIPANT))
    ensures var r, orders, book := L.NetSpec(ConfigOf(p), BookOf(p.balances), Map(xs, ORDER)), Map(xs, ORDER),
            BookOf(p.balances);
            && (r.Ok? <==> forall o | o in orders :: LimitHolds(ConfigOf(p), o)
                                                     && CreditFits(ConfigOf(p), book[o.participant], o))
            && (r.Err? ==> r.error.LimitViolated? || r.error.ArithmeticOverflow?)
  {
    CrowdCovered(c, p, confirmed, xs);
    NetFailsOnly(ConfigOf(p), BookOf(p.balances), Map(xs, ORDER));
  }
}
