/** What a result commitment fixes: the batch, its closing balances and every member's result. */
module SettledResults {
  import opened Bytes
  import opened Order
  import opened Layout
  import opened Wire
  import opened ChainState
  import opened HostChain
  import opened Submission
  import opened Commitment
  import opened LockPackage
  import opened Recovery
  import opened Settlement
  import L = Ledger

  // ---- the message ----

  const COMMITMENT_KINDS := [KWord, KWord, KWord, KWord, KWord, KByte, KU32, KWord]

  lemma CommitmentSize()
    ensures Size(COMMITMENT_KINDS) == 197
  {
    SizeFirst(KWord, []);
    SizeFirst(KU32, [KWord]);
    SizeFirst(KByte, [KU32, KWord]);
    assert [KWord] + [] == [KWord] && [KU32] + [KWord] == [KU32, KWord]
           && [KByte] + [KU32, KWord] == [KByte, KU32, KWord];
    SizeFive(KWord, KWord, KWord, KWord, KWord, [KByte, KU32, KWord]);
    assert COMMITMENT_KINDS == [KWord, KWord, KWord, KWord, KWord] + [KByte, KU32, KWord];
  }

  /** Everything the commitment is made of can be read off its 224 bytes. */
  lemma MessageDetermines(account: Bytes32, digest: Bytes32, recovered: Bytes32, pre: Bytes32, post: Bytes32,
                          r: L.Residual, result: Bytes32,
                          account': Bytes32, digest': Bytes32, recovered': Bytes32, pre': Bytes32, post': Bytes32,
                          r': L.Residual, result': Bytes32)
    requires CommitmentMessage(account, digest, recovered, pre, post, r, result)
             == CommitmentMessage(account', digest', recovered', pre', post', r', result')
    ensures |CommitmentMessage(account, digest, recovered, pre, post, r, result)| == 224
    ensures account == account' && digest == digest' && recovered == recovered' && pre == pre' && post == post'
    ensures r == r' && result == result'
  {
    var f := CommitmentFields(account, digest, recovered, pre, post, r, result);
    var g := CommitmentFields(account', digest', recovered', pre', post', r', result');
    assert KindsOf(f) == COMMITMENT_KINDS && KindsOf(g) == COMMITMENT_KINDS;
    CommitmentSize();
    PutSize(f);
    SameTail(RESULT_COMMITMENT_DOMAIN, PutAll(f), PutAll(g));
    PutAllInjective(f, g);
    assert f[0] == g[0] && f[1] == g[1] && f[2] == g[2] && f[3] == g[3] && f[4] == g[4] && f[5] == g[5] && f[6] == g[6]
           && f[7] == g[7];
  }

  // ---- a recomputation in full ----

  /** The closing balances, their root, the root of the results, and the commitment to all of it. */
  ghost predicate Shows(c: Crypto, f: ConfirmedLock, before: L.Book, after: L.Book, m: Recomputed,
                        xs: seq<SignedIntent>) {
    && |xs| <= MAX_BATCH_MEMBERS && m.post == Entries(after)
    && PostRoot(c.sha, m.post) == Ok(m.postBalanceRoot) && ResultRoot(c.sha, before, m.post) == Ok(m.resultRoot)
    && m.resultCommitment == c.sha(MessageOf(c, f, xs, m))
  }

  /** The intents and the netting behind a recomputation, and every field of it. */
  ghost predicate Explains(c: Crypto, p: Package, f: ConfirmedLock, m: Recomputed, xs: seq<SignedIntent>,
                           result: L.BatchResult) {
    && |xs| == |p.submissions| <= MAX_BATCH_MEMBERS && IntentsFit(c, p.submissions, p.configuration.epochId, xs)
    && L.NetSpec(ConfigOf(p), BookOf(p.balances), Map(xs, ORDER)) == Ok(result)
    && m.residual == result.residual && m.preBalanceRoot == p.preBalanceRoot
    && Shows(c, f, BookOf(p.balances), result.after, m, xs)
  }

  ghost function MessageOf(c: Crypto, f: ConfirmedLock, xs: seq<SignedIntent>, m: Recomputed): seq<byte> {
    CommitmentMessage(f.epochAccount, f.state.lockDigest, RecoveredRoot(c.sha, xs), m.preBalanceRoot, m.postBalanceRoot,
      m.residual, m.resultRoot)
  }

  lemma NetSucceeded(c: Crypto, p: Package, f: ConfirmedLock, xs: seq<SignedIntent>, nonce: Bytes32)
    requires |xs| <= U32_MAX && f.pool.Some? && Net(c, p, f, xs, nonce).Ok?
    ensures IntentsFit(c, p.submissions, p.configuration.epochId, xs)
    ensures L.NetSpec(ConfigOf(p), BookOf(p.balances), Map(xs, ORDER)).Ok?
    ensures Net(c, p, f, xs, nonce)
            == Finish(c, f.epochAccount, f.state, f.pool.value, RecoveredRoot(c.sha, xs), p.preBalanceRoot,
              BookOf(p.balances), L.NetSpec(ConfigOf(p), BookOf(p.balances), Map(xs, ORDER)).value, nonce)
  {
  }

  /** What the last part of a recomputation puts where. */
  lemma FinishExplained(c: Crypto, account: Bytes32, e: EpochState, pool: PoolState, recovered: Bytes32, pre: Bytes32,
                        before: L.Book, result: L.BatchResult, nonce: Bytes32)
    requires Finish(c, account, e, pool, recovered, pre, before, result, nonce).Ok?
    ensures var m := Finish(c, account, e, pool, recovered, pre, before, result, nonce).value;
            && m.post == Entries(result.after) && m.residual == result.residual && m.preBalanceRoot == pre
            && PostRoot(c.sha, m.post) == Ok(m.postBalanceRoot) && ResultRoot(c.sha, before, m.post) == Ok(m.resultRoot)
            && m.resultCommitment
              == c.sha(CommitmentMessage(account, e.lockDigest, recovered, pre, m.postBalanceRoot, m.residual,
                m.resultRoot))
            && m.payload == SettlementPayload(
                 account, e.lockDigest, m.resultCommitment, L.ResidualSide(m.residual), L.ResidualLots(m.residual),
                   e.baseLot, e.quotePerLot,
                 pool.baseMint, pool.quoteMint, pool.poolBaseVault, pool.poolQuoteVault, pool.venueBase,
                 pool.venueQuote, pool.venueAuthority, nonce)
  {
  }

  lemma Explained(c: Crypto, t: Threshold, p: Package, evs: seq<Evidence>, nonce: Bytes32, f: ConfirmedLock)
    returns (xs: seq<SignedIntent>, result: L.BatchResult)
    requires RecomputeSpec(c, t, p, evs, nonce, f).Ok?
    ensures Explains(c, p, f, RecomputeSpec(c, t, p, evs, nonce, f).value, xs, result)
  {
    var account, digest := f.epochAccount, f.state.lockDigest;
    LockedSizes(c, p, f);
    RecoverLength(c, t, p.keys, p.submissions, evs, account, digest, 0);
    xs := RecoverFrom(c, t, p.keys, p.submissions, evs, account, digest, 0).value;
    NetSucceeded(c, p, f, xs, nonce);
    result := L.NetSpec(ConfigOf(p), BookOf(p.balances), Map(xs, ORDER)).value;
    FinishExplained(c, account, f.state, f.pool.value, RecoveredRoot(c.sha, xs), p.preBalanceRoot, BookOf(p.balances),
      result, nonce);
  }

  // ---- closing balances ----

  lemma EntryOf<V>(m: map<Bytes32, V>, k: Bytes32)
    requires k in m
    ensures (k, m[k]) in Entries(m)
  {
    EntryKeys(m);
    var i :| 0 <= i < |SortedKeys(m.Keys)| && SortedKeys(m.Keys)[i] == k;
    assert Entries(m)[i] in Entries(m);
  }

  /** The entries of a map determine it. */
  lemma EntriesDetermine<V(!new)>(a: map<Bytes32, V>, b: map<Bytes32, V>)
    requires forall e | e in Entries(a) :: e in Entries(b)
    requires forall e | e in Entries(b) :: e in Entries(a)
    ensures a == b
  {
    forall k | k in a ensures k in b && b[k] == a[k] {
      EntryOf(a, k);
      assert (k, a[k]) in Entries(b);
    }
    forall k | k in b ensures k in a {
      EntryOf(b, k);
      assert (k, b[k]) in Entries(a);
    }
  }

  lemma BalanceLeavesShort(post: seq<(Bytes32, L.Balance)>)
    requires |post| <= MAX_BATCH_MEMBERS
    ensures Short(Map(post, L.PUT_BALANCE))
  {
    forall leaf | leaf in Map(post, L.PUT_BALANCE) ensures |leaf| <= U64_MAX {
      var e := MapFrom(post, L.PUT_BALANCE, leaf);
      L.BalanceRoundTrip(e.0, e.1);
    }
  }

  lemma EntryReflected(post: seq<(Bytes32, L.Balance)>, post': seq<(Bytes32, L.Balance)>, e: (Bytes32, L.Balance))
    requires multiset(Map(post, L.PUT_BALANCE)) == multiset(Map(post', L.PUT_BALANCE)) && e in post
    ensures e in post'
  {
    MapIn(post, L.PUT_BALANCE, e);
    assert L.PUT_BALANCE(e) in multiset(Map(post', L.PUT_BALANCE));
    var d := MapFrom(post', L.PUT_BALANCE, L.PUT_BALANCE(e));
    L.BalanceRoundTrip(e.0, e.1);
    L.BalanceRoundTrip(d.0, d.1);
  }

  /** Equal roots of closing balances mean equal closing balances. */
  lemma PostRootFixes(sha: Sha, a: L.Book, b: L.Book)
    requires |a| <= MAX_BATCH_MEMBERS && |b| <= MAX_BATCH_MEMBERS
    requires PostRoot(sha, Entries(a)).Ok? && PostRoot(sha, Entries(a)) == PostRoot(sha, Entries(b))
    requires Sound(sha,
             Hashed(sha, BalanceSet, Map(Entries(a), L.PUT_BALANCE))
               + Hashed(sha, BalanceSet, Map(Entries(b), L.PUT_BALANCE)))
    ensures a == b
  {
    var x, y := Entries(a), Entries(b);
    BalanceLeavesShort(x);
    BalanceLeavesShort(y);
    SameRootIffPermutation(sha, BalanceSet, Map(x, L.PUT_BALANCE), Map(y, L.PUT_BALANCE));
    PermutedBooks(a, b);
  }

  lemma PermutedBooks(a: L.Book, b: L.Book)
    requires multiset(Map(Entries(a), L.PUT_BALANCE)) == multiset(Map(Entries(b), L.PUT_BALANCE))
    ensures a == b
  {
    var x, y := Entries(a), Entries(b);
    forall e | e in x ensures e in y { EntryReflected(x, y, e); }
    forall e | e in y ensures e in x { EntryReflected(y, x, e); }
    EntriesDetermine(a, b);
  }

  // ---- per-participant results ----

  function Prior(before: L.Book, p: Bytes32): L.Balance { if p in before then before[p] else L.Balance(0, 0) }

  lemma LeafSize(before: L.Book, e: (Bytes32, L.Balance))
    ensures |ResultLeaf(before)(e)| == 64
  {
    var f := ResultFields(before, e);
    assert KindsOf(f) == [KWord, KU64, KU64, KU64, KU64] + [];
    SizeFive(KWord, KU64, KU64, KU64, KU64, []);
    PutSize(f);
  }

  lemma ResultLeafInjective(before: L.Book, e: (Bytes32, L.Balance), before': L.Book, d: (Bytes32, L.Balance))
    requires ResultLeaf(before)(e) == ResultLeaf(before')(d)
    ensures |ResultLeaf(before)(e)| == 64 && e == d && Prior(before, e.0) == Prior(before', d.0)
  {
    var f, g := ResultFields(before, e), ResultFields(before', d);
    LeafSize(before, e);
    assert KindsOf(f) == KindsOf(g);
    PutAllInjective(f, g);
    assert f[0] == g[0] && f[1] == g[1] && f[2] == g[2] && f[3] == g[3] && f[4] == g[4];
  }

  lemma ResultLeavesShort(before: L.Book, post: seq<(Bytes32, L.Balance)>)
    requires |post| <= MAX_BATCH_MEMBERS
    ensures Short(Map(post, ResultLeaf(before)))
  {
    forall leaf | leaf in Map(post, ResultLeaf(before)) ensures |leaf| <= U64_MAX {
      var e := MapFrom(post, ResultLeaf(before), leaf);
      ResultLeafInjective(before, e, before, e);
    }
  }

  /** Equal result roots over the same closing balances mean equal opening balances of every participant. */
  lemma ResultRootFixes(sha: Sha, before: L.Book, before': L.Book, post: seq<(Bytes32, L.Balance)>,
                        e: (Bytes32, L.Balance))
    requires |post| <= MAX_BATCH_MEMBERS && e in post
    requires ResultRoot(sha, before, post).Ok? && ResultRoot(sha, before, post) == ResultRoot(sha, before', post)
    requires Sound(sha,
             Hashed(sha, ResultSet, Map(post, ResultLeaf(before)))
               + Hashed(sha, ResultSet, Map(post, ResultLeaf(before'))))
    ensures Prior(before, e.0) == Prior(before', e.0)
  {
    var x, y := Map(post, ResultLeaf(before)), Map(post, ResultLeaf(before'));
    ResultLeavesShort(before, post);
    ResultLeavesShort(before', post);
    SameRootIffPermutation(sha, ResultSet, x, y);
    MapIn(post, ResultLeaf(before), e);
    assert ResultLeaf(before)(e) in multiset(y);
    var d := MapFrom(post, ResultLeaf(before'), ResultLeaf(before)(e));
    ResultLeafInjective(before, e, before', d);
  }

  // ---- the intents ----

  lemma RecoveredMessageInjective(a: seq<Bytes32>, b: seq<Bytes32>)
    requires |a| <= U64_MAX && |b| <= U64_MAX
    requires RECOVERED_INTENTS_DOMAIN + Le(|a|, 8) + EncodeAll(a, Raw)
             == RECOVERED_INTENTS_DOMAIN + Le(|b|, 8) + EncodeAll(b, Raw)
    ensures a == b
  {
    Assoc(RECOVERED_INTENTS_DOMAIN, Le(|a|, 8), EncodeAll(a, Raw));
    Assoc(RECOVERED_INTENTS_DOMAIN, Le(|b|, 8), EncodeAll(b, Raw));
    SameTail(RECOVERED_INTENTS_DOMAIN, Le(|a|, 8) + EncodeAll(a, Raw), Le(|b|, 8) + EncodeAll(b, Raw));
    HashListInjective(a, b);
  }

  function RecoveredMessage(sha: Sha, xs: seq<SignedIntent>): seq<byte> {
    RECOVERED_INTENTS_DOMAIN + Le(|xs|, 8) + EncodeAll(Sort(Map(xs, IntentHash(sha))), Raw)
  }

  /** Every intent of one batch is, byte for byte, an intent of the other. */
  ghost predicate SameIntents(xs: seq<SignedIntent>, ys: seq<SignedIntent>) {
    |xs| == |ys| && forall x | x in xs :: exists y | y in ys :: IntentBytes(x) == IntentBytes(y)
  }

  ghost function IntentMessages(xs: seq<SignedIntent>): iset<seq<byte>> { iset x | x in xs :: IntentBytes(x) }

  lemma RecoveredRootFixes(sha: Sha, xs: seq<SignedIntent>, ys: seq<SignedIntent>)
    requires |xs| <= MAX_BATCH_MEMBERS && |ys| <= MAX_BATCH_MEMBERS && RecoveredRoot(sha, xs) == RecoveredRoot(sha, ys)
    requires Sound(sha, iset{RecoveredMessage(sha, xs), RecoveredMessage(sha, ys)})
    requires Sound(sha, IntentMessages(xs) + IntentMessages(ys))
    ensures SameIntents(xs, ys)
  {
    var a, b := Map(xs, IntentHash(sha)), Map(ys, IntentHash(sha));
    SortSorted(a);
    SortSorted(b);
    assert |Sort(a)| == |multiset(Sort(a))| == |multiset(a)| == |xs|
           && |Sort(b)| == |multiset(Sort(b))| == |multiset(b)| == |ys|;
    RecoveredMessageInjective(Sort(a), Sort(b));
    forall x | x in xs ensures exists y | y in ys :: IntentBytes(x) == IntentBytes(y) {
      MapIn(xs, IntentHash(sha), x);
      assert IntentHash(sha)(x) in multiset(b);
      var y := MapFrom(ys, IntentHash(sha), IntentHash(sha)(x));
      assert IntentBytes(x) in IntentMessages(xs) + IntentMessages(ys)
             && IntentBytes(y) in IntentMessages(xs) + IntentMessages(ys);
    }
  }

  // ---- the theorem ----

  /** No two of the messages hashed for the two results collide. */
  ghost predicate ResultsSound(c: Crypto, f: ConfirmedLock, xs: seq<SignedIntent>, before: L.Book, m: Recomputed,
                               g: ConfirmedLock, ys: seq<SignedIntent>, before': L.Book, n: Recomputed) {
    && Sound(c.sha, iset{MessageOf(c, f, xs, m), MessageOf(c, g, ys, n)})
    && Sound(c.sha,
      Hashed(c.sha, BalanceSet, Map(m.post, L.PUT_BALANCE)) + Hashed(c.sha, BalanceSet, Map(n.post, L.PUT_BALANCE)))
    && Sound(c.sha,
      Hashed(c.sha, ResultSet, Map(m.post, ResultLeaf(before)))
        + Hashed(c.sha, ResultSet, Map(n.post, ResultLeaf(before'))))
    && Sound(c.sha, iset{RecoveredMessage(c.sha, xs), RecoveredMessage(c.sha, ys)})
    && Sound(c.sha, IntentMessages(xs) + IntentMessages(ys))
  }

  lemma ClosingSize(cfg: L.BatchConfig, balances: seq<BalanceRecord>, orders: seq<L.FundedOrder>)
    requires |orders| <= U32_MAX && L.NetSpec(cfg, BookOf(balances), orders).Ok?
    ensures |L.NetSpec(cfg, BookOf(balances), orders).value.after| <= |balances|
    ensures L.NetSpec(cfg, BookOf(balances), orders).value.after.Keys == BookOf(balances).Keys
  {
    L.NettedFrame(cfg, BookOf(balances), orders);
    BookSize(balances);
    SameKeysSize(L.NetSpec(cfg, BookOf(balances), orders).value.after, BookOf(balances));
  }

  /** What the commitment names outright. */
  lemma CommitmentNames(c: Crypto, f: ConfirmedLock, xs: seq<SignedIntent>, m: Recomputed, g: ConfirmedLock,
                        ys: seq<SignedIntent>, n: Recomputed)
    requires m.resultCommitment == c.sha(MessageOf(c, f, xs, m)) && n.resultCommitment == c.sha(MessageOf(c, g, ys, n))
    requires Sound(c.sha, iset{MessageOf(c, f, xs, m), MessageOf(c, g, ys, n)})
             && m.resultCommitment == n.resultCommitment
    ensures f.epochAccount == g.epochAccount && f.state.lockDigest == g.state.lockDigest && m.residual == n.residual
    ensures m.preBalanceRoot == n.preBalanceRoot && m.postBalanceRoot == n.postBalanceRoot
            && m.resultRoot == n.resultRoot
    ensures RecoveredRoot(c.sha, xs) == RecoveredRoot(c.sha, ys)
  {
    MessageDetermines(f.epochAccount, f.state.lockDigest, RecoveredRoot(c.sha, xs), m.preBalanceRoot, m.postBalanceRoot,
      m.residual, m.resultRoot,
                      g.epochAccount, g.state.lockDigest, RecoveredRoot(c.sha, ys), n.preBalanceRoot, n.postBalanceRoot,
                      n.residual, n.resultRoot);
  }

  /** Two recomputations agree on the batch and on every member's result. */
  ghost predicate SameResult(f: ConfirmedLock, xs: seq<SignedIntent>, before: L.Book, m: Recomputed,
                             g: ConfirmedLock, ys: seq<SignedIntent>, before': L.Book, n: Recomputed) {
    && f.epochAccount == g.epochAccount && f.state.lockDigest == g.state.lockDigest
       && m.preBalanceRoot == n.preBalanceRoot
    && m.residual == n.residual && m.post == n.post && SameIntents(xs, ys)
    && forall e | e in m.post :: Prior(before, e.0) == Prior(before', e.0)
  }

  /** The result commitment fixes the result. Two recomputations, of whatever packages against whatever locks, with
      equal result commitments are of the same epoch and lock, the same opening root, the same intents and the same
      residual, with the same closing balances and the same opening balance of every participant. */
  lemma CommitmentFixesResult(c: Crypto, t: Threshold, p: Package, evs: seq<Evidence>, m: Bytes32, f: ConfirmedLock,
                              xs: seq<SignedIntent>, r: L.BatchResult,
                              q: Package, fvs: seq<Evidence>, n: Bytes32, g: ConfirmedLock, ys: seq<SignedIntent>,
                              s: L.BatchResult)
    requires RecomputeSpec(c, t, p, evs, m, f).Ok? && RecomputeSpec(c, t, q, fvs, n, g).Ok?
    requires var x, y := RecomputeSpec(c, t, p, evs, m, f).value, RecomputeSpec(c, t, q, fvs, n, g).value;
             && Explains(c, p, f, x, xs, r) && Explains(c, q, g, y, ys, s)
             && x.resultCommitment == y.resultCommitment
             && ResultsSound(c, f, xs, BookOf(p.balances), x, g, ys, BookOf(q.balances), y)
    ensures SameResult(f, xs, BookOf(p.balances), RecomputeSpec(c, t, p, evs, m, f).value,
                       g, ys, BookOf(q.balances), RecomputeSpec(c, t, q, fvs, n, g).value)
  {
    ExplainedSize(c, t, p, evs, m, f, xs, r);
    ExplainedSize(c, t, q, fvs, n, g, ys, s);
    ShownFixes(c, f, BookOf(p.balances), r.after, RecomputeSpec(c, t, p, evs, m, f).value, xs,
               g, BookOf(q.balances), s.after, RecomputeSpec(c, t, q, fvs, n, g).value, ys);
  }

  lemma ShownFixes(c: Crypto, f: ConfirmedLock, before: L.Book, after: L.Book, m: Recomputed, xs: seq<SignedIntent>,
                   g: ConfirmedLock, before': L.Book, after': L.Book, n: Recomputed, ys: seq<SignedIntent>)
    requires Shows(c, f, before, after, m, xs) && Shows(c, g, before', after', n, ys)
    requires |after| <= MAX_BATCH_MEMBERS && |after'| <= MAX_BATCH_MEMBERS && m.resultCommitment == n.resultCommitment
    requires ResultsSound(c, f, xs, before, m, g, ys, before', n)
    ensures SameResult(f, xs, before, m, g, ys, before', n)
  {
    CommitmentNames(c, f, xs, m, g, ys, n);
    ResultsFixed(c.sha, before, after, before', after');
    RecoveredRootFixes(c.sha, xs, ys);
  }

  lemma ExplainedSize(c: Crypto, t: Threshold, p: Package, evs: seq<Evidence>, n: Bytes32, f: ConfirmedLock,
                      xs: seq<SignedIntent>, r: L.BatchResult)
    requires RecomputeSpec(c, t, p, evs, n, f).Ok?
             && Explains(c, p, f, RecomputeSpec(c, t, p, evs, n, f).value, xs, r)
    ensures |r.after| <= MAX_BATCH_MEMBERS && |xs| <= MAX_BATCH_MEMBERS
  {
    LockedSizes(c, p, f);
    ClosingSize(ConfigOf(p), p.balances, Map(xs, ORDER));
  }

  /** Equal roots of closing balances and of results fix both books, as far as the closing one reaches. */
  lemma ResultsFixed(sha: Sha, before: L.Book, after: L.Book, before': L.Book, after': L.Book)
    requires |after| <= MAX_BATCH_MEMBERS && |after'| <= MAX_BATCH_MEMBERS
    requires PostRoot(sha, Entries(after)).Ok? && PostRoot(sha, Entries(after)) == PostRoot(sha, Entries(after'))
    requires ResultRoot(sha, before, Entries(after)).Ok?
             && ResultRoot(sha, before, Entries(after)) == ResultRoot(sha, before', Entries(after'))
    requires Sound(sha,
             Hashed(sha, BalanceSet, Map(Entries(after), L.PUT_BALANCE))
               + Hashed(sha, BalanceSet, Map(Entries(after'), L.PUT_BALANCE)))
    requires Sound(sha,
             Hashed(sha, ResultSet, Map(Entries(after), ResultLeaf(before)))
               + Hashed(sha, ResultSet, Map(Entries(after'), ResultLeaf(before'))))
    ensures after == after' && forall e | e in Entries(after) :: Prior(before, e.0) == Prior(before', e.0)
  {
    PostRootFixes(sha, after, after');
    forall e | e in Entries(after) ensures Prior(before, e.0) == Prior(before', e.0) {
      ResultRootFixes(sha, before, before', Entries(after), e);
    }
  }
}
