/** Settlement agreement: whoever recomputes a batch against one confirmed lock obtains the same payload. */
module Agreement {
  import opened Bytes
  import opened Order
  import opened Wire
  import opened ChainState
  import opened HostChain
  import opened Submission
  import opened Admission
  import opened Commitment
  import opened LockPackage
  import opened Recovery
  import opened Settlement
  import L = Ledger

  // ---- the collision-freedom assumed of the hash ----

  ghost function Ciphertexts(subs: seq<EncryptedSubmission>): iset<seq<byte>> { iset s | s in subs :: s.ciphertext }

  /** No two of the messages hashed while checking the two packages collide. */
  ghost predicate HashSound(c: Crypto, p: Package, q: Package) {
    && Sound(c.sha, Ciphertexts(p.submissions) + Ciphertexts(q.submissions))
    && Sound(c.sha,
      Hashed(c.sha, MemberSet, MemberLeaves(c, p.keys, p.submissions))
        + Hashed(c.sha, MemberSet, MemberLeaves(c, q.keys, q.submissions)))
    && Sound(c.sha,
      Hashed(c.sha, BalanceSet, Map(p.balances, BALANCE_LEAF))
        + Hashed(c.sha, BalanceSet, Map(q.balances, BALANCE_LEAF)))
  }

  /** Key sets are at most 1024 bytes on the wire; any bound below 2^64 will do here. */
  ghost predicate KeysShort(p: Package) { |p.keys| <= 1024 }

  // ---- equal member roots mean equal key sets and permuted submissions ----

  lemma MemberLeavesShort(c: Crypto, keys: seq<byte>, subs: seq<EncryptedSubmission>)
    requires |keys| <= 1024 && |subs| <= MAX_BATCH_MEMBERS
    ensures Short(MemberLeaves(c, keys, subs))
  {
    var leaves := MemberLeaves(c, keys, subs);
    forall leaf | leaf in leaves ensures |leaf| <= U64_MAX {
      if leaf in Map(subs, Leaf(c)) {
        var s := MapFrom(subs, Leaf(c), leaf);
        LeafLength(c, s);
      }
    }
  }

  lemma KeysLeafAmong(c: Crypto, keys: seq<byte>, other: seq<byte>, subs: seq<EncryptedSubmission>)
    requires KeysLeaf(keys) in MemberLeaves(c, other, subs) && forall s | s in subs :: s.auth.version == 1
    ensures keys == other
  {
    if KeysLeaf(keys) in Map(subs, Leaf(c)) {
      var s := MapFrom(subs, Leaf(c), KeysLeaf(keys));
      LeafIsNotKeys(c, s, keys);
    }
    assert keys == KeysLeaf(keys)[|KEY_SET_DOMAIN|..] && other == KeysLeaf(other)[|KEY_SET_DOMAIN|..];
  }

  lemma LeavesReorder(c: Crypto, keys: seq<byte>, a: seq<EncryptedSubmission>, other: seq<byte>,
                      b: seq<EncryptedSubmission>)
    requires multiset(MemberLeaves(c, keys, a)) == multiset(MemberLeaves(c, other, b))
             && forall s | s in b :: s.auth.version == 1
    ensures keys == other && multiset(Map(a, Leaf(c))) == multiset(Map(b, Leaf(c)))
  {
    assert MemberLeaves(c, keys, a)[0] == KeysLeaf(keys);
    assert KeysLeaf(keys) in multiset(MemberLeaves(c, keys, a));
    KeysLeafAmong(c, keys, other, b);
    assert multiset(MemberLeaves(c, keys, a)) == multiset{KeysLeaf(keys)} + multiset(Map(a, Leaf(c)));
    assert multiset(MemberLeaves(c, other, b)) == multiset{KeysLeaf(keys)} + multiset(Map(b, Leaf(c)));
    assert multiset(Map(a, Leaf(c))) == multiset(MemberLeaves(c, keys, a)) - multiset{KeysLeaf(keys)};
    assert multiset(Map(b, Leaf(c))) == multiset(MemberLeaves(c, other, b)) - multiset{KeysLeaf(keys)};
  }

  lemma SoundSubset(sha: Sha, small: iset<seq<byte>>, big: iset<seq<byte>>)
    requires Sound(sha, big) && small <= big
    ensures Sound(sha, small)
  {
  }

  lemma LeafInjectiveOn(c: Crypto, msgs: iset<seq<byte>>, a: seq<EncryptedSubmission>, b: seq<EncryptedSubmission>)
    requires Sound(c.sha, msgs) && Ciphertexts(a) <= msgs && Ciphertexts(b) <= msgs
    ensures InjectiveOn(Leaf(c), a, b)
  {
    forall x, y | x in a && y in b && Leaf(c)(x) == Leaf(c)(y) ensures x == y {
      assert x.ciphertext in Ciphertexts(a) && y.ciphertext in Ciphertexts(b);
      SoundSubset(c.sha, iset{x.ciphertext, y.ciphertext}, msgs);
      LeafInjective(c, x, y);
    }
  }

  lemma ApartDistinct(subs: seq<EncryptedSubmission>)
    requires AllApart(subs)
    ensures Distinct(subs)
  {
    forall i, j | 0 <= i < j < |subs| ensures subs[i] != subs[j] { assert Apart(subs[i], subs[j]); }
  }

  lemma MembersAgree(c: Crypto, k: seq<byte>, a: seq<EncryptedSubmission>, l: seq<byte>, b: seq<EncryptedSubmission>)
    requires |k| <= 1024 && |l| <= 1024 && |a| <= MAX_BATCH_MEMBERS && |b| <= MAX_BATCH_MEMBERS && AllApart(a)
             && AllApart(b)
    requires forall s | s in b :: s.auth.version == 1
    requires Sound(c.sha, Ciphertexts(a) + Ciphertexts(b))
    requires Sound(c.sha,
             Hashed(c.sha, MemberSet, MemberLeaves(c, k, a)) + Hashed(c.sha, MemberSet, MemberLeaves(c, l, b)))
    requires MemberRootSpec(c, k, a).Some? && MemberRootSpec(c, k, a) == MemberRootSpec(c, l, b)
    ensures k == l && multiset(a) == multiset(b)
  {
    MemberLeavesShort(c, k, a);
    MemberLeavesShort(c, l, b);
    SameRootIffPermutation(c.sha, MemberSet, MemberLeaves(c, k, a), MemberLeaves(c, l, b));
    LeavesReorder(c, k, a, l, b);
    var msgs := Ciphertexts(a) + Ciphertexts(b);
    LeafInjectiveOn(c, msgs, a, a);
    LeafInjectiveOn(c, msgs, b, b);
    LeafInjectiveOn(c, msgs, a, b);
    ApartDistinct(a);
    ApartDistinct(b);
    MapPermuted(a, b, Leaf(c));
  }

  // ---- equal balance roots mean permuted balances ----

  lemma BalanceLeavesShort(balances: seq<BalanceRecord>)
    requires |balances| <= MAX_BATCH_MEMBERS
    ensures Short(Map(balances, BALANCE_LEAF))
  {
    forall leaf | leaf in Map(balances, BALANCE_LEAF) ensures |leaf| <= U64_MAX {
      var b := MapFrom(balances, BALANCE_LEAF, leaf);
      BalanceLength(b);
    }
  }

  lemma BalanceLeafInjective(a: seq<BalanceRecord>, b: seq<BalanceRecord>)
    ensures InjectiveOn(BALANCE_LEAF, a, b)
  {
    forall x, y | x in a && y in b && BALANCE_LEAF(x) == BALANCE_LEAF(y) ensures x == y { BalanceInjective(x, y); }
  }

  lemma BalancesAgree(c: Crypto, a: seq<BalanceRecord>, b: seq<BalanceRecord>)
    requires |a| <= MAX_BATCH_MEMBERS && |b| <= MAX_BATCH_MEMBERS && OnePerParticipant(a) && OnePerParticipant(b)
    requires Sound(c.sha,
             Hashed(c.sha, BalanceSet, Map(a, BALANCE_LEAF)) + Hashed(c.sha, BalanceSet, Map(b, BALANCE_LEAF)))
    requires BalanceRootSpec(c, a).Some? && BalanceRootSpec(c, a) == BalanceRootSpec(c, b)
    ensures multiset(a) == multiset(b)
  {
    BalanceLeavesShort(a);
    BalanceLeavesShort(b);
    SameRootIffPermutation(c.sha, BalanceSet, Map(a, BALANCE_LEAF), Map(b, BALANCE_LEAF));
    BalanceLeafInjective(a, a);
    BalanceLeafInjective(b, b);
    BalanceLeafInjective(a, b);
    assert Distinct(a) && Distinct(b);
    MapPermuted(a, b, BALANCE_LEAF);
  }

  // ---- permuted batches net alike ----

  lemma RecoveredRootSame(sha: Sha, xs: seq<SignedIntent>, ys: seq<SignedIntent>)
    requires multiset(xs) == multiset(ys)
    ensures RecoveredRoot(sha, xs) == RecoveredRoot(sha, ys)
  {
    MapReordered(xs, ys, IntentHash(sha));
    SortEqual(Map(xs, IntentHash(sha)), Map(ys, IntentHash(sha)));
    assert |xs| == |multiset(xs)| == |multiset(ys)| == |ys|;
  }

  ghost predicate SamePayload(a: SettlementPayload, b: SettlementPayload) {
    a.(settlementNonce := ZERO) == b.(settlementNonce := ZERO)
  }

  /** Two confirmed reads of the same lock may differ in the slot they were made at. */
  ghost predicate SameLock(a: ConfirmedLock, b: ConfirmedLock) { a.(slot := 0) == b.(slot := 0) }

  lemma AssembleSame(sha: Sha, account: Bytes32, e: EpochState, pool: PoolState, recovered: Bytes32, pre: Bytes32,
                     result: L.BatchResult, roots: (Bytes32, Bytes32), m: Bytes32, n: Bytes32)
    ensures SamePayload(Assemble(sha, account, e, pool, recovered, pre, result, roots, m).payload,
            Assemble(sha, account, e, pool, recovered, pre, result, roots, n).payload)
  {
  }

  lemma FinishSame(c: Crypto, account: Bytes32, e: EpochState, pool: PoolState, recovered: Bytes32, pre: Bytes32,
                   before: L.Book, result: L.BatchResult, m: Bytes32, n: Bytes32)
    requires Finish(c, account, e, pool, recovered, pre, before, result, m).Ok?
             && Finish(c, account, e, pool, recovered, pre, before, result, n).Ok?
    ensures SamePayload(Finish(c, account, e, pool, recovered, pre, before, result, m).value.payload,
            Finish(c, account, e, pool, recovered, pre, before, result, n).value.payload)
  {
    AssembleSame(c.sha, account, e, pool, recovered, pre, result, Roots(c, before, Entries(result.after)).value, m, n);
  }

  lemma NetSame(c: Crypto, p: Package, q: Package, f: ConfirmedLock, g: ConfirmedLock, xs: seq<SignedIntent>,
                ys: seq<SignedIntent>, m: Bytes32, n: Bytes32)
    requires |xs| <= U32_MAX && |ys| <= U32_MAX && f.pool.Some? && SameLock(f, g)
    requires multiset(xs) == multiset(ys) && multiset(p.balances) == multiset(q.balances)
    requires p.configuration == q.configuration && p.preBalanceRoot == q.preBalanceRoot
    requires Net(c, p, f, xs, m).Ok? && Net(c, q, g, ys, n).Ok?
    ensures SamePayload(Net(c, p, f, xs, m).value.payload, Net(c, q, g, ys, n).value.payload)
  {
    MapReordered(xs, ys, ORDER);
    BookSame(p.balances, q.balances);
    L.NettingIsOrderIndependent(ConfigOf(p), BookOf(p.balances), Map(xs, ORDER), Map(ys, ORDER));
    RecoveredRootSame(c.sha, xs, ys);
    var result := L.NetSpec(ConfigOf(p), BookOf(p.balances), Map(xs, ORDER)).value;
    FinishSame(c, f.epochAccount, f.state, f.pool.value, RecoveredRoot(c.sha, xs), p.preBalanceRoot, BookOf(p.balances),
      result, m, n);
  }

  // ---- the theorem ----

  lemma VersionsAreOne(c: Crypto, policy: Policy, subs: seq<EncryptedSubmission>)
    requires AllValid(Checker(c, policy), subs)
    ensures forall s | s in subs :: s.auth.version == 1
  {
    forall s | s in subs ensures s.auth.version == 1 { MemberValid(c, policy, subs, s); }
  }

  /** Two packages accepted against one lock hold the same key set, submissions and balances, in any order. */
  lemma PackagesAgree(c: Crypto, p: Package, f: ConfirmedLock, q: Package, g: ConfirmedLock)
    requires ValidateLockedSpec(c, p, f).Ok? && ValidateLockedSpec(c, q, g).Ok? && SameLock(f, g)
    requires HashSound(c, p, q) && KeysShort(p) && KeysShort(q)
    ensures p.keys == q.keys && multiset(p.submissions) == multiset(q.submissions)
            && multiset(p.balances) == multiset(q.balances)
    ensures p.configuration == q.configuration && p.preBalanceRoot == q.preBalanceRoot
  {
    ValidateLockedMeans(c, p, f);
    ValidateLockedMeans(c, q, g);
    ContentsMean(c, p, Reopened(c, f).value.policy);
    ContentsMean(c, q, Reopened(c, g).value.policy);
    VersionsAreOne(c, Reopened(c, g).value.policy, q.submissions);
    MembersAgree(c, p.keys, p.submissions, q.keys, q.submissions);
    BalancesAgree(c, p.balances, q.balances);
  }

  /** A successful recomputation is the netting of what the ciphertexts hold. */
  lemma RecomputeIsNet(c: Crypto, t: Threshold, plain: (seq<byte>, seq<byte>) -> Option<seq<byte>>, p: Package,
                       evs: seq<Evidence>, m: Bytes32, f: ConfirmedLock)
    requires ThresholdSound(t, plain) && RecomputeSpec(c, t, p, evs, m, f).Ok?
    ensures ValidateLockedSpec(c, p, f).Ok? && f.pool.Some? && |p.submissions| <= U32_MAX
    ensures RecomputeSpec(c, t, p, evs, m, f) == Net(c, p, f, Map(p.submissions, Opened(t, plain, p.keys)), m)
  {
    RecoveredIs(c, t, plain, p.keys, p.submissions, evs, f.epochAccount, f.state.lockDigest);
  }

  /** Any two payloads recomputed against the same confirmed lock are equal in every field except the nonce, whatever
      order the packages list their contents in and whichever valid share pairs are used. */
  lemma SettlementAgreement(c: Crypto, t: Threshold, plain: (seq<byte>, seq<byte>) -> Option<seq<byte>>,
                            p: Package, evs: seq<Evidence>, m: Bytes32, f: ConfirmedLock,
                            q: Package, fvs: seq<Evidence>, n: Bytes32, g: ConfirmedLock)
    requires ThresholdSound(t, plain) && SameLock(f, g) && HashSound(c, p, q) && KeysShort(p) && KeysShort(q)
    requires RecomputeSpec(c, t, p, evs, m, f).Ok? && RecomputeSpec(c, t, q, fvs, n, g).Ok?
    ensures SamePayload(RecomputeSpec(c, t, p, evs, m, f).value.payload,
            RecomputeSpec(c, t, q, fvs, n, g).value.payload)
  {
    RecomputeIsNet(c, t, plain, p, evs, m, f);
    RecomputeIsNet(c, t, plain, q, fvs, n, g);
    PackagesAgree(c, p, f, q, g);
    var open := Opened(t, plain, p.keys);
    MapReordered(p.submissions, q.submissions, open);
    NetSame(c, p, q, f, g, Map(p.submissions, open), Map(q.submissions, open), m, n);
  }
}
