/** When a locked batch can be recomputed, in plain terms. */
module RecomputeOutcomes {
  import opened Bytes
  import opened Order
  import opened HostChain
  import opened Submission
  import opened Admission
  import opened Commitment
  import opened LockPackage
  import opened LockOutcomes
  import opened Recovery
  import opened Settlement
  import opened SettledResults
  import L = Ledger

  // ---- opening ----

  /** Two shares released for this ciphertext under this lock, by different keypers, both valid, which together decrypt
      it to this intent. */
  ghost predicate Opens(c: Crypto, t: Threshold, keys: seq<byte>, s: EncryptedSubmission, ev: Evidence,
                        account: Bytes32, digest: Bytes32, x: SignedIntent) {
    var a, b, ct := ev.first, ev.second, s.ciphertext;
    && a == Share(account, digest, c.sha(ct), a.index, a.share)
       && b == Share(account, digest, c.sha(ct), b.index, b.share)
    && |ct| == 344 && c.cipherOk(ct) && a.index != b.index
    && t.shareOk(keys, a.index, a.share, ct) && t.shareOk(keys, b.index, b.share, ct)
    && exists text :: t.decrypt(keys, ct, a.index, a.share, b.index, b.share) == Some(text)
                      && t.readIntent(text) == Some(x)
  }

  lemma RecoverOneIff(c: Crypto, t: Threshold, keys: seq<byte>, s: EncryptedSubmission, ev: Evidence, account: Bytes32,
                      digest: Bytes32, x: SignedIntent)
    ensures RecoverOne(c, t, keys, s, ev, account, digest) == Some(x)
            <==> Opens(c, t, keys, s, ev, account, digest, x)
  {
  }

  /** Every member's ciphertext opens, from the `i`-th on. */
  ghost predicate AllOpen(c: Crypto, t: Threshold, keys: seq<byte>, subs: seq<EncryptedSubmission>, evs: seq<Evidence>,
                          account: Bytes32, digest: Bytes32, i: nat, xs: seq<SignedIntent>) {
    && i <= |subs| == |evs| && |xs| == |subs| - i
    && forall k | 0 <= k < |xs| :: Opens(c, t, keys, subs[i + k], evs[i + k], account, digest, xs[k])
  }

  lemma AllOpenNext(c: Crypto, t: Threshold, keys: seq<byte>, subs: seq<EncryptedSubmission>, evs: seq<Evidence>,
                    account: Bytes32, digest: Bytes32, i: nat, xs: seq<SignedIntent>)
    requires i < |subs| == |evs|
    ensures AllOpen(c, t, keys, subs, evs, account, digest, i, xs)
            <==> && xs != [] && Opens(c, t, keys, subs[i], evs[i], account, digest, xs[0])
                 && AllOpen(c, t, keys, subs, evs, account, digest, i + 1, xs[1..])
  {
    if AllOpen(c, t, keys, subs, evs, account, digest, i, xs) {
      forall k | 0 <= k < |xs[1..]|
        ensures Opens(c, t, keys, subs[i + 1 + k], evs[i + 1 + k], account, digest, xs[1..][k])
      {
        assert xs[1..][k] == xs[k + 1];
      }
    } else if xs != [] && AllOpen(c, t, keys, subs, evs, account, digest, i + 1, xs[1..])
              && Opens(c, t, keys, subs[i], evs[i], account, digest, xs[0]) {
      forall k | 0 <= k < |xs| ensures Opens(c, t, keys, subs[i + k], evs[i + k], account, digest, xs[k]) {
        if k > 0 { assert xs[k] == xs[1..][k - 1]; }
      }
    }
  }

  lemma {:induction false} RecoverIff(c: Crypto, t: Threshold, keys: seq<byte>, subs: seq<EncryptedSubmission>,
      evs: seq<Evidence>, account: Bytes32, digest: Bytes32, i: nat, xs: seq<SignedIntent>)
    requires |evs| == |subs| && i <= |subs|
    ensures RecoverFrom(c, t, keys, subs, evs, account, digest, i) == Some(xs)
            <==> AllOpen(c, t, keys, subs, evs, account, digest, i, xs)
    decreases |subs| - i
  {
    if i == |subs| {
      assert xs == [] <==> |xs| == 0;
    } else {
      AllOpenNext(c, t, keys, subs, evs, account, digest, i, xs);
      if xs != [] {
        RecoverOneIff(c, t, keys, subs[i], evs[i], account, digest, xs[0]);
        RecoverIff(c, t, keys, subs, evs, account, digest, i + 1, xs[1..]);
        assert xs == [xs[0]] + xs[1..];
      }
      var one, rest := RecoverOne(c, t, keys, subs[i], evs[i], account, digest),
        RecoverFrom(c, t, keys, subs, evs, account, digest, i + 1);
      if one.Some? && rest.Some? {
        assert ([one.value] + rest.value)[1..] == rest.value;
      }
    }
  }

  // ---- orders ----

  /** A member of that name signed this intent for this epoch, with a limit. */
  ghost predicate OrderedBy(c: Crypto, subs: seq<EncryptedSubmission>, epochId: Bytes32, x: SignedIntent) {
    exists s | s in subs ::
      && s.auth.participant == x.participant && c.validKey(s.auth.tradingKey)
      && c.sigOk(s.auth.tradingKey, INTENT_DOMAIN + x.body, x.signature) && x.epochId == epochId && x.limit > 0
  }

  lemma OneOfThatName(subs: seq<EncryptedSubmission>, s: EncryptedSubmission)
    requires AllApart(subs) && s in subs
    ensures FindMember(subs, s.auth.participant) == Some(s)
  {
    var found := FindMember(subs, s.auth.participant).value;
    var i :| 0 <= i < |subs| && subs[i] == s;
    var j :| 0 <= j < |subs| && subs[j] == found;
    assert i == j;
  }

  lemma OrderedIff(c: Crypto, subs: seq<EncryptedSubmission>, epochId: Bytes32, x: SignedIntent)
    requires AllApart(subs)
    ensures IntentFits(c, subs, epochId, x) <==> OrderedBy(c, subs, epochId, x)
  {
    if OrderedBy(c, subs, epochId, x) {
      var s :| && s in subs && s.auth.participant == x.participant && c.validKey(s.auth.tradingKey)
               && c.sigOk(s.auth.tradingKey, INTENT_DOMAIN + x.body, x.signature) && x.epochId == epochId
                  && x.limit > 0;
      OneOfThatName(subs, s);
    }
  }

  /** Every intent was signed by a member, no two by one. */
  ghost predicate AllOrdered(c: Crypto, p: Package, xs: seq<SignedIntent>) {
    && (forall i | 0 <= i < |xs| :: OrderedBy(c, p.submissions, p.configuration.epochId, xs[i]))
    && (forall i, j | 0 <= i < j < |xs| :: xs[i].participant != xs[j].participant)
  }

  lemma AllOrderedIff(c: Crypto, p: Package, xs: seq<SignedIntent>)
    requires AllApart(p.submissions)
    ensures IntentsFit(c, p.submissions, p.configuration.epochId, xs) <==> AllOrdered(c, p, xs)
  {
    forall i | 0 <= i < |xs|
      ensures IntentFits(c, p.submissions, p.configuration.epochId, xs[i])
              <==> OrderedBy(c, p.submissions, p.configuration.epochId, xs[i])
    {
      OrderedIff(c, p.submissions, p.configuration.epochId, xs[i]);
    }
  }

  // ---- netting ----

  /** The epoch's price is within the limit and the credit fits the balance the operator signed. */
  ghost predicate Suits(p: Package, x: SignedIntent) {
    var lot, price := p.configuration.baseLot, p.configuration.quotePerLot;
    exists b | b in p.balances && b.participant == x.participant ::
      if x.side.Buy? then price <= x.limit && b.base + lot <= U64_MAX
      else x.limit <= price && b.quote + price <= U64_MAX
  }

  ghost predicate Goes(cfg: L.BatchConfig, book: L.Book, o: L.FundedOrder) {
    o.participant in book && LimitHolds(cfg, o) && CreditFits(cfg, book[o.participant], o)
  }

  lemma SuitsIff(p: Package, x: SignedIntent)
    requires OnePerParticipant(p.balances) && x.participant in BookOf(p.balances)
    ensures Suits(p, x) <==> Goes(ConfigOf(p), BookOf(p.balances), ORDER(x))
  {
    BookKeys(p.balances);
    forall b | b in p.balances && b.participant == x.participant
      ensures BookOf(p.balances)[x.participant] == L.Balance(b.base, b.quote)
    {
      BookAt(p.balances, b);
    }
  }

  ghost predicate AllGo(cfg: L.BatchConfig, book: L.Book, orders: seq<L.FundedOrder>) {
    forall i | 0 <= i < |orders| :: Goes(cfg, book, orders[i])
  }

  lemma FundedGoes(cfg: L.BatchConfig, book: L.Book, orders: seq<L.FundedOrder>)
    requires 0 < |orders| <= U32_MAX && L.Distinct(orders) && BookFunds(cfg, book, orders)
    ensures L.NetSpec(cfg, book, orders).Ok? <==> AllGo(cfg, book, orders)
  {
    NetFailsOnly(cfg, book, orders);
    forall i | 0 <= i < |orders| ensures orders[i] in orders && orders[i].participant in book {}
  }

  /** Every intent's participant has an opening balance. */
  ghost predicate Held(p: Package, xs: seq<SignedIntent>) {
    forall i | 0 <= i < |xs| :: xs[i].participant in BookOf(p.balances)
  }

  lemma FundedHeld(p: Package, xs: seq<SignedIntent>)
    requires BookFunds(ConfigOf(p), BookOf(p.balances), Map(xs, ORDER))
    ensures Held(p, xs)
  {
    forall i | 0 <= i < |xs| ensures xs[i].participant in BookOf(p.balances) {
      assert Map(xs, ORDER)[i] in Map(xs, ORDER);
    }
  }

  /** Each of the intents suits the price and the balances. */
  ghost predicate AllSuit(p: Package, xs: seq<SignedIntent>) { forall i | 0 <= i < |xs| :: Suits(p, xs[i]) }

  lemma SuitsAll(p: Package, xs: seq<SignedIntent>)
    requires OnePerParticipant(p.balances) && Held(p, xs)
    ensures AllSuit(p, xs) <==> AllGo(ConfigOf(p), BookOf(p.balances), Map(xs, ORDER))
  {
    var orders := Map(xs, ORDER);
    if AllSuit(p, xs) {
      forall i | 0 <= i < |orders| ensures Goes(ConfigOf(p), BookOf(p.balances), orders[i]) { SuitsIff(p, xs[i]); }
    } else {
      var i :| 0 <= i < |xs| && !Suits(p, xs[i]);
      SuitsIff(p, xs[i]);
    }
  }

  lemma NetsIff(p: Package, xs: seq<SignedIntent>)
    requires 0 < |xs| <= U32_MAX && OnePerParticipant(p.balances) && L.Distinct(Map(xs, ORDER))
    requires BookFunds(ConfigOf(p), BookOf(p.balances), Map(xs, ORDER))
    ensures L.NetSpec(ConfigOf(p), BookOf(p.balances), Map(xs, ORDER)).Ok? <==> AllSuit(p, xs)
  {
    FundedGoes(ConfigOf(p), BookOf(p.balances), Map(xs, ORDER));
    FundedHeld(p, xs);
    SuitsAll(p, xs);
  }

  /** Signed intents of a locked crowd net exactly when each of them suits the price and the balances. */
  lemma CrowdNetsIff(c: Crypto, p: Package, f: ConfirmedLock, xs: seq<SignedIntent>)
    requires ValidateLockedSpec(c, p, f).Ok? && |xs| == |p.submissions|
    requires IntentsFit(c, p.submissions, p.configuration.epochId, xs) && OnePerParticipant(p.balances)
    ensures |xs| <= U32_MAX
    ensures L.NetSpec(ConfigOf(p), BookOf(p.balances), Map(xs, ORDER)).Ok?
            <==> AllSuit(p, xs)
  {
    CrowdCovered(c, p, f, xs);
    NetsIff(p, xs);
  }

  // ---- the roots of the result ----

  lemma EntriesDistinct(m: L.Book)
    ensures Distinct(Entries(m))
  {
    EntryKeys(m);
    KeysDistinct(m.Keys);
    forall i, j | 0 <= i < j < |Entries(m)| ensures Entries(m)[i] != Entries(m)[j] {
      assert SortedKeys(m.Keys)[i] != SortedKeys(m.Keys)[j];
    }
  }

  /** Different entries written differently have a root. */
  lemma RootStands<A(!new)>(sha: Sha, d: Domain, xs: seq<A>, leaf: A -> seq<byte>)
    requires Distinct(xs) && InjectiveOn(leaf, xs, xs) && Short(Map(xs, leaf))
    requires Sound(sha, Hashed(sha, d, Map(xs, leaf)))
    ensures ContentRootSpec(sha, d, Map(xs, leaf)).Ok?
  {
    MapDistinct(xs, leaf);
    RefusesExactlyDuplicates(sha, d, Map(xs, leaf));
  }

  lemma BalanceLeavesApart(post: seq<(Bytes32, L.Balance)>)
    ensures InjectiveOn(L.PUT_BALANCE, post, post)
  {
    forall x, y | x in post && y in post && L.PUT_BALANCE(x) == L.PUT_BALANCE(y) ensures x == y {
      L.BalanceRoundTrip(x.0, x.1);
      L.BalanceRoundTrip(y.0, y.1);
    }
  }

  lemma ResultLeavesApart(before: L.Book, post: seq<(Bytes32, L.Balance)>)
    ensures InjectiveOn(ResultLeaf(before), post, post)
  {
    forall x, y | x in post && y in post && ResultLeaf(before)(x) == ResultLeaf(before)(y) ensures x == y {
      ResultLeafInjective(before, x, before, y);
    }
  }

  ghost predicate RootsSound(sha: Sha, before: L.Book, after: L.Book) {
    && Sound(sha, Hashed(sha, BalanceSet, Map(Entries(after), L.PUT_BALANCE)))
    && Sound(sha, Hashed(sha, ResultSet, Map(Entries(after), ResultLeaf(before))))
  }

  lemma PostRootStands(sha: Sha, before: L.Book, after: L.Book)
    requires |after| <= MAX_BATCH_MEMBERS && RootsSound(sha, before, after)
    ensures PostRoot(sha, Entries(after)).Ok?
  {
    EntriesDistinct(after);
    BalanceLeavesApart(Entries(after));
    BalanceLeavesShort(Entries(after));
    RootStands(sha, BalanceSet, Entries(after), L.PUT_BALANCE);
  }

  lemma ResultRootStands(sha: Sha, before: L.Book, after: L.Book)
    requires |after| <= MAX_BATCH_MEMBERS && RootsSound(sha, before, after)
    ensures ResultRoot(sha, before, Entries(after)).Ok?
  {
    EntriesDistinct(after);
    ResultLeavesApart(before, Entries(after));
    ResultLeavesShort(before, Entries(after));
    RootStands(sha, ResultSet, Entries(after), ResultLeaf(before));
  }

  // ---- recomputation ----

  /** No collisions among what the result roots of this netting hash, if it nets. */
  ghost predicate ClosingSound(sha: Sha, p: Package, xs: seq<SignedIntent>) {
    |xs| <= U32_MAX && L.NetSpec(ConfigOf(p), BookOf(p.balances), Map(xs, ORDER)).Ok?
    ==> RootsSound(sha, BookOf(p.balances), L.NetSpec(ConfigOf(p), BookOf(p.balances), Map(xs, ORDER)).value.after)
  }

  lemma AcceptedShape(c: Crypto, p: Package, f: ConfirmedLock)
    requires ValidateLockedSpec(c, p, f).Ok?
    ensures f.pool.Some? && |p.balances| == |p.submissions| <= MAX_BATCH_MEMBERS
    ensures AllApart(p.submissions) && OnePerParticipant(p.balances)
    ensures L.NewConfig(p.configuration.baseLot, p.configuration.quotePerLot).Ok?
  {
    LockedSizes(c, p, f);
    ValidateLockedMeans(c, p, f);
    var policy := Reopened(c, f).value.policy;
    ContentsMean(c, p, policy);
    ReopenedLots(c, p, f);
  }

  lemma BookNoLarger(p: Package, after: L.Book)
    requires |p.balances| <= MAX_BATCH_MEMBERS && after.Keys == BookOf(p.balances).Keys
    ensures |after| <= MAX_BATCH_MEMBERS
  {
    BookSize(p.balances);
    SameKeysSize(after, BookOf(p.balances));
  }

  lemma NettedSize(p: Package, orders: seq<L.FundedOrder>)
    requires |p.balances| <= MAX_BATCH_MEMBERS && |orders| <= U32_MAX
    requires L.NetSpec(ConfigOf(p), BookOf(p.balances), orders).Ok?
    ensures |L.NetSpec(ConfigOf(p), BookOf(p.balances), orders).value.after| <= MAX_BATCH_MEMBERS
  {
    L.NettedResult(ConfigOf(p), BookOf(p.balances), orders);
    BookNoLarger(p, L.NetSpec(ConfigOf(p), BookOf(p.balances), orders).value.after);
  }

  ghost predicate RootsOk(sha: Sha, before: L.Book, after: L.Book) {
    PostRoot(sha, Entries(after)).Ok? && ResultRoot(sha, before, Entries(after)).Ok?
  }

  lemma RootsStand(sha: Sha, before: L.Book, after: L.Book)
    requires |after| <= MAX_BATCH_MEMBERS && RootsSound(sha, before, after)
    ensures RootsOk(sha, before, after)
  {
    PostRootStands(sha, before, after);
    ResultRootStands(sha, before, after);
  }

  lemma NetOkMeans(c: Crypto, p: Package, f: ConfirmedLock, xs: seq<SignedIntent>, nonce: Bytes32)
    requires |xs| <= U32_MAX && f.pool.Some? && OnePerParticipant(p.balances)
    requires L.NewConfig(p.configuration.baseLot, p.configuration.quotePerLot).Ok?
    requires IntentsFit(c, p.submissions, p.configuration.epochId, xs)
    ensures Net(c, p, f, xs, nonce).Ok? <==>
            var r := L.NetSpec(ConfigOf(p), BookOf(p.balances), Map(xs, ORDER));
            r.Ok? && RootsOk(c.sha, BookOf(p.balances), r.value.after)
  {
  }

  lemma NetOkIff(c: Crypto, p: Package, f: ConfirmedLock, xs: seq<SignedIntent>, nonce: Bytes32)
    requires ValidateLockedSpec(c, p, f).Ok? && |xs| == |p.submissions| <= U32_MAX && f.pool.Some?
    requires ClosingSound(c.sha, p, xs)
    ensures Net(c, p, f, xs, nonce).Ok? <==> AllOrdered(c, p, xs) && AllSuit(p, xs)
  {
    AcceptedShape(c, p, f);
    AllOrderedIff(c, p, xs);
    if IntentsFit(c, p.submissions, p.configuration.epochId, xs) {
      CrowdNetsIff(c, p, f, xs);
      NetOkMeans(c, p, f, xs, nonce);
      if AllSuit(p, xs) {
        NettedSize(p, Map(xs, ORDER));
        RootsStand(c.sha, BookOf(p.balances), L.NetSpec(ConfigOf(p), BookOf(p.balances), Map(xs, ORDER)).value.after);
      }
    }
  }

  /** The intents a batch is settled by: every member's ciphertext opens to one of them, each was signed by a member for
      this epoch, no two by one, and each suits the price and the balances. */
  ghost predicate SettledBy(c: Crypto, t: Threshold, p: Package, evs: seq<Evidence>, f: ConfirmedLock,
                            xs: seq<SignedIntent>) {
    && AllOpen(c, t, p.keys, p.submissions, evs, f.epochAccount, f.state.lockDigest, 0, xs)
    && AllOrdered(c, p, xs) && AllSuit(p, xs)
  }

  lemma RecomputeOkIff(c: Crypto, t: Threshold, p: Package, evs: seq<Evidence>, nonce: Bytes32, f: ConfirmedLock,
                       xs: seq<SignedIntent>)
    requires ValidateLockedSpec(c, p, f).Ok? && nonce != ZERO && nonce != f.state.lockNonce && |evs| == |p.submissions|
    requires AllOpen(c, t, p.keys, p.submissions, evs, f.epochAccount, f.state.lockDigest, 0, xs)
    requires ClosingSound(c.sha, p, xs)
    ensures RecomputeSpec(c, t, p, evs, nonce, f).Ok? <==> AllOrdered(c, p, xs) && AllSuit(p, xs)
  {
    LockedSizes(c, p, f);
    RecoverIff(c, t, p.keys, p.submissions, evs, f.epochAccount, f.state.lockDigest, 0, xs);
    NetOkIff(c, p, f, xs, nonce);
  }

  lemma RecomputeOpened(c: Crypto, t: Threshold, p: Package, evs: seq<Evidence>, nonce: Bytes32, f: ConfirmedLock)
    returns (xs: seq<SignedIntent>)
    requires RecomputeSpec(c, t, p, evs, nonce, f).Ok?
    ensures ValidateLockedSpec(c, p, f).Ok? && nonce != ZERO && nonce != f.state.lockNonce && |evs| == |p.submissions|
    ensures AllOpen(c, t, p.keys, p.submissions, evs, f.epochAccount, f.state.lockDigest, 0, xs)
  {
    xs := RecoverFrom(c, t, p.keys, p.submissions, evs, f.epochAccount, f.state.lockDigest, 0).value;
    RecoverIff(c, t, p.keys, p.submissions, evs, f.epochAccount, f.state.lockDigest, 0, xs);
  }

  /** A batch can be recomputed if and only if its package is accepted against the confirmed lock, the settlement
      nonce is neither zero nor the lock's, there is one pair of shares per member, and there are intents the batch is
      settled by. */
  lemma RecomputeIff(c: Crypto, t: Threshold, p: Package, evs: seq<Evidence>, nonce: Bytes32, f: ConfirmedLock)
    requires forall xs | AllOpen(c, t, p.keys, p.submissions, evs, f.epochAccount, f.state.lockDigest, 0, xs) ::
               ClosingSound(c.sha, p, xs)
    ensures RecomputeSpec(c, t, p, evs, nonce, f).Ok?
            <==> && ValidateLockedSpec(c, p, f).Ok? && nonce != ZERO && nonce != f.state.lockNonce
                 && |evs| == |p.submissions| && exists xs :: SettledBy(c, t, p, evs, f, xs)
  {
    if RecomputeSpec(c, t, p, evs, nonce, f).Ok? {
      var xs := RecomputeOpened(c, t, p, evs, nonce, f);
      RecomputeOkIff(c, t, p, evs, nonce, f, xs);
      assert SettledBy(c, t, p, evs, f, xs);
    } else if ValidateLockedSpec(c, p, f).Ok? && nonce != ZERO && nonce != f.state.lockNonce
              && |evs| == |p.submissions| && exists xs :: SettledBy(c, t, p, evs, f, xs) {
      var xs :| SettledBy(c, t, p, evs, f, xs);
      RecomputeOkIff(c, t, p, evs, nonce, f, xs);
      assert false;
    }
  }
}
