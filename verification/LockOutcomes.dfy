/** When a keyper accepts a package, approves a lock or releases a share, said in terms of their contents alone. */
module LockOutcomes {
  import opened Bytes
  import opened Order
  import opened Wire
  import opened ChainState
  import opened HostChain
  import opened Submission
  import opened Admission
  import opened LockPackage
  import opened Keyper

  // ---- a submission ----

  /** The pool's operator granted this participant a lot of each asset in this epoch, not yet expired. */
  ghost predicate Granted(c: Crypto, policy: Policy, a: Authorization) {
    && a.version == 1 && a.epochId == policy.epochId && a.operatorKey == policy.operatorKey
    && a.base == policy.base && a.quote == policy.quote && a.expirySlot >= policy.currentSlot
    && c.validKey(policy.operatorKey) && c.sigOk(policy.operatorKey, AuthMessage(a), a.signature)
  }

  /** And the trader signed the ciphertext under that grant. */
  ghost predicate Submitted(c: Crypto, policy: Policy, s: EncryptedSubmission) {
    && Granted(c, policy, s.auth) && s.receipt != ZERO && |s.ciphertext| == 344 && c.cipherOk(s.ciphertext)
    && c.validKey(s.auth.tradingKey) && c.sigOk(s.auth.tradingKey, SubmissionMessage(c, s), s.outer)
  }

  lemma ValidIff(c: Crypto, policy: Policy, s: EncryptedSubmission)
    ensures ValidSubmission(c, policy, s) <==> Submitted(c, policy, s)
  {
  }

  // ---- the snapshot of balances ----

  /** The operator signed this root over that many balances of this epoch. */
  ghost predicate SnapshotSigned(c: Crypto, p: Package, operatorKey: Bytes32) {
    && p.snapshot.epochId == p.configuration.epochId && p.snapshot.recordCount == |p.balances|
    && p.snapshot.operatorKey == operatorKey && p.snapshot.balanceRoot == p.preBalanceRoot
    && c.validKey(operatorKey) && c.sigOk(operatorKey, SnapshotMessage(p.snapshot), p.snapshot.signature)
    && BalanceRootSpec(c, p.balances) == Some(p.preBalanceRoot)
  }

  lemma SnapshotIff(c: Crypto, p: Package, operatorKey: Bytes32)
    ensures CheckSnapshot(c, p, operatorKey).None? <==> SnapshotSigned(c, p, operatorKey)
  {
  }

  /** What the operator signs determines epoch, count and root. */
  lemma SnapshotMessageInjective(s: Snapshot, t: Snapshot)
    requires SnapshotMessage(s) == SnapshotMessage(t)
    ensures s.epochId == t.epochId && s.recordCount == t.recordCount && s.balanceRoot == t.balanceRoot
  {
    var m := SnapshotMessage(s);
    assert Raw(s.epochId) == m[26..58] && Raw(t.epochId) == m[26..58];
    assert Le32(s.recordCount) == m[58..62] && Le32(t.recordCount) == m[58..62];
    assert Raw(s.balanceRoot) == m[62..94] && Raw(t.balanceRoot) == m[62..94];
  }

  // ---- the package ----

  ghost predicate TermsFit(p: Package, open: ConfirmedOpen) {
    var f := p.configuration;
    && p.epochAccount == open.epochAccount && f == open.configuration && p.lockNonce != ZERO
    && f.minimum >= 4 && f.lockThreshold == 2 && f.settlementThreshold == 2 && f.lockDeadline < f.abortDeadline
    && f.pool != ZERO && f.baseMint != ZERO && f.quoteMint != ZERO && f.baseMint != f.quoteMint
    && Distinct([ZERO, f.keypers.k0, f.keypers.k1, f.keypers.k2])
    && open.timestamp < f.lockDeadline
  }

  lemma FourDistinct(a: Bytes32, b: Bytes32, c: Bytes32, d: Bytes32)
    ensures Distinct([a, b, c, d]) <==> a != b && a != c && a != d && b != c && b != d && c != d
  {
    var s := [a, b, c, d];
    if Distinct(s) {
      assert s[0] != s[1] && s[0] != s[2] && s[0] != s[3] && s[1] != s[2] && s[1] != s[3] && s[2] != s[3];
    }
  }

  /** One balance for each member, reserving exactly what that member was granted and holding at least that. */
  ghost predicate Reserves(subs: seq<EncryptedSubmission>, balances: seq<BalanceRecord>) {
    && |balances| == |subs|
    && (forall i, j | 0 <= i < j < |balances| :: balances[i].participant != balances[j].participant)
    && forall s | s in subs :: exists b | b in balances ::
         && b.participant == s.auth.participant && b.reservedBase == s.auth.base && b.reservedQuote == s.auth.quote
         && b.base >= s.auth.base && b.quote >= s.auth.quote
  }

  lemma ReservesIff(subs: seq<EncryptedSubmission>, balances: seq<BalanceRecord>)
    ensures BalancesFit(subs, balances) <==> Reserves(subs, balances)
  {
    if BalancesFit(subs, balances) {
      forall s | s in subs ensures exists b | b in balances ::
        && b.participant == s.auth.participant && b.reservedBase == s.auth.base && b.reservedQuote == s.auth.quote
        && b.base >= s.auth.base && b.quote >= s.auth.quote
      {
        var b :| b in balances && b.participant == s.auth.participant && Covers(b, s);
      }
    }
    if Reserves(subs, balances) {
      forall s | s in subs ensures exists b | b in balances :: b.participant == s.auth.participant && Covers(b, s) {
        var b :| b in balances && b.participant == s.auth.participant && b.reservedBase == s.auth.base
                 && b.reservedQuote == s.auth.quote && b.base >= s.auth.base && b.quote >= s.auth.quote;
        assert Covers(b, s);
      }
    }
  }

  /** All properly submitted, and no two alike. */
  ghost predicate SubmittedApart(c: Crypto, policy: Policy, subs: seq<EncryptedSubmission>) {
    && (forall i | 0 <= i < |subs| :: Submitted(c, policy, subs[i]))
    && (forall i, j | 0 <= i < j < |subs| :: Apart(subs[i], subs[j]))
  }

  /** Enough members and not too many, properly submitted, under the member root. */
  ghost predicate MembersInOrder(c: Crypto, p: Package, policy: Policy) {
    && p.memberCount == |p.submissions| && p.configuration.minimum <= |p.submissions| <= 64
    && SubmittedApart(c, policy, p.submissions) && MemberRootSpec(c, p.keys, p.submissions) == Some(p.memberRoot)
  }

  ghost predicate InOrder(c: Crypto, p: Package, open: ConfirmedOpen) {
    && TermsFit(p, open) && MembersInOrder(c, p, open.policy) && SnapshotSigned(c, p, open.policy.operatorKey)
    && Reserves(p.submissions, p.balances)
  }

  lemma MembersIff(c: Crypto, policy: Policy, subs: seq<EncryptedSubmission>)
    ensures CheckMembers(Checker(c, policy), subs, 0).None? <==> SubmittedApart(c, policy, subs)
  {
    CheckMembersMeaning(Checker(c, policy), subs);
    forall i | 0 <= i < |subs| ensures Checker(c, policy)(subs[i]) <==> Submitted(c, policy, subs[i]) {
      ValidIff(c, policy, subs[i]);
    }
  }

  lemma TermsIff(p: Package, open: ConfirmedOpen)
    ensures ConfigFits(p, open) && open.timestamp < p.configuration.lockDeadline <==> TermsFit(p, open)
  {
    var k := p.configuration.keypers;
    FourDistinct(ZERO, k.k0, k.k1, k.k2);
  }

  lemma ContentsSplit(c: Crypto, p: Package, policy: Policy)
    ensures CheckContents(c, p, policy).None? <==>
            && CheckMembers(Checker(c, policy), p.submissions, 0).None?
            && MemberRootSpec(c, p.keys, p.submissions) == Some(p.memberRoot)
            && CheckSnapshot(c, p, policy.operatorKey).None? && BalancesFit(p.submissions, p.balances)
  {
  }

  lemma ContentsIff(c: Crypto, p: Package, policy: Policy)
    requires p.memberCount == |p.submissions| && p.configuration.minimum <= |p.submissions| <= 64
    ensures CheckContents(c, p, policy).None? <==>
            && MembersInOrder(c, p, policy) && SnapshotSigned(c, p, policy.operatorKey)
               && Reserves(p.submissions, p.balances)
  {
    ContentsSplit(c, p, policy);
    MembersIff(c, policy, p.submissions);
    SnapshotIff(c, p, policy.operatorKey);
    ReservesIff(p.submissions, p.balances);
  }

  /** A package is accepted if and only if it is in order, and then under its own lock digest. */
  lemma ValidateIff(c: Crypto, p: Package, open: ConfirmedOpen)
    ensures ValidateSpec(c, p, open).Ok? <==> InOrder(c, p, open)
    ensures ValidateSpec(c, p, open).Ok? ==> ValidateSpec(c, p, open).value == LockDigest(c.sha, PayloadOf(c, p))
  {
    TermsIff(p, open);
    if p.memberCount == |p.submissions| && p.configuration.minimum <= |p.submissions| <= 64 {
      ContentsIff(c, p, open.policy);
    }
  }

  // ---- against a confirmed lock ----

  /** The open epoch a confirmed lock stands for, checked one second before its lock deadline. */
  ghost predicate StandsFor(confirmed: ConfirmedLock, pool: PoolState, open: ConfirmedOpen) {
    var e := confirmed.state;
    && open.epochAccount == confirmed.epochAccount && open.configuration == HostConfiguration(e, pool)
       && open.slot == confirmed.slot
    && open.policy == Policy(e.epochId, pool.operator, e.minimum, pool.baseLot, e.quotePerLot, confirmed.slot)
    && open.timestamp == if e.lockDeadline > I64_MIN then e.lockDeadline - 1 else I64_MIN
  }

  lemma ReopenedIff(c: Crypto, confirmed: ConfirmedLock, open: ConfirmedOpen)
    ensures Reopened(c, confirmed) == Some(open) <==>
            && confirmed.pool.Some? && c.validKey(confirmed.pool.value.operator)
            && confirmed.state.minimum > 0 && confirmed.pool.value.baseLot > 0 && confirmed.state.quotePerLot > 0
            && StandsFor(confirmed, confirmed.pool.value, open)
  {
  }

  lemma LockedSplit(c: Crypto, p: Package, confirmed: ConfirmedLock, open: ConfirmedOpen)
    requires Reopened(c, confirmed) == Some(open)
    ensures ValidateLockedSpec(c, p, confirmed).Ok? <==>
            && ValidateSpec(c, p, open).Ok? && ValidateSpec(c, p, open).value == confirmed.state.lockDigest
            && p.preBalanceRoot == confirmed.state.preBalanceRoot && p.memberRoot == confirmed.state.memberRoot
            && p.memberCount == confirmed.state.memberCount
    ensures ValidateLockedSpec(c, p, confirmed).Ok?
            ==> ValidateLockedSpec(c, p, confirmed).value == ValidateSpec(c, p, open).value
  {
  }

  /** The recorded fields are this package's. */
  ghost predicate Records(c: Crypto, p: Package, e: EpochState) {
    && LockDigest(c.sha, PayloadOf(c, p)) == e.lockDigest && p.preBalanceRoot == e.preBalanceRoot
    && p.memberRoot == e.memberRoot && p.memberCount == e.memberCount
  }

  lemma AgainstReopened(c: Crypto, p: Package, confirmed: ConfirmedLock, open: ConfirmedOpen)
    requires Reopened(c, confirmed) == Some(open)
    ensures ValidateLockedSpec(c, p, confirmed).Ok? <==> InOrder(c, p, open) && Records(c, p, confirmed.state)
    ensures ValidateLockedSpec(c, p, confirmed).Ok?
            ==> ValidateLockedSpec(c, p, confirmed).value == confirmed.state.lockDigest
  {
    LockedSplit(c, p, confirmed, open);
    ValidateIff(c, p, open);
  }

  /** A package is accepted against a confirmed lock if and only if it is in order for the epoch the lock stands
      for, and its digest, both roots and its member count are the ones the chain recorded. */
  lemma ValidateLockedIff(c: Crypto, p: Package, confirmed: ConfirmedLock)
    ensures ValidateLockedSpec(c, p, confirmed).Ok? <==>
            && confirmed.pool.Some? && c.validKey(confirmed.pool.value.operator)
            && confirmed.state.minimum > 0 && confirmed.pool.value.baseLot > 0 && confirmed.state.quotePerLot > 0
            && (exists open :: StandsFor(confirmed, confirmed.pool.value, open) && InOrder(c, p, open))
            && Records(c, p, confirmed.state)
    ensures ValidateLockedSpec(c, p, confirmed).Ok?
            ==> ValidateLockedSpec(c, p, confirmed).value == confirmed.state.lockDigest
  {
    forall open
      ensures Reopened(c, confirmed) == Some(open) <==>
              && confirmed.pool.Some? && c.validKey(confirmed.pool.value.operator)
              && confirmed.state.minimum > 0 && confirmed.pool.value.baseLot > 0 && confirmed.state.quotePerLot > 0
              && StandsFor(confirmed, confirmed.pool.value, open)
    {
      ReopenedIff(c, confirmed, open);
    }
    if Reopened(c, confirmed).Some? { AgainstReopened(c, p, confirmed, Reopened(c, confirmed).value); }
  }

  // ---- approving and releasing ----

  /** `key` is the configured key of keyper `index`. */
  predicate Configured(k: Keypers, index: nat, key: Bytes32) { index < 3 && key == [k.k0, k.k1, k.k2][index] }

  lemma ConfiguredIff(k: Keypers, index: nat, key: Bytes32)
    ensures KeyOf(k, index) == Some(key) <==> Configured(k, index, key)
  {
  }

  /** A lock is approved if and only if this is the configured keyper with its own secret and the package is in
      order. */
  lemma ApproveIff(c: Crypto, index: nat, key: Bytes32, p: Package, open: ConfirmedOpen, secretFits: bool)
    ensures ApproveSpec(c, index, key, p, open, secretFits).Ok? <==>
            Configured(open.configuration.keypers, index, key) && secretFits && InOrder(c, p, open)
  {
    ValidateIff(c, p, open);
    ConfiguredIff(open.configuration.keypers, index, key);
  }

  /** And this is what is signed then. */
  lemma ApprovedPayload(c: Crypto, index: nat, key: Bytes32, p: Package, open: ConfirmedOpen, secretFits: bool)
    requires ApproveSpec(c, index, key, p, open, secretFits).Ok?
    ensures ApproveSpec(c, index, key, p, open, secretFits).value == LockPayload(
              p.epochAccount, ConfigDigest(c.sha, p.configuration), p.preBalanceRoot, p.memberRoot, p.memberCount,
              p.configuration.lockDeadline, p.lockNonce)
  {
  }

  ghost predicate CiphersApart(c: Crypto, subs: seq<EncryptedSubmission>) {
    forall i, j | 0 <= i < j < |subs| :: c.sha(subs[i].ciphertext) != c.sha(subs[j].ciphertext)
  }

  lemma CiphersIff(c: Crypto, subs: seq<EncryptedSubmission>)
    ensures Distinct(Map(subs, CipherHash(c))) <==> CiphersApart(c, subs)
  {
    var hs := Map(subs, CipherHash(c));
    forall i | 0 <= i < |subs| ensures hs[i] == c.sha(subs[i].ciphertext) {
    }
  }

  lemma ShareIff(c: Crypto, subs: seq<EncryptedSubmission>, member: nat)
    ensures ShareOf(c, subs, member).Ok? <==> member < |subs| && CiphersApart(c, subs)
    ensures ShareOf(c, subs, member).Ok?
            ==> member < |subs| && ShareOf(c, subs, member).value == subs[member].ciphertext
  {
    CiphersIff(c, subs);
  }

  lemma AcceptedDigest(c: Crypto, p: Package, confirmed: ConfirmedLock)
    requires ValidateLockedSpec(c, p, confirmed).Ok?
    ensures ValidateLockedSpec(c, p, confirmed).value == confirmed.state.lockDigest && confirmed.pool.Some?
  {
    ValidateLockedMeans(c, p, confirmed);
  }

  /** A share goes out if and only if the package is accepted against the confirmed lock, this is the configured keyper
      with its own secret, it had journaled that very digest, and all ciphertexts differ; and it is a share of the
      ciphertext of the member asked for. */
  lemma ReleaseIff(c: Crypto, index: nat, key: Bytes32, known: Digests, p: Package, confirmed: ConfirmedLock,
                   secretFits: bool, member: nat)
    ensures var r := ReleaseSpec(c, index, key, known, p, confirmed, secretFits, member);
            && (r.Ok? <==>
                && ValidateLockedSpec(c, p, confirmed).Ok? && confirmed.pool.Some?
                && Configured(confirmed.pool.value.keypers, index, key) && secretFits
                && p.epochAccount in known && known[p.epochAccount] == confirmed.state.lockDigest
                && member < |p.submissions| && CiphersApart(c, p.submissions))
            && (r.Ok? ==> member < |p.submissions| && r.value == p.submissions[member].ciphertext)
  {
    if ValidateLockedSpec(c, p, confirmed).Ok? { AcceptedDigest(c, p, confirmed); }
    if confirmed.pool.Some? { ConfiguredIff(confirmed.pool.value.keypers, index, key); }
    ShareIff(c, p.submissions, member);
  }

  /** A journal opens if and only if marker and journal are both there or both missing; it then holds what was
      journaled, or nothing, and both are there. */
  lemma OpenIff(files: Files)
    ensures OpenSpec(files).Ok? <==> files.marker == files.journal.Some?
    ensures OpenSpec(files).Ok?
            ==> && OpenSpec(files).value.0 == Files(true, Some(OpenSpec(files).value.1))
                && OpenSpec(files).value.1 == if files.journal.Some? then files.journal.value else map[]
  {
  }

  /** The journal takes a digest if and only if it exists and holds that digest for the epoch, or none yet and has
      room. */
  lemma RecordIff(files: Files, epoch: Bytes32, digest: Bytes32)
    ensures RecordSpec(files, epoch, digest).Ok? <==>
            files.journal.Some? && (if epoch in files.journal.value then files.journal.value[epoch] == digest
                                    else |files.journal.value| < U32_MAX)
    ensures RecordSpec(files, epoch, digest).Ok?
            ==> RecordSpec(files, epoch, digest).value == files.journal.value[epoch := digest]
  {
  }
}
