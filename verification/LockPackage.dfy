/** The package a keyper checks before it approves a lock, and again before it helps to open one. */
module LockPackage {
  import opened Bytes
  import opened Order
  import opened Layout
  import opened Wire
  import opened ChainState
  import opened HostChain
  import opened Submission
  import opened Admission
  import opened Commitment

  datatype BalanceRecord = BalanceRecord(participant: Bytes32, base: u64, quote: u64, reservedBase: u64,
                                         reservedQuote: u64)
  datatype Snapshot = Snapshot(epochId: Bytes32, recordCount: u32, balanceRoot: Bytes32, operatorKey: Bytes32,
                               signature: Signature)

  datatype Package = Package(
    epochAccount: Bytes32, configuration: EpochConfiguration, keys: seq<byte>, submissions: seq<EncryptedSubmission>,
    balances: seq<BalanceRecord>, snapshot: Snapshot, preBalanceRoot: Bytes32, memberRoot: Bytes32, memberCount: u32,
    lockNonce: Bytes32)

  datatype LockError =
    | InvalidBalance
    | InvalidSnapshot | InvalidConfiguration | InvalidSubmission | DuplicateParticipant | DuplicateAuthorization
    | DuplicateReceipt
    | MemberCountMismatch | MemberLimitExceeded | CrowdBelowMinimum | MemberRootMismatch | DeadlinePassed
    | WrongKeyper | ConflictingLock | CorruptJournal | InvalidOnchainLock

  const MAX_BATCH_MEMBERS := 64
  // "KAGEB_BALANCE_SNAPSHOT_V1\0"
  const SNAPSHOT_DOMAIN: seq<byte> := [75, 65, 71, 69, 66, 95, 66, 65, 76, 65, 78, 67, 69, 95, 83, 78, 65, 80, 83, 72,
                                       79, 84, 95, 86, 49, 0]

  /** `BalanceRecordV1::new` accepts it. */
  predicate GoodBalance(b: BalanceRecord) {
    b.participant != ZERO && b.reservedBase != 0 && b.reservedQuote != 0 && b.base >= b.reservedBase
      && b.quote >= b.reservedQuote
  }

  function BalanceFields(b: BalanceRecord): seq<Field> {
    [Word(b.participant), U64(b.base), U64(b.quote), U64(b.reservedBase), U64(b.reservedQuote)]
  }

  function BalanceBytes(b: BalanceRecord): seq<byte> { PutAll(BalanceFields(b)) }

  lemma BalanceLength(b: BalanceRecord)
    ensures |BalanceBytes(b)| == 64
  {
    SizeFive(KWord, KU64, KU64, KU64, KU64, []);
    assert KindsOf(BalanceFields(b)) == [KWord, KU64, KU64, KU64, KU64] + [];
    PutSize(BalanceFields(b));
  }

  lemma BalanceInjective(a: BalanceRecord, b: BalanceRecord)
    requires BalanceBytes(a) == BalanceBytes(b)
    ensures a == b
  {
    assert KindsOf(BalanceFields(a)) == KindsOf(BalanceFields(b));
    PutAllInjective(BalanceFields(a), BalanceFields(b));
    var f, g := BalanceFields(a), BalanceFields(b);
    assert f[0] == g[0] && f[1] == g[1] && f[2] == g[2] && f[3] == g[3] && f[4] == g[4];
  }

  // ---- roots ----

  function Leaf(c: Crypto): EncryptedSubmission -> seq<byte> { s => SubmissionLeaf(c, s) }
  const BALANCE_LEAF: BalanceRecord -> seq<byte> := b => BalanceBytes(b)

  function MemberLeaves(c: Crypto, keys: seq<byte>, subs: seq<EncryptedSubmission>): seq<seq<byte>> {
    [KeysLeaf(keys)] + Map(subs, Leaf(c))
  }

  ghost function MemberRootSpec(c: Crypto, keys: seq<byte>, subs: seq<EncryptedSubmission>): Option<Bytes32> {
    var r := ContentRootSpec(c.sha, MemberSet, MemberLeaves(c, keys, subs));
    if r.Ok? then Some(r.value) else None
  }

  ghost function BalanceRootSpec(c: Crypto, balances: seq<BalanceRecord>): Option<Bytes32> {
    var r := ContentRootSpec(c.sha, BalanceSet, Map(balances, BALANCE_LEAF));
    if r.Ok? then Some(r.value) else None
  }

  function PayloadOf(c: Crypto, p: Package): LockPayload {
    LockPayload(p.epochAccount, ConfigDigest(c.sha, p.configuration), p.preBalanceRoot, p.memberRoot, p.memberCount,
                p.configuration.lockDeadline, p.lockNonce)
  }

  function PackageDigest(c: Crypto, p: Package): Bytes32 { LockDigest(c.sha, PayloadOf(c, p)) }

  // ---- the checks, in order ----

  predicate ConfigFits(p: Package, open: ConfirmedOpen) {
    var f := p.configuration;
    && p.epochAccount == open.epochAccount && f == open.configuration && f.minimum >= 4 && f.lockThreshold == 2
       && f.settlementThreshold == 2
    && f.pool != ZERO && f.baseMint != ZERO && f.quoteMint != ZERO && f.baseMint != f.quoteMint
    && f.keypers.k0 != ZERO && f.keypers.k1 != ZERO && f.keypers.k2 != ZERO
    && f.keypers.k0 != f.keypers.k1 && f.keypers.k0 != f.keypers.k2 && f.keypers.k1 != f.keypers.k2
    && f.abortDeadline > f.lockDeadline && p.lockNonce != ZERO
  }

  function SizeCheck(p: Package, open: ConfirmedOpen): Option<LockError> {
    if !ConfigFits(p, open) then Some(InvalidConfiguration)
    else if open.timestamp >= p.configuration.lockDeadline then Some(DeadlinePassed)
    else if |p.submissions| > MAX_BATCH_MEMBERS || |p.balances| > MAX_BATCH_MEMBERS then Some(MemberLimitExceeded)
    else if p.memberCount != |p.submissions| then Some(MemberCountMismatch)
    else if p.memberCount < p.configuration.minimum then Some(CrowdBelowMinimum)
    else None
  }

  /** The uniqueness loop. */
  function CheckMembers(ok: Check, subs: seq<EncryptedSubmission>, i: nat): Option<LockError>
    requires i <= |subs|
    decreases |subs| - i
  {
    if i == |subs| then None
    else if !ok(subs[i]) then Some(InvalidSubmission)
    else if exists j | 0 <= j < i :: subs[j].auth.participant == subs[i].auth.participant
    then Some(DuplicateParticipant)
    else if exists j | 0 <= j < i :: subs[j].auth.nonce == subs[i].auth.nonce then Some(DuplicateAuthorization)
    else if exists j | 0 <= j < i :: subs[j].receipt == subs[i].receipt then Some(DuplicateReceipt)
    else CheckMembers(ok, subs, i + 1)
  }

  function SnapshotMessage(s: Snapshot): seq<byte> {
    SNAPSHOT_DOMAIN + Raw(s.epochId) + Le32(s.recordCount) + Raw(s.balanceRoot)
  }

  /** `SignedBalanceSnapshotV1::verify` followed by the comparison with the package's own root. */
  ghost function CheckSnapshot(c: Crypto, p: Package, operatorKey: Bytes32): Option<LockError> {
    var s, root := p.snapshot, BalanceRootSpec(c, p.balances);
    if s.epochId != p.configuration.epochId || s.recordCount != |p.balances| || s.operatorKey != operatorKey
    then Some(InvalidSnapshot)
    else if root.None? then Some(InvalidBalance)
    else if s.balanceRoot != root.value then Some(InvalidSnapshot)
    else if !c.validKey(s.operatorKey) || !c.sigOk(s.operatorKey, SnapshotMessage(s), s.signature)
    then Some(InvalidSnapshot)
    else if root.value != p.preBalanceRoot then Some(InvalidBalance)
    else None
  }

  predicate Covers(b: BalanceRecord, s: EncryptedSubmission) {
    b.reservedBase == s.auth.base && b.reservedQuote == s.auth.quote && b.base >= b.reservedBase
      && b.quote >= b.reservedQuote
  }

  /** One balance per participant, and for every submission one that covers it. */
  ghost predicate BalancesFit(subs: seq<EncryptedSubmission>, balances: seq<BalanceRecord>) {
    && |balances| == |subs|
    && (forall i, j | 0 <= i < j < |balances| :: balances[i].participant != balances[j].participant)
    && (forall s | s in subs :: exists b | b in balances :: b.participant == s.auth.participant && Covers(b, s))
  }

  /** The member and balance checks after the sizes. */
  ghost function CheckContents(c: Crypto, p: Package, policy: Policy): Option<LockError> {
    var members := CheckMembers(Checker(c, policy), p.submissions, 0);
    if members.Some? then members
    else
      var root := MemberRootSpec(c, p.keys, p.submissions);
      if root.None? then Some(InvalidSubmission)
      else if root.value != p.memberRoot then Some(MemberRootMismatch)
      else
        var snapshot := CheckSnapshot(c, p, policy.operatorKey);
        if snapshot.Some? then snapshot
        else if !BalancesFit(p.submissions, p.balances) then Some(InvalidBalance)
        else None
  }

  ghost function ValidateSpec(c: Crypto, p: Package, open: ConfirmedOpen): Result<Bytes32, LockError> {
    var size := SizeCheck(p, open);
    if size.Some? then Err(size.value)
    else
      var contents := CheckContents(c, p, open.policy);
      if contents.Some? then Err(contents.value) else Ok(PackageDigest(c, p))
  }

  /** The configuration and policy `validate_locked` rebuilds from a confirmed lock. */
  function Reopened(c: Crypto, confirmed: ConfirmedLock): Option<ConfirmedOpen> {
    if confirmed.pool.None? || !c.validKey(confirmed.pool.value.operator) then None
    else
      var e, pool := confirmed.state, confirmed.pool.value;
      match NewPolicy(e.epochId, pool.operator, e.minimum, pool.baseLot, e.quotePerLot, confirmed.slot)
      case None => None
      case Some(policy) =>
        var timestamp := if e.lockDeadline == I64_MIN then I64_MIN else e.lockDeadline - 1;
        Some(ConfirmedOpen(confirmed.epochAccount, HostConfiguration(e, pool), policy, timestamp, confirmed.slot))
  }

  ghost function ValidateLockedSpec(c: Crypto, p: Package, confirmed: ConfirmedLock): Result<Bytes32, LockError> {
    match Reopened(c, confirmed)
    case None => Err(InvalidOnchainLock)
    case Some(open) =>
      var r, e := ValidateSpec(c, p, open), confirmed.state;
      if r.Err? then r
      else if r.value != e.lockDigest || p.preBalanceRoot != e.preBalanceRoot || p.memberRoot != e.memberRoot
          || p.memberCount != e.memberCount
      then Err(InvalidOnchainLock)
      else r
  }

  // ---- what the checks mean ----

  ghost predicate FreshAt(ok: Check, subs: seq<EncryptedSubmission>, k: nat)
    requires k < |subs|
  {
    ok(subs[k]) && forall j | 0 <= j < k :: Apart(subs[j], subs[k])
  }

  lemma {:induction false} CheckMembersFrom(ok: Check, subs: seq<EncryptedSubmission>, i: nat)
    requires i <= |subs|
    ensures CheckMembers(ok, subs, i).None? <==> forall k | i <= k < |subs| :: FreshAt(ok, subs, k)
    decreases |subs| - i
  {
    if i < |subs| {
      CheckMembersFrom(ok, subs, i + 1);
      assert FreshAt(ok, subs, i) <==>
             ok(subs[i]) && !(exists j | 0 <= j < i :: subs[j].auth.participant == subs[i].auth.participant)
             && !(exists j | 0 <= j < i :: subs[j].auth.nonce == subs[i].auth.nonce)
             && !(exists j | 0 <= j < i :: subs[j].receipt == subs[i].receipt);
    }
  }

  /** The uniqueness loop accepts exactly valid submissions with distinct participants, nonces and receipts. */
  lemma CheckMembersMeaning(ok: Check, subs: seq<EncryptedSubmission>)
    ensures CheckMembers(ok, subs, 0).None? <==> AllValid(ok, subs) && AllApart(subs)
  {
    CheckMembersFrom(ok, subs, 0);
    if CheckMembers(ok, subs, 0).None? {
      forall i, j | 0 <= i < j < |subs| ensures Apart(subs[i], subs[j]) { assert FreshAt(ok, subs, j); }
      forall i | 0 <= i < |subs| ensures ok(subs[i]) { assert FreshAt(ok, subs, i); }
    }
  }

  /** Admitted members always pass the uniqueness loop under the same policy. */
  lemma AdmittedPassUniqueness(ok: Check, minimum: nat, subs: seq<EncryptedSubmission>)
    requires AdmitSpec(ok, minimum, subs).Ok?
    ensures CheckMembers(ok, AdmitSpec(ok, minimum, subs).value, 0).None?
  {
    MembersApart(ok, subs);
    CheckMembersMeaning(ok, Members(Fold(ok, subs).valid));
  }

  // ---- the loops ----

  method CheckUnique(ok: Check, subs: seq<EncryptedSubmission>) returns (r: Option<LockError>)
    ensures r == CheckMembers(ok, subs, 0)
  {
    var participants: set<Bytes32>, nonces: set<Bytes32>, receipts: set<Bytes32> := {}, {}, {};
    for i := 0 to |subs|
      invariant CheckMembers(ok, subs, 0) == CheckMembers(ok, subs, i)
      invariant forall x :: x in participants <==> exists j | 0 <= j < i :: subs[j].auth.participant == x
      invariant forall x :: x in nonces <==> exists j | 0 <= j < i :: subs[j].auth.nonce == x
      invariant forall x :: x in receipts <==> exists j | 0 <= j < i :: subs[j].receipt == x
    {
      var s := subs[i];
      if !ok(s) { return Some(InvalidSubmission); }
      if s.auth.participant in participants { return Some(DuplicateParticipant); }
      if s.auth.nonce in nonces { return Some(DuplicateAuthorization); }
      if s.receipt in receipts { return Some(DuplicateReceipt); }
      participants, nonces, receipts := participants + {s.auth.participant}, nonces + {s.auth.nonce},
        receipts + {s.receipt};
    }
    return None;
  }

  ghost predicate OnePerParticipant(balances: seq<BalanceRecord>) {
    forall i, j | 0 <= i < j < |balances| :: balances[i].participant != balances[j].participant
  }

  ghost predicate Indexed(m: map<Bytes32, BalanceRecord>, balances: seq<BalanceRecord>) {
    && (forall p | p in m :: m[p] in balances && m[p].participant == p)
    && (forall b | b in balances :: b.participant in m)
  }

  /** Collecting balances by participant: a repeated participant shows in the size. */
  ghost predicate IndexOf(m: map<Bytes32, BalanceRecord>, balances: seq<BalanceRecord>) {
    Indexed(m, balances) && |m| <= |balances| && (|m| == |balances| <==> OnePerParticipant(balances))
  }

  method IndexBalances(balances: seq<BalanceRecord>) returns (m: map<Bytes32, BalanceRecord>)
    ensures IndexOf(m, balances)
  {
    m := map[];
    for i := 0 to |balances|
      invariant IndexOf(m, balances[..i])
    {
      var b := balances[i];
      ghost var done := balances[..i];
      IndexGrows(m, done, b);
      assert balances[..i + 1] == done + [b];
      m := m[b.participant := b];
    }
    assert balances[..|balances|] == balances;
  }

  lemma IndexedGrows(m: map<Bytes32, BalanceRecord>, balances: seq<BalanceRecord>, b: BalanceRecord)
    requires Indexed(m, balances)
    ensures Indexed(m[b.participant := b], balances + [b])
  {
    var next, all := m[b.participant := b], balances + [b];
    forall p | p in next ensures next[p] in all && next[p].participant == p {
      if p != b.participant { assert next[p] == m[p] && m[p] in balances; }
    }
  }

  lemma OneGrows(m: map<Bytes32, BalanceRecord>, balances: seq<BalanceRecord>, b: BalanceRecord)
    requires Indexed(m, balances)
    ensures OnePerParticipant(balances + [b]) <==> OnePerParticipant(balances) && b.participant !in m
  {
    var all := balances + [b];
    if b.participant in m {
      var i :| 0 <= i < |balances| && balances[i] == m[b.participant];
      assert all[i].participant == all[|balances|].participant;
    } else {
      forall i | 0 <= i < |balances| ensures balances[i].participant != b.participant {
        assert balances[i] in balances;
      }
    }
    forall i, j | 0 <= i < j < |balances| ensures all[i] == balances[i] && all[j] == balances[j] {
    }
  }

  lemma IndexGrows(m: map<Bytes32, BalanceRecord>, balances: seq<BalanceRecord>, b: BalanceRecord)
    requires IndexOf(m, balances)
    ensures IndexOf(m[b.participant := b], balances + [b])
  {
    IndexedGrows(m, balances, b);
    OneGrows(m, balances, b);
    var next := m[b.participant := b];
    assert next.Keys == m.Keys + {b.participant};
    assert |next| == |next.Keys| && |m| == |m.Keys|;
    if b.participant in m { assert next.Keys == m.Keys; }
  }

  lemma LookupIsUnique(m: map<Bytes32, BalanceRecord>, balances: seq<BalanceRecord>, s: EncryptedSubmission)
    requires Indexed(m, balances) && OnePerParticipant(balances)
    ensures (exists b | b in balances :: b.participant == s.auth.participant && Covers(b, s)) <==>
            s.auth.participant in m && Covers(m[s.auth.participant], s)
  {
    var p := s.auth.participant;
    if p in m && Covers(m[p], s) { assert m[p] in balances; }
    forall b | b in balances && b.participant == p ensures p in m && m[p] == b {
      var i :| 0 <= i < |balances| && balances[i] == b;
      var j :| 0 <= j < |balances| && balances[j] == m[p];
    }
  }

  method CheckBalances(subs: seq<EncryptedSubmission>, balances: seq<BalanceRecord>) returns (ok: bool)
    ensures ok == BalancesFit(subs, balances)
  {
    if |balances| != |subs| { return false; }
    var m := IndexBalances(balances);
    if |m| != |balances| { return false; }
    for i := 0 to |subs|
      invariant forall j | 0 <= j < i :: exists b | b in balances :: b.participant == subs[j].auth.participant
                                                                     && Covers(b, subs[j])
    {
      var s := subs[i];
      LookupIsUnique(m, balances, s);
      if s.auth.participant !in m || !Covers(m[s.auth.participant], s) { return false; }
    }
    return true;
  }

  method MemberRoot(c: Crypto, keys: seq<byte>, subs: seq<EncryptedSubmission>) returns (r: Option<Bytes32>)
    ensures r == MemberRootSpec(c, keys, subs)
  {
    var root := ContentRoot(c.sha, MemberSet, MemberLeaves(c, keys, subs));
    return if root.Ok? then Some(root.value) else None;
  }

  method BalanceRoot(c: Crypto, balances: seq<BalanceRecord>) returns (r: Option<Bytes32>)
    ensures r == BalanceRootSpec(c, balances)
  {
    var root := ContentRoot(c.sha, BalanceSet, Map(balances, BALANCE_LEAF));
    return if root.Ok? then Some(root.value) else None;
  }

  method VerifySnapshot(c: Crypto, p: Package, operatorKey: Bytes32) returns (r: Option<LockError>)
    ensures r == CheckSnapshot(c, p, operatorKey)
  {
    var s := p.snapshot;
    if s.epochId != p.configuration.epochId || s.recordCount != |p.balances| || s.operatorKey != operatorKey {
      return Some(InvalidSnapshot);
    }
    var root := BalanceRoot(c, p.balances);
    if root.None? { return Some(InvalidBalance); }
    if s.balanceRoot != root.value { return Some(InvalidSnapshot); }
    if !c.validKey(s.operatorKey) || !c.sigOk(s.operatorKey, SnapshotMessage(s), s.signature) {
      return Some(InvalidSnapshot);
    }
    if root.value != p.preBalanceRoot { return Some(InvalidBalance); }
    return None;
  }

  /** `LockPackageV1::validate`. */
  method Validate(c: Crypto, p: Package, open: ConfirmedOpen) returns (r: Result<Bytes32, LockError>)
    ensures r == ValidateSpec(c, p, open)
  {
    var size := SizeCheck(p, open);
    if size.Some? { return Err(size.value); }
    var members := CheckUnique(Checker(c, open.policy), p.submissions);
    if members.Some? { return Err(members.value); }
    var root := MemberRoot(c, p.keys, p.submissions);
    if root.None? { return Err(InvalidSubmission); }
    if root.value != p.memberRoot { return Err(MemberRootMismatch); }
    var snapshot := VerifySnapshot(c, p, open.policy.operatorKey);
    if snapshot.Some? { return Err(snapshot.value); }
    var covered := CheckBalances(p.submissions, p.balances);
    if !covered { return Err(InvalidBalance); }
    return Ok(PackageDigest(c, p));
  }

  // ---- what a validated package is ----

  ghost function Participants(subs: seq<EncryptedSubmission>): set<Bytes32> { set s | s in subs :: s.auth.participant }
  ghost function Holders(balances: seq<BalanceRecord>): set<Bytes32> { set b | b in balances :: b.participant }

  /** As many members as balances, and every member has one: then the balances are exactly the members'. */
  lemma HoldersAreMembers(subs: seq<EncryptedSubmission>, balances: seq<BalanceRecord>)
    requires AllApart(subs) && BalancesFit(subs, balances)
    ensures Holders(balances) == Participants(subs) && |Holders(balances)| == |subs|
  {
    var x, y := Participants(subs), Holders(balances);
    CountDistinct(Map(subs, PARTICIPANT));
    CountDistinct(Map(balances, HOLDER));
    SetOfMap(subs, PARTICIPANT);
    SetOfMap(balances, HOLDER);
    assert x == (set v | v in Map(subs, PARTICIPANT)) && y == (set v | v in Map(balances, HOLDER));
    assert x <= y;
    SubsetEqual(x, y);
  }

  const HOLDER: BalanceRecord -> Bytes32 := (b: BalanceRecord) => b.participant

  /** What an accepted package is: enough members, all valid, no two alike, with exactly their balances, under its
      roots. */
  ghost predicate ContentsFit(c: Crypto, p: Package, policy: Policy) {
    && AllValid(Checker(c, policy), p.submissions) && AllApart(p.submissions) && BalancesFit(p.submissions, p.balances)
    && MemberRootSpec(c, p.keys, p.submissions) == Some(p.memberRoot)
       && BalanceRootSpec(c, p.balances) == Some(p.preBalanceRoot)
  }

  ghost predicate SizesFit(p: Package, open: ConfirmedOpen) {
    && ConfigFits(p, open)
    && |p.submissions| == p.memberCount && p.memberCount >= p.configuration.minimum
       && |p.submissions| <= MAX_BATCH_MEMBERS
  }

  /** The checks of `validate` passed. */
  ghost predicate Accepted(c: Crypto, p: Package, open: ConfirmedOpen) {
    SizesFit(p, open) && CheckContents(c, p, open.policy).None?
  }

  lemma SnapshotRoot(c: Crypto, p: Package, operatorKey: Bytes32)
    requires CheckSnapshot(c, p, operatorKey).None?
    ensures BalanceRootSpec(c, p.balances) == Some(p.preBalanceRoot)
  {
  }

  lemma ContentsMean(c: Crypto, p: Package, policy: Policy)
    requires CheckContents(c, p, policy).None?
    ensures ContentsFit(c, p, policy)
  {
    CheckMembersMeaning(Checker(c, policy), p.submissions);
    SnapshotRoot(c, p, policy.operatorKey);
  }

  lemma ValidateMeans(c: Crypto, p: Package, open: ConfirmedOpen)
    requires ValidateSpec(c, p, open).Ok?
    ensures Accepted(c, p, open) && ValidateSpec(c, p, open).value == PackageDigest(c, p)
  {
  }

  lemma MemberValid(c: Crypto, policy: Policy, subs: seq<EncryptedSubmission>, s: EncryptedSubmission)
    requires AllValid(Checker(c, policy), subs) && s in subs
    ensures ValidSubmission(c, policy, s)
  {
    var i :| 0 <= i < |subs| && subs[i] == s;
    assert Checker(c, policy)(subs[i]);
  }

  /** A package accepted against a confirmed lock is the one whose digest the chain recorded. */
  lemma ValidateLockedMeans(c: Crypto, p: Package, confirmed: ConfirmedLock)
    requires ValidateLockedSpec(c, p, confirmed).Ok?
    ensures Reopened(c, confirmed).Some? && Accepted(c, p, Reopened(c, confirmed).value)
    ensures ValidateLockedSpec(c, p, confirmed).value == PackageDigest(c, p) == confirmed.state.lockDigest
    ensures p.memberRoot == confirmed.state.memberRoot && p.preBalanceRoot == confirmed.state.preBalanceRoot
    ensures p.memberCount == confirmed.state.memberCount
  {
    ValidateMeans(c, p, Reopened(c, confirmed).value);
  }

  method ValidateLocked(c: Crypto, p: Package, confirmed: ConfirmedLock) returns (r: Result<Bytes32, LockError>)
    ensures r == ValidateLockedSpec(c, p, confirmed)
  {
    var open := Reopened(c, confirmed);
    if open.None? { return Err(InvalidOnchainLock); }
    r := Validate(c, p, open.value);
    if r.Err? { return; }
    var e := confirmed.state;
    if r.value != e.lockDigest || p.preBalanceRoot != e.preBalanceRoot || p.memberRoot != e.memberRoot
        || p.memberCount != e.memberCount {
      return Err(InvalidOnchainLock);
    }
  }
}
