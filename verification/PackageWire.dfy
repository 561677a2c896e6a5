/** The lock package on the wire. */
module PackageWire {
  import opened Bytes
  import opened Order
  import opened Layout
  import opened Wire
  import opened Submission
  import opened LockPackage

  const MAX_KEYS_LEN := 1024

  // ---- pieces ----

  const PUT_SUBMISSION: EncryptedSubmission -> seq<byte> := (s: EncryptedSubmission) => SubmissionBytes(s)

  function GetSubmission(c: Crypto): seq<byte> -> Option<EncryptedSubmission> { s => DecodeSubmission(c, s) }

  const BALANCE_KINDS := [KWord, KU64, KU64, KU64, KU64]

  lemma BalanceKindsSize()
    ensures Size(BALANCE_KINDS) == 64
  {
    SizeFive(KWord, KU64, KU64, KU64, KU64, []);
    assert BALANCE_KINDS == [KWord, KU64, KU64, KU64, KU64] + [];
  }

  /** `BalanceRecordV1::decode`, which refuses what `new` refuses. */
  function DecodeBalance(s: seq<byte>): Option<BalanceRecord> {
    if |s| != 64 then None
    else
      BalanceKindsSize();
      var f := TakeAll(BALANCE_KINDS, s);
      var b := BalanceRecord(W(f[0]), N64(f[1]), N64(f[2]), N64(f[3]), N64(f[4]));
      if GoodBalance(b) then Some(b) else None
  }

  const GET_BALANCE_RECORD: seq<byte> -> Option<BalanceRecord> := s => DecodeBalance(s)

  lemma BalanceRoundTrip(b: BalanceRecord)
    requires GoodBalance(b)
    ensures |BALANCE_LEAF(b)| == 64 && GET_BALANCE_RECORD(BALANCE_LEAF(b)) == Some(b)
  {
    BalanceLength(b);
    assert KindsOf(BalanceFields(b)) == BALANCE_KINDS;
    RoundTrip(BalanceFields(b), []);
    assert BalanceBytes(b) + [] == BalanceBytes(b);
  }

  /** What follows the balances: the snapshot, the two roots, the count and the nonce. */
  const TAIL_KINDS := [KWord, KU32, KWord, KWord, KWord, KWord, KWord, KWord, KU32, KWord]

  function TailFields(p: Package): (r: seq<Field>)
    ensures KindsOf(r) == TAIL_KINDS
  {
    [Word(p.snapshot.epochId), U32(p.snapshot.recordCount), Word(p.snapshot.balanceRoot), Word(p.snapshot.operatorKey),
     Word(p.snapshot.signature.r), Word(p.snapshot.signature.s), Word(p.preBalanceRoot), Word(p.memberRoot),
     U32(p.memberCount), Word(p.lockNonce)]
  }

  lemma TailSize()
    ensures Size(TAIL_KINDS) == 264
  {
    var b := [KWord, KWord, KWord, KU32, KWord];
    SizeFive(KWord, KWord, KWord, KU32, KWord, []);
    assert b + [] == b;
    SizeFive(KWord, KU32, KWord, KWord, KWord, b);
    assert TAIL_KINDS == [KWord, KU32, KWord, KWord, KWord] + b;
  }

  // ---- the package ----

  predicate Encodable(p: Package) {
    |p.submissions| <= MAX_BATCH_MEMBERS && |p.balances| <= MAX_BATCH_MEMBERS && |p.keys| <= MAX_KEYS_LEN
  }

  function BalancesPart(p: Package): seq<byte>
    requires Encodable(p)
  {
    Le32(|p.balances|) + EncodeAll(p.balances, BALANCE_LEAF) + PutAll(TailFields(p))
  }

  function MembersPart(p: Package): seq<byte>
    requires Encodable(p)
  {
    Le32(|p.submissions|) + EncodeAll(p.submissions, PUT_SUBMISSION) + BalancesPart(p)
  }

  function PackageHead(p: Package): seq<byte>
    requires Encodable(p)
  {
    [1] + Raw(p.epochAccount) + ConfigBytes(p.configuration) + Le32(|p.keys|)
  }

  function PackageBytes(p: Package): seq<byte>
    requires Encodable(p)
  {
    PackageHead(p) + (p.keys + MembersPart(p))
  }

  // ---- decoding: the cursor is what is left to read ----

  function DecodeTail(account: Bytes32, cfg: EpochConfiguration, keys: seq<byte>, subs: seq<EncryptedSubmission>,
                      balances: seq<BalanceRecord>, s: seq<byte>): Package
    requires |s| == 264
  {
    TailSize();
    var f := TakeAll(TAIL_KINDS, s);
    Package(account, cfg, keys, subs, balances,
      Snapshot(W(f[0]), N32(f[1]), W(f[2]), W(f[3]), Signature(W(f[4]), W(f[5]))),
            W(f[6]), W(f[7]), N32(f[8]), W(f[9]))
  }

  function BalancesFrom(account: Bytes32, cfg: EpochConfiguration, keys: seq<byte>, subs: seq<EncryptedSubmission>,
                        list: Option<seq<BalanceRecord>>, s: seq<byte>): Option<Package>
    requires |s| == 264
  {
    match list
    case None => None
    case Some(balances) => Some(DecodeTail(account, cfg, keys, subs, balances, s))
  }

  /** `n` balances and the rest. */
  function BalancesOf(account: Bytes32, cfg: EpochConfiguration, keys: seq<byte>, subs: seq<EncryptedSubmission>,
                      n: nat, s: seq<byte>): Option<Package> {
    if n > MAX_BATCH_MEMBERS || |s| != 64 * n + 264 then None
    else BalancesFrom(account, cfg, keys, subs, DecodeAll(s[..64 * n], 64, n, GET_BALANCE_RECORD), s[64 * n..])
  }

  function DecodeBalances(account: Bytes32, cfg: EpochConfiguration, keys: seq<byte>, subs: seq<EncryptedSubmission>,
                          s: seq<byte>): Option<Package>
    requires |s| >= 4
  {
    BalancesOf(account, cfg, keys, subs, ReadU32(s[..4]), s[4..])
  }

  function MembersFrom(account: Bytes32, cfg: EpochConfiguration, keys: seq<byte>,
                       list: Option<seq<EncryptedSubmission>>, s: seq<byte>): Option<Package>
    requires |s| >= 4
  {
    match list
    case None => None
    case Some(subs) => DecodeBalances(account, cfg, keys, subs, s)
  }

  /** `n` submissions and the rest. */
  function MembersOf(c: Crypto, account: Bytes32, cfg: EpochConfiguration, keys: seq<byte>, n: nat,
                     s: seq<byte>): Option<Package> {
    if n > MAX_BATCH_MEMBERS || |s| < 689 * n + 268 then None
    else MembersFrom(account, cfg, keys, DecodeAll(s[..689 * n], 689, n, GetSubmission(c)), s[689 * n..])
  }

  function DecodeMembers(c: Crypto, account: Bytes32, cfg: EpochConfiguration, keys: seq<byte>,
                         s: seq<byte>): Option<Package> {
    if |s| < 4 then None else MembersOf(c, account, cfg, keys, ReadU32(s[..4]), s[4..])
  }

  function DecodeKeys(c: Crypto, account: Bytes32, cfg: EpochConfiguration, n: nat, s: seq<byte>): Option<Package> {
    if n > MAX_KEYS_LEN || |s| < n || !c.keysOk(s[..n]) then None else DecodeMembers(c, account, cfg, s[..n], s[n..])
  }

  /** `LockPackageV1::decode_wire`. That this function is well formed for every `bytes` says that no slice leaves
      them. */
  function DecodePackage(c: Crypto, bytes: seq<byte>): Option<Package> {
    if |bytes| < 572 || bytes[0] != 1 then None
    else
      match DecodeConfig(bytes[33..296])
      case None => None
      case Some(cfg) => DecodeKeys(c, ReadBytes32(bytes[1..33]), cfg, ReadU32(bytes[296..300]), bytes[300..])
  }

  // ---- round trip ----

  /** What every package value made by its constructors satisfies. */
  ghost predicate WellTyped(c: Crypto, p: Package) {
    c.keysOk(p.keys) && forall b | b in p.balances :: GoodBalance(b)
  }

  lemma TailRoundTrip(p: Package, s: seq<byte>)
    requires s == PutAll(TailFields(p))
    ensures |s| == 264 && DecodeTail(p.epochAccount, p.configuration, p.keys, p.submissions, p.balances, s) == p
  {
    TailSize();
    PutSize(TailFields(p));
    RoundTrip(TailFields(p), []);
    assert s + [] == s;
  }

  lemma BalancesLength(p: Package)
    requires Encodable(p)
    ensures |EncodeAll(p.balances, BALANCE_LEAF)| == 64 * |p.balances|
  {
    forall b | b in p.balances ensures |BALANCE_LEAF(b)| == 64 { BalanceLength(b); }
    EncodeAllLength(p.balances, 64, BALANCE_LEAF);
  }

  lemma CutCount(a: seq<byte>, b: seq<byte>, c: seq<byte>)
    ensures var s := a + b + c;
            s[..|a|] == a && |s[|a|..]| == |b| + |c| && s[|a|..][..|b|] == b && s[|a|..][|b|..] == c
  {
    assert (a + b + c)[|a|..] == b + c;
  }

  lemma BalancesRoundTrip(c: Crypto, p: Package)
    requires Encodable(p) && WellTyped(c, p)
    ensures |BalancesPart(p)| == 4 + 64 * |p.balances| + 264
    ensures DecodeBalances(p.epochAccount, p.configuration, p.keys, p.submissions, BalancesPart(p)) == Some(p)
  {
    var list, tail := EncodeAll(p.balances, BALANCE_LEAF), PutAll(TailFields(p));
    BalancesLength(p);
    TailRoundTrip(p, tail);
    CutCount(Le32(|p.balances|), list, tail);
    forall b | b in p.balances ensures |BALANCE_LEAF(b)| == 64 && GET_BALANCE_RECORD(BALANCE_LEAF(b)) == Some(b) {
      BalanceRoundTrip(b);
    }
    DecodeEncodeAll(p.balances, 64, BALANCE_LEAF, GET_BALANCE_RECORD);
  }

  lemma MembersRoundTrip(c: Crypto, p: Package)
    requires Encodable(p) && WellTyped(c, p) && forall s | s in p.submissions :: Sendable(c, s)
    ensures |MembersPart(p)| == 4 + 689 * |p.submissions| + 4 + 64 * |p.balances| + 264
    ensures DecodeMembers(c, p.epochAccount, p.configuration, p.keys, MembersPart(p)) == Some(p)
  {
    var list := EncodeAll(p.submissions, PUT_SUBMISSION);
    BalancesRoundTrip(c, p);
    forall s | s in p.submissions ensures |PUT_SUBMISSION(s)| == 689 && GetSubmission(c)(PUT_SUBMISSION(s)) == Some(s) {
      SubmissionRoundTrip(c, s);
    }
    DecodeEncodeAll(p.submissions, 689, PUT_SUBMISSION, GetSubmission(c));
    CutCount(Le32(|p.submissions|), list, BalancesPart(p));
  }

  lemma HeadParts(p: Package, rest: seq<byte>)
    requires Encodable(p)
    ensures var s := PackageHead(p) + rest;
            && |PackageHead(p)| == 300 && s[0] == 1 && s[1..33] == Raw(p.epochAccount)
               && s[33..296] == ConfigBytes(p.configuration)
            && s[296..300] == Le32(|p.keys|) && s[300..] == rest
  {
    ConfigRoundTrip(p.configuration);
  }

  lemma KeysRoundTrip(c: Crypto, p: Package)
    requires Encodable(p) && WellTyped(c, p) && forall s | s in p.submissions :: Sendable(c, s)
    ensures DecodeKeys(c, p.epochAccount, p.configuration, |p.keys|, p.keys + MembersPart(p)) == Some(p)
  {
    MembersRoundTrip(c, p);
    var s := p.keys + MembersPart(p);
    assert s[..|p.keys|] == p.keys && s[|p.keys|..] == MembersPart(p);
  }

  /** Every package that can be sent is received unchanged. */
  lemma PackageRoundTrip(c: Crypto, p: Package)
    requires Encodable(p) && WellTyped(c, p) && forall s | s in p.submissions :: Sendable(c, s)
    ensures DecodePackage(c, PackageBytes(p)) == Some(p)
    ensures |PackageBytes(p)| <= 49788
  {
    MembersRoundTrip(c, p);
    KeysRoundTrip(c, p);
    HeadParts(p, p.keys + MembersPart(p));
    ConfigRoundTrip(p.configuration);
  }

  /** `LockPackageV1::encode_wire`: pieces and records appended to one buffer. */
  method EncodePackage(p: Package) returns (r: Option<seq<byte>>)
    ensures r.Some? <==> Encodable(p)
    ensures r.Some? ==> r.value == PackageBytes(p)
  {
    if |p.submissions| > MAX_BATCH_MEMBERS || |p.balances| > MAX_BATCH_MEMBERS || |p.keys| > MAX_KEYS_LEN {
      return None;
    }
    var start := PackageHead(p) + p.keys;
    var bytes := WriteAll(start + Le32(|p.submissions|), p.submissions, PUT_SUBMISSION);
    ghost var members := Le32(|p.submissions|) + EncodeAll(p.submissions, PUT_SUBMISSION);
    Assoc(start, Le32(|p.submissions|), EncodeAll(p.submissions, PUT_SUBMISSION));
    bytes := WriteAll(bytes + Le32(|p.balances|), p.balances, BALANCE_LEAF);
    Assoc(start + members, Le32(|p.balances|), EncodeAll(p.balances, BALANCE_LEAF));
    bytes := bytes + PutAll(TailFields(p));
    Assoc(start + members, Le32(|p.balances|) + EncodeAll(p.balances, BALANCE_LEAF), PutAll(TailFields(p)));
    Assoc(start, members, BalancesPart(p));
    Assoc(PackageHead(p), p.keys, MembersPart(p));
    return Some(bytes);
  }
}
