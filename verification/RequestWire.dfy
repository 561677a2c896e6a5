/** The settlement request on the wire, and the frame it must fit. */
module RequestWire {
  import opened Bytes
  import opened Order
  import opened Layout
  import opened Wire
  import opened ChainState
  import opened HostChain
  import opened Submission
  import opened Admission
  import opened LockPackage
  import opened PackageWire
  import opened Recovery
  import opened Settlement
  import L = Ledger

  datatype Request = Request(
    package: Package, evidence: seq<Evidence>, post: seq<(Bytes32, L.Balance)>, preBalanceRoot: Bytes32,
      postBalanceRoot: Bytes32,
    residual: L.Residual, resultRoot: Bytes32, resultCommitment: Bytes32, settlementNonce: Bytes32,
    settlementDigest: Bytes32)

  const MAX_SHARE_LEN := 512
  const MAX_REQUEST_LEN := 128 * 1024

  /** Whether bytes deserialise to a decryption share. */
  type ShareCheck = seq<byte> -> bool

  // ---- one share ----

  const SHARE_KINDS := [KByte, KU64, KWord, KWord, KWord, KU32]

  function ShareFields(s: Share): seq<Field>
    requires s.index <= U64_MAX && |s.share| <= U32_MAX
  {
    [Byte(1), U64(s.index), Word(s.epochAccount), Word(s.lockDigest), Word(s.ciphertextHash), U32(|s.share|)]
  }

  lemma ShareSize()
    ensures Size(SHARE_KINDS) == 109
  {
    SizeFirst(KU32, []);
    assert [KU32] + [] == [KU32];
    SizeFive(KByte, KU64, KWord, KWord, KWord, [KU32]);
    assert SHARE_KINDS == [KByte, KU64, KWord, KWord, KWord] + [KU32];
  }

  function ShareBytes(s: Share): seq<byte>
    requires s.index <= U64_MAX && |s.share| <= U32_MAX
  {
    PutAll(ShareFields(s)) + s.share
  }

  function DecodeShare(ok: ShareCheck, s: seq<byte>): Option<Share> {
    if |s| < 109 || s[0] != 1 then None
    else
      ShareSize();
      var f := TakeAll(SHARE_KINDS, s);
      if 109 + N32(f[5]) as int != |s| || !ok(s[109..]) then None
      else Some(Share(W(f[2]), W(f[3]), W(f[4]), N64(f[1]), s[109..]))
  }

  /** A share that fits the frame. */
  predicate ShareFits(ok: ShareCheck, s: Share) {
    s.index <= U64_MAX && 109 + |s.share| <= MAX_SHARE_LEN && ok(s.share)
  }

  lemma ShareRoundTrip(ok: ShareCheck, s: Share)
    requires ShareFits(ok, s)
    ensures |ShareBytes(s)| == 109 + |s.share| && DecodeShare(ok, ShareBytes(s)) == Some(s)
  {
    ShareSize();
    var fs := ShareFields(s);
    assert KindsOf(fs) == SHARE_KINDS;
    PutSize(fs);
    RoundTrip(fs, s.share);
    assert ShareBytes(s)[109..] == s.share;
    assert ShareBytes(s)[0] == Put(fs[0])[0];
  }

  // ---- shares one after the other, each behind its length ----

  /** Empty for a share that is refused before it is written. */
  function PutShare(s: Share): seq<byte> {
    if s.index > U64_MAX || 109 + |s.share| > MAX_SHARE_LEN then []
    else
      PutSize(ShareFields(s));
      ShareSize();
      assert KindsOf(ShareFields(s)) == SHARE_KINDS;
      Le32(|ShareBytes(s)|) + ShareBytes(s)
  }

  /** Reads one share and returns what is left. */
  function TakeShare(ok: ShareCheck, s: seq<byte>): Option<(Share, seq<byte>)> {
    if |s| < 4 then None
    else
      var n: int := ReadU32(s[..4]);
      if n > MAX_SHARE_LEN || |s| - 4 < n then None
      else
        match DecodeShare(ok, s[4..4 + n])
        case None => None
        case Some(share) => Some((share, s[4 + n..]))
  }

  lemma TakePutShare(ok: ShareCheck, s: Share, rest: seq<byte>)
    requires ShareFits(ok, s)
    ensures |PutShare(s)| <= 4 + MAX_SHARE_LEN && TakeShare(ok, PutShare(s) + rest) == Some((s, rest))
  {
    ShareRoundTrip(ok, s);
    var w, len := ShareBytes(s), Le32(|ShareBytes(s)|);
    var all := PutShare(s) + rest;
    assert all[..4] == len && all[4..4 + |w|] == w && all[4 + |w|..] == rest;
  }

  predicate EvidenceFits(ok: ShareCheck, e: Evidence) {
    ShareFits(ok, e.first) && ShareFits(ok, e.second) && e.first.index != e.second.index
  }

  function PutEvidence(e: Evidence): seq<byte> { PutShare(e.first) + PutShare(e.second) }

  function PutEvidences(evs: seq<Evidence>): seq<byte> {
    if evs == [] then [] else PutEvidence(evs[0]) + PutEvidences(evs[1..])
  }

  /** Reads one pair of shares; equal indices are refused. */
  function TakeEvidence(ok: ShareCheck, s: seq<byte>): Option<(Evidence, seq<byte>)> {
    match TakeShare(ok, s)
    case None => None
    case Some((a, s1)) =>
      match TakeShare(ok, s1)
      case None => None
      case Some((b, s2)) => if a.index == b.index then None else Some((Evidence(a, b), s2))
  }

  function TakeOne(ok: ShareCheck): seq<byte> -> Option<(Evidence, seq<byte>)> { s => TakeEvidence(ok, s) }

  /** Items read one after the other, each by `take`, which returns what is left. */
  function TakeMany<T>(take: seq<byte> -> Option<(T, seq<byte>)>, count: nat, s: seq<byte>)
    : Option<(seq<T>, seq<byte>)>
  {
    if count == 0 then Some(([], s))
    else
      match take(s)
      case None => None
      case Some((x, s1)) => Joined([x], TakeMany(take, count - 1, s1))
  }

  function TakeEvidences(ok: ShareCheck, count: nat, s: seq<byte>): Option<(seq<Evidence>, seq<byte>)> {
    TakeMany(TakeOne(ok), count, s)
  }

  /** What was read so far in front of what is still to come. */
  function Joined<T>(xs: seq<T>, more: Option<(seq<T>, seq<byte>)>): Option<(seq<T>, seq<byte>)> {
    match more
    case None => None
    case Some((rest, s)) => Some((xs + rest, s))
  }

  lemma JoinedAgain<T>(a: seq<T>, b: seq<T>, more: Option<(seq<T>, seq<byte>)>)
    ensures Joined(a + b, more) == Joined(a, Joined(b, more))
  {
    if more.Some? { Assoc(a, b, more.value.0); }
  }

  lemma TakePutEvidence(ok: ShareCheck, e: Evidence, rest: seq<byte>)
    requires EvidenceFits(ok, e)
    ensures |PutEvidence(e)| <= 1032 && TakeEvidence(ok, PutEvidence(e) + rest) == Some((e, rest))
  {
    TakePutShare(ok, e.second, rest);
    TakePutShare(ok, e.first, PutShare(e.second) + rest);
    Assoc(PutShare(e.first), PutShare(e.second), rest);
  }

  lemma TakeFirst(ok: ShareCheck, e: Evidence, tail: seq<Evidence>, s: seq<byte>, s1: seq<byte>, rest: seq<byte>)
    requires TakeEvidence(ok, s) == Some((e, s1)) && TakeEvidences(ok, |tail|, s1) == Some((tail, rest))
    ensures TakeEvidences(ok, |tail| + 1, s) == Some(([e] + tail, rest))
  {
  }

  lemma {:induction false} TakePutEvidences(ok: ShareCheck, evs: seq<Evidence>, rest: seq<byte>)
    requires forall e | e in evs :: EvidenceFits(ok, e)
    ensures |PutEvidences(evs)| <= 1032 * |evs|
    ensures TakeEvidences(ok, |evs|, PutEvidences(evs) + rest) == Some((evs, rest))
  {
    if evs == [] {
      assert PutEvidences(evs) + rest == rest;
    } else {
      var e, tail := evs[0], evs[1..];
      assert e in evs && |evs| == 1 + |tail| && [e] + tail == evs;
      TakePutEvidences(ok, tail, rest);
      TakePutEvidence(ok, e, PutEvidences(tail) + rest);
      Assoc(PutEvidence(e), PutEvidences(tail), rest);
      TakeFirst(ok, e, tail, PutEvidence(e) + (PutEvidences(tail) + rest), PutEvidences(tail) + rest, rest);
    }
  }

  /** The decoding loop with its moving offset: on every byte string each slice stays inside it. */
  method DecodeEvidences(ok: ShareCheck, bytes: seq<byte>, start: nat, count: nat)
    returns (r: Option<(seq<Evidence>, nat)>)
    requires start <= |bytes|
    ensures match TakeEvidences(ok, count, bytes[start..])
            case None => r.None?
            case Some((evs, rest)) => r.Some? && r.value.0 == evs && r.value.1 <= |bytes| && bytes[r.value.1..] == rest
  {
    var evs: seq<Evidence>, offset: nat := [], start;
    ghost var all := TakeEvidences(ok, count, bytes[start..]);
    assert all.Some? ==> [] + all.value.0 == all.value.0;
    for i := 0 to count
      invariant offset <= |bytes|
      invariant Joined(evs, TakeEvidences(ok, count - i, bytes[offset..])) == all
    {
      var next := EvidenceAt(ok, bytes, offset);
      if next.None? { return None; }
      JoinedAgain(evs, [next.value.0], TakeEvidences(ok, count - i - 1, bytes[next.value.1..]));
      evs, offset := evs + [next.value.0], next.value.1;
    }
    assert evs + [] == evs;
    return Some((evs, offset));
  }

  method EvidenceAt(ok: ShareCheck, bytes: seq<byte>, offset: nat) returns (r: Option<(Evidence, nat)>)
    requires offset <= |bytes|
    ensures match TakeEvidence(ok, bytes[offset..])
            case None => r.None?
            case Some((e, rest)) => r.Some? && r.value.0 == e && r.value.1 <= |bytes| && bytes[r.value.1..] == rest
  {
    var first := ShareAt(ok, bytes, offset);
    if first.None? { return None; }
    var second := ShareAt(ok, bytes, first.value.1);
    if second.None? || first.value.0.index == second.value.0.index { return None; }
    return Some((Evidence(first.value.0, second.value.0), second.value.1));
  }

  method ShareAt(ok: ShareCheck, bytes: seq<byte>, offset: nat) returns (r: Option<(Share, nat)>)
    requires offset <= |bytes|
    ensures match TakeShare(ok, bytes[offset..])
            case None => r.None?
            case Some((share, rest)) => r.Some? && r.value.0 == share && r.value.1 <= |bytes|
                                        && bytes[r.value.1..] == rest
  {
    ghost var s := bytes[offset..];
    if offset + 4 > |bytes| { return None; }
    assert s[..4] == bytes[offset..offset + 4];
    var n: int := ReadU32(bytes[offset..offset + 4]);
    if n > MAX_SHARE_LEN || offset + 4 + n > |bytes| { return None; }
    assert s[4..4 + n] == bytes[offset + 4..offset + 4 + n] && s[4 + n..] == bytes[offset + 4 + n..];
    var share := DecodeShare(ok, bytes[offset + 4..offset + 4 + n]);
    if share.None? { return None; }
    return Some((share.value, offset + 4 + n));
  }

  // ---- the request ----

  const REQUEST_TAIL_KINDS := [KWord, KWord, KByte, KU32, KWord, KWord, KWord, KWord]

  function RequestTail(r: Request): (f: seq<Field>)
    ensures KindsOf(f) == REQUEST_TAIL_KINDS
  {
    [Word(r.preBalanceRoot), Word(r.postBalanceRoot), Byte(L.ResidualSide(r.residual)), U32(L.ResidualLots(r.residual)),
     Word(r.resultRoot), Word(r.resultCommitment), Word(r.settlementNonce), Word(r.settlementDigest)]
  }

  lemma RequestTailSize()
    ensures Size(REQUEST_TAIL_KINDS) == 197
  {
    SizeFirst(KWord, []);
    SizeFirst(KWord, [KWord]);
    SizeFirst(KWord, [KWord, KWord]);
    assert [KWord] + [] == [KWord] && [KWord] + [KWord] == [KWord, KWord]
           && [KWord] + [KWord, KWord] == [KWord, KWord, KWord];
    SizeFive(KWord, KWord, KByte, KU32, KWord, [KWord, KWord, KWord]);
    assert REQUEST_TAIL_KINDS == [KWord, KWord, KByte, KU32, KWord] + [KWord, KWord, KWord];
  }

  /** `encode_wire` accepts: the package can be encoded and no share is too long. */
  predicate RequestEncodable(r: Request) {
    Encodable(r.package) && |r.evidence| <= U32_MAX && |r.post| <= U32_MAX && SharesShort(r.evidence)
  }

  predicate SharesShort(evs: seq<Evidence>) {
    forall e | e in evs :: 109 + |e.first.share| <= MAX_SHARE_LEN && 109 + |e.second.share| <= MAX_SHARE_LEN
  }

  function PostPart(r: Request): seq<byte>
    requires RequestEncodable(r)
  {
    Le32(|r.post|) + EncodeAll(r.post, L.PUT_BALANCE) + PutAll(RequestTail(r))
  }

  function EvidencePart(r: Request): seq<byte>
    requires RequestEncodable(r)
  {
    Le32(|r.evidence|) + (PutEvidences(r.evidence) + PostPart(r))
  }

  function RequestBytes(r: Request): seq<byte>
    requires RequestEncodable(r) && |PackageBytes(r.package)| <= U32_MAX
  {
    ([1] + Le32(|PackageBytes(r.package)|)) + (PackageBytes(r.package) + EvidencePart(r))
  }

  function ReadResidual(side: byte, lots: u32): Option<L.Residual> {
    if side == 0 && lots == 0 then Some(L.NoResidual)
    else if side == 1 && lots >= 1 then Some(L.BuyLots(lots))
    else if side == 2 && lots >= 1 then Some(L.SellLots(lots))
    else None
  }

  function DecodeRequestTail(p: Package, evs: seq<Evidence>, post: seq<(Bytes32, L.Balance)>,
                             s: seq<byte>): Option<Request>
    requires |s| == 197
  {
    RequestTailSize();
    var f := TakeAll(REQUEST_TAIL_KINDS, s);
    match ReadResidual(B(f[2]), N32(f[3]))
    case None => None
    case Some(residual) => Some(Request(p, evs, post, W(f[0]), W(f[1]), residual, W(f[4]), W(f[5]), W(f[6]), W(f[7])))
  }

  function PostFrom(p: Package, evs: seq<Evidence>, list: Option<seq<(Bytes32, L.Balance)>>,
                    s: seq<byte>): Option<Request>
    requires |s| == 197
  {
    match list
    case None => None
    case Some(post) => DecodeRequestTail(p, evs, post, s)
  }

  /** `n` closing balances and the rest. */
  function PostOf(p: Package, evs: seq<Evidence>, n: nat, s: seq<byte>): Option<Request> {
    if n > MAX_BATCH_MEMBERS || n != |p.balances| || |s| != 48 * n + 197 then None
    else PostFrom(p, evs, DecodeAll(s[..48 * n], 48, n, L.GET_BALANCE), s[48 * n..])
  }

  function DecodePost(p: Package, evs: seq<Evidence>, s: seq<byte>): Option<Request> {
    if |s| < 4 then None else PostOf(p, evs, ReadU32(s[..4]), s[4..])
  }

  function DecodeEvidencePart(ok: ShareCheck, p: Package, s: seq<byte>): Option<Request> {
    if |s| < 4 then None
    else
      var n: int := ReadU32(s[..4]);
      if n > MAX_BATCH_MEMBERS || n != |p.submissions| || n != p.memberCount then None
      else
        match TakeEvidences(ok, n, s[4..])
        case None => None
        case Some((evs, rest)) => DecodePost(p, evs, rest)
  }

  function DecodeParts(c: Crypto, ok: ShareCheck, pkg: seq<byte>, rest: seq<byte>): Option<Request> {
    match DecodePackage(c, pkg)
    case None => None
    case Some(p) => DecodeEvidencePart(ok, p, rest)
  }

  /** `SettlementRequestV1::decode_wire`, well formed for every `bytes`. */
  function DecodeRequest(c: Crypto, ok: ShareCheck, bytes: seq<byte>): Option<Request> {
    if |bytes| < 5 || bytes[0] != 1 then None
    else
      var n: int := ReadU32(bytes[1..5]);
      if |bytes| - 5 < n then None else DecodeParts(c, ok, bytes[5..5 + n], bytes[5 + n..])
  }

  // ---- round trip ----

  /** The counts agree with the package and the residual is in canonical form. */
  ghost predicate Consistent(c: Crypto, ok: ShareCheck, r: Request) {
    && |r.evidence| == |r.package.submissions| && |r.evidence| == r.package.memberCount
       && |r.post| == |r.package.balances|
    && (forall e | e in r.evidence :: EvidenceFits(ok, e))
    && WellTyped(c, r.package) && (forall s | s in r.package.submissions :: Sendable(c, s))
    && ReadResidual(L.ResidualSide(r.residual), L.ResidualLots(r.residual)) == Some(r.residual)
  }

  lemma RequestTailRoundTrip(r: Request, s: seq<byte>)
    requires s == PutAll(RequestTail(r))
             && ReadResidual(L.ResidualSide(r.residual), L.ResidualLots(r.residual)) == Some(r.residual)
    ensures |s| == 197 && DecodeRequestTail(r.package, r.evidence, r.post, s) == Some(r)
  {
    RequestTailSize();
    PutSize(RequestTail(r));
    RoundTrip(RequestTail(r), []);
    assert s + [] == s;
  }

  lemma PostRoundTrip(r: Request)
    requires RequestEncodable(r) && |r.post| == |r.package.balances|
    requires ReadResidual(L.ResidualSide(r.residual), L.ResidualLots(r.residual)) == Some(r.residual)
    ensures |PostPart(r)| == 4 + 48 * |r.post| + 197
    ensures DecodePost(r.package, r.evidence, PostPart(r)) == Some(r)
  {
    var list, tail := EncodeAll(r.post, L.PUT_BALANCE), PutAll(RequestTail(r));
    forall e | e in r.post ensures |L.PUT_BALANCE(e)| == 48 && L.GET_BALANCE(L.PUT_BALANCE(e)) == Some(e) {
      L.BalanceRoundTrip(e.0, e.1);
    }
    DecodeEncodeAll(r.post, 48, L.PUT_BALANCE, L.GET_BALANCE);
    RequestTailRoundTrip(r, tail);
    CutCount(Le32(|r.post|), list, tail);
  }

  lemma EvidenceRoundTrip(c: Crypto, ok: ShareCheck, r: Request)
    requires RequestEncodable(r) && Consistent(c, ok, r)
    ensures |EvidencePart(r)| <= 4 + 1032 * |r.evidence| + 4 + 48 * |r.post| + 197
    ensures DecodeEvidencePart(ok, r.package, EvidencePart(r)) == Some(r)
  {
    PostRoundTrip(r);
    TakePutEvidences(ok, r.evidence, PostPart(r));
    CountFirst(ok, r.package, r.evidence, PutEvidences(r.evidence) + PostPart(r));
  }

  /** Behind an accepted count the evidence is read. */
  lemma CountFirst(ok: ShareCheck, p: Package, evs: seq<Evidence>, s: seq<byte>)
    requires |evs| == |p.submissions| == p.memberCount <= MAX_BATCH_MEMBERS
    ensures DecodeEvidencePart(ok, p, Le32(|evs|) + s) ==
            match TakeEvidences(ok, |evs|, s)
            case None => None
            case Some((read, rest)) => DecodePost(p, read, rest)
  {
    var all := Le32(|evs|) + s;
    assert all[..4] == Le32(|evs|) && all[4..] == s;
  }

  /** Behind a length and a package comes the evidence. */
  lemma PackageFirst(c: Crypto, ok: ShareCheck, pkg: seq<byte>, rest: seq<byte>)
    requires |pkg| <= U32_MAX
    ensures DecodeRequest(c, ok, ([1] + Le32(|pkg|)) + (pkg + rest)) == DecodeParts(c, ok, pkg, rest)
  {
    RequestParts(Le32(|pkg|), pkg, rest);
  }

  lemma RequestSize(c: Crypto, ok: ShareCheck, r: Request)
    requires RequestEncodable(r) && Consistent(c, ok, r)
    ensures |PackageBytes(r.package)| <= U32_MAX && |RequestBytes(r)| <= 119118
  {
    PackageRoundTrip(c, r.package);
    EvidenceRoundTrip(c, ok, r);
    RequestParts(Le32(|PackageBytes(r.package)|), PackageBytes(r.package), EvidencePart(r));
  }

  /** Every consistent request is received unchanged and fits the 128 KiB frame. */
  lemma RequestRoundTrip(c: Crypto, ok: ShareCheck, r: Request)
    requires RequestEncodable(r) && Consistent(c, ok, r)
    ensures |PackageBytes(r.package)| <= U32_MAX
    ensures DecodeRequest(c, ok, RequestBytes(r)) == Some(r)
    ensures |RequestBytes(r)| <= MAX_REQUEST_LEN
  {
    RequestSize(c, ok, r);
    PackageRoundTrip(c, r.package);
    EvidenceRoundTrip(c, ok, r);
    PackageFirst(c, ok, PackageBytes(r.package), EvidencePart(r));
  }

  lemma RequestParts(len: seq<byte>, p: seq<byte>, rest: seq<byte>)
    requires |len| == 4
    ensures var s := ([1] + len) + (p + rest);
            |s| == 5 + |p| + |rest| && s[0] == 1 && s[1..5] == len && s[5..5 + |p|] == p && s[5 + |p|..] == rest
  {
  }

  // ---- requests made by `build` ----

  function BuiltFrom(sha: Sha, p: Package, evs: seq<Evidence>, nonce: Bytes32, m: Recomputed): Request {
    Request(p, evs, m.post, m.preBalanceRoot, m.postBalanceRoot, m.residual, m.resultRoot, m.resultCommitment, nonce,
      SettlementDigest(sha, m.payload))
  }

  /** `SettlementRequestV1::build`. */
  ghost function BuildSpec(c: Crypto, t: Threshold, p: Package, evs: seq<Evidence>, nonce: Bytes32,
                           confirmed: ConfirmedLock): Result<Request, SettlementError> {
    var r := RecomputeSpec(c, t, p, evs, nonce, confirmed);
    if r.Err? then Err(r.error) else Ok(BuiltFrom(c.sha, p, evs, nonce, r.value))
  }

  /** Shares are values of their own type: their bytes deserialise and their index is a machine word. */
  ghost predicate SharesTyped(ok: ShareCheck, evs: seq<Evidence>) {
    forall e | e in evs :: e.first.index <= U64_MAX && e.second.index <= U64_MAX && ok(e.first.share)
                           && ok(e.second.share)
  }

  lemma {:induction false} RecoveredIndices(c: Crypto, t: Threshold, keys: seq<byte>, subs: seq<EncryptedSubmission>,
                                            evs: seq<Evidence>, account: Bytes32, digest: Bytes32, i: nat, j: nat)
    requires |evs| == |subs| && i <= j < |subs| && RecoverFrom(c, t, keys, subs, evs, account, digest, i).Some?
    ensures evs[j].first.index != evs[j].second.index
    decreases j - i
  {
    if i < j { RecoveredIndices(c, t, keys, subs, evs, account, digest, i + 1, j); }
  }

  lemma FinishShape(c: Crypto, account: Bytes32, e: EpochState, pool: PoolState, recovered: Bytes32, pre: Bytes32,
                    before: L.Book, result: L.BatchResult, nonce: Bytes32)
    requires Finish(c, account, e, pool, recovered, pre, before, result, nonce).Ok?
    ensures var r := Finish(c, account, e, pool, recovered, pre, before, result, nonce).value;
            r.post == Entries(result.after) && r.residual == result.residual
  {
  }

  lemma ResidualCanonical(lots: int)
    requires -U32_MAX <= lots <= U32_MAX
    ensures var r := L.ResidualOf(lots); ReadResidual(L.ResidualSide(r), L.ResidualLots(r)) == Some(r)
  {
  }

  lemma ResultShape(cfg: L.BatchConfig, book: L.Book, orders: seq<L.FundedOrder>)
    requires |orders| <= U32_MAX && L.NetSpec(cfg, book, orders).Ok?
    ensures var r := L.NetSpec(cfg, book, orders).value;
            |Entries(r.after)| == |book|
              && ReadResidual(L.ResidualSide(r.residual), L.ResidualLots(r.residual)) == Some(r.residual)
  {
    L.NettedFrame(cfg, book, orders);
    var after := L.NetSpec(cfg, book, orders).value.after;
    assert |after| == |after.Keys| && |book| == |book.Keys|;
    ResidualCanonical(L.Lots(orders));
  }

  /** The result has one closing balance per opening one, and a canonical residual. */
  lemma NetShape(c: Crypto, p: Package, confirmed: ConfirmedLock, xs: seq<SignedIntent>, nonce: Bytes32)
    requires |xs| <= U32_MAX && confirmed.pool.Some? && Net(c, p, confirmed, xs, nonce).Ok?
    ensures var r := Net(c, p, confirmed, xs, nonce).value;
            |r.post| == |p.balances|
              && ReadResidual(L.ResidualSide(r.residual), L.ResidualLots(r.residual)) == Some(r.residual)
  {
    var book, orders := BookOf(p.balances), Map(xs, ORDER);
    ResultShape(ConfigOf(p), book, orders);
    BookCount(p.balances);
    FinishShape(c, confirmed.epochAccount, confirmed.state, confirmed.pool.value, RecoveredRoot(c.sha, xs),
      p.preBalanceRoot, book,
                L.NetSpec(ConfigOf(p), book, orders).value, nonce);
  }

  lemma BookCount(balances: seq<BalanceRecord>)
    requires OnePerParticipant(balances)
    ensures |BookOf(balances)| == |balances|
  {
    BookKeys(balances);
    CountDistinct(Map(balances, HOLDER));
    SetOfMap(balances, HOLDER);
    assert |BookOf(balances)| == |BookOf(balances).Keys|;
    assert Holders(balances) == (set v | v in Map(balances, HOLDER));
  }

  lemma RecomputeShape(c: Crypto, t: Threshold, p: Package, evs: seq<Evidence>, nonce: Bytes32,
                       confirmed: ConfirmedLock)
    requires RecomputeSpec(c, t, p, evs, nonce, confirmed).Ok?
    ensures ValidateLockedSpec(c, p, confirmed).Ok? && |evs| == |p.submissions|
    ensures forall e | e in evs :: e.first.index != e.second.index
    ensures var r := RecomputeSpec(c, t, p, evs, nonce, confirmed).value;
            |r.post| == |p.balances|
              && ReadResidual(L.ResidualSide(r.residual), L.ResidualLots(r.residual)) == Some(r.residual)
  {
    var account, digest := confirmed.epochAccount, confirmed.state.lockDigest;
    RecoverLength(c, t, p.keys, p.submissions, evs, account, digest, 0);
    NetShape(c, p, confirmed, RecoverFrom(c, t, p.keys, p.submissions, evs, account, digest, 0).value, nonce);
    forall e | e in evs ensures e.first.index != e.second.index {
      var j :| 0 <= j < |evs| && evs[j] == e;
      RecoveredIndices(c, t, p.keys, p.submissions, evs, account, digest, 0, j);
    }
  }

  lemma LockedSendable(c: Crypto, p: Package, confirmed: ConfirmedLock)
    requires ValidateLockedSpec(c, p, confirmed).Ok?
    ensures |p.submissions| == p.memberCount && forall s | s in p.submissions :: Sendable(c, s)
  {
    ValidateLockedMeans(c, p, confirmed);
    var policy := Reopened(c, confirmed).value.policy;
    ContentsMean(c, p, policy);
    forall s | s in p.submissions ensures Sendable(c, s) {
      MemberValid(c, policy, p.submissions, s);
      ValidIsSendable(c, policy, s);
    }
  }

  lemma EvidencesFit(ok: ShareCheck, evs: seq<Evidence>)
    requires SharesTyped(ok, evs) && SharesShort(evs) && forall e | e in evs :: e.first.index != e.second.index
    ensures forall e | e in evs :: EvidenceFits(ok, e)
  {
  }

  lemma BuiltConsistent(c: Crypto, t: Threshold, ok: ShareCheck, p: Package, evs: seq<Evidence>, nonce: Bytes32,
                        confirmed: ConfirmedLock, r: Request)
    requires BuildSpec(c, t, p, evs, nonce, confirmed) == Ok(r) && RequestEncodable(r) && WellTyped(c, p)
             && SharesTyped(ok, evs)
    ensures Consistent(c, ok, r)
  {
    RecomputeShape(c, t, p, evs, nonce, confirmed);
    LockedSendable(c, p, confirmed);
    EvidencesFit(ok, evs);
    BuiltFields(c.sha, p, evs, nonce, RecomputeSpec(c, t, p, evs, nonce, confirmed).value);
  }

  lemma BuiltFields(sha: Sha, p: Package, evs: seq<Evidence>, nonce: Bytes32, m: Recomputed)
    ensures var r := BuiltFrom(sha, p, evs, nonce, m);
            r.package == p && r.evidence == evs && r.post == m.post && r.residual == m.residual
  {
  }

  /** Every request made by `build` that `encode_wire` accepts is returned unchanged by `decode_wire` and fits the
      frame. */
  lemma BuiltRequestRoundTrip(c: Crypto, t: Threshold, ok: ShareCheck, p: Package, evs: seq<Evidence>, nonce: Bytes32,
                              confirmed: ConfirmedLock, r: Request)
    requires BuildSpec(c, t, p, evs, nonce, confirmed) == Ok(r) && RequestEncodable(r) && WellTyped(c, p)
             && SharesTyped(ok, evs)
    ensures |PackageBytes(r.package)| <= U32_MAX
    ensures DecodeRequest(c, ok, RequestBytes(r)) == Some(r) && |RequestBytes(r)| <= MAX_REQUEST_LEN
  {
    BuiltConsistent(c, t, ok, p, evs, nonce, confirmed, r);
    RequestRoundTrip(c, ok, r);
  }

  method WriteEvidences(start: seq<byte>, evs: seq<Evidence>) returns (r: Option<seq<byte>>)
    ensures r.Some? <==> SharesShort(evs)
    ensures r.Some? ==> r.value == start + PutEvidences(evs)
  {
    var out := start;
    for i := 0 to |evs|
      invariant SharesShort(evs[..i])
      invariant out + PutEvidences(evs[i..]) == start + PutEvidences(evs)
    {
      var e := evs[i];
      assert evs[..i + 1] == evs[..i] + [e] && e in evs;
      if 109 + |e.first.share| > MAX_SHARE_LEN || 109 + |e.second.share| > MAX_SHARE_LEN { return None; }
      assert evs[i..][1..] == evs[i + 1..];
      Assoc(out, PutEvidence(e), PutEvidences(evs[i + 1..]));
      out := out + PutEvidence(e);
    }
    assert evs[..|evs|] == evs;
    assert out + [] == out;
    return Some(out);
  }

  /** `SettlementRequestV1::encode_wire`: everything appended to one buffer. */
  method EncodeRequest(r: Request) returns (bytes: Option<seq<byte>>)
    ensures bytes.Some?
            ==> RequestEncodable(r) && |PackageBytes(r.package)| <= U32_MAX && bytes.value == RequestBytes(r)
    ensures RequestEncodable(r) && |PackageBytes(r.package)| <= U32_MAX ==> bytes.Some?
  {
    var package := EncodePackage(r.package);
    if package.None? || |package.value| > U32_MAX || |r.evidence| > U32_MAX { return None; }
    var out := WriteEvidences([1] + Le32(|package.value|) + package.value + Le32(|r.evidence|), r.evidence);
    if out.None? || |r.post| > U32_MAX { return None; }
    var all := WriteAll(out.value + Le32(|r.post|), r.post, L.PUT_BALANCE);
    RequestJoin(package.value, r);
    return Some(all + PutAll(RequestTail(r)));
  }

  lemma RequestJoin(pkg: seq<byte>, r: Request)
    requires RequestEncodable(r) && pkg == PackageBytes(r.package) && |pkg| <= U32_MAX
    ensures [1] + Le32(|pkg|) + pkg + Le32(|r.evidence|) + PutEvidences(r.evidence) + Le32(|r.post|)
            + EncodeAll(r.post, L.PUT_BALANCE) + PutAll(RequestTail(r)) == RequestBytes(r)
  {
    var head, n, evs := [1] + Le32(|pkg|), Le32(|r.evidence|), PutEvidences(r.evidence);
    var m, post, tail := Le32(|r.post|), EncodeAll(r.post, L.PUT_BALANCE), PutAll(RequestTail(r));
    Regroup(head, pkg, n, evs, m, post, tail);
  }

  lemma Regroup(a: seq<byte>, b: seq<byte>, c: seq<byte>, d: seq<byte>, e: seq<byte>, f: seq<byte>, g: seq<byte>)
    ensures a + b + c + d + e + f + g == a + (b + (c + (d + (e + f + g))))
  {
    Assoc(a, b, c);
    Assoc(a, b + c, d);
    Assoc(b, c, d);
    Assoc(a, b + (c + d), e + f + g);
    Assoc(a + (b + (c + d)), e, f);
    Assoc(a + (b + (c + d)), e + f, g);
    Assoc(b, c + d, e + f + g);
    Assoc(c, d, e + f + g);
  }
}
