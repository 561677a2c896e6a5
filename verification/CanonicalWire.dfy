/** A package and a settlement request are received exactly when they were written by their encoders. */
module CanonicalWire {
  import opened Bytes
  import opened Order
  import opened Layout
  import opened Wire
  import opened Submission
  import opened LockPackage
  import opened PackageWire
  import opened Recovery
  import opened RequestWire
  import opened Canonical
  import L = Ledger

  // ---- lists ----

  ghost predicate Inverts<T(!new)>(n: nat, enc: T -> seq<byte>, dec: seq<byte> -> Option<T>) {
    forall chunk: seq<byte> | |chunk| == n && dec(chunk).Some? :: enc(dec(chunk).value) == chunk
  }

  /** Equally long records are read only off their own encodings. */
  lemma {:induction false} ListRead<T(!new)>(s: seq<byte>, n: nat, count: nat, enc: T -> seq<byte>,
      dec: seq<byte> -> Option<T>)
    requires |s| == n * count && Inverts(n, enc, dec) && DecodeAll(s, n, count, dec).Some?
    ensures var xs := DecodeAll(s, n, count, dec).value;
            |xs| == count && EncodeAll(xs, enc) == s && forall x | x in xs :: dec(enc(x)) == Some(x)
    decreases count
  {
    if count == 0 {
      assert s == [];
    } else {
      assert n * count == n + n * (count - 1);
      ListRead(s[n..], n, count - 1, enc, dec);
      var xs := DecodeAll(s, n, count, dec).value;
      assert enc(xs[0]) == s[..n] && s == s[..n] + s[n..];
      assert xs[1..] == DecodeAll(s[n..], n, count - 1, dec).value;
    }
  }

  lemma CountRead(s: seq<byte>)
    requires |s| == 4
    ensures Le32(ReadU32(s)) == s
  {
    LeOf(s);
  }

  /** That many records, and what follows them. */
  lemma ListPart<T(!new)>(s: seq<byte>, n: nat, count: nat, enc: T -> seq<byte>, dec: seq<byte> -> Option<T>,
      xs: seq<T>)
    requires n * count <= |s| && Inverts(n, enc, dec) && DecodeAll(s[..n * count], n, count, dec) == Some(xs)
    ensures |xs| == count && s == EncodeAll(xs, enc) + s[n * count..]
    ensures forall x | x in xs :: dec(enc(x)) == Some(x)
  {
    var m := n * count;
    ListRead(s[..m], n, count, enc, dec);
    assert s == s[..m] + s[m..];
  }

  lemma CountBefore(s: seq<byte>, a: seq<byte>, b: seq<byte>)
    requires |s| >= 4 && s[4..] == a + b
    ensures s == Le32(ReadU32(s[..4])) + a + b
  {
    CountRead(s[..4]);
    Assoc(s[..4], a, b);
    assert s == s[..4] + s[4..];
  }

  lemma Cut(s: seq<byte>, i: nat, j: nat)
    requires i <= j <= |s|
    ensures s == s[..i] + s[i..j] + s[j..]
  {
  }

  // ---- the package ----

  lemma BalanceFieldsOf(f: seq<Field>)
    requires |f| == 5 && forall i | 0 <= i < 5 :: KindOf(f[i]) == BALANCE_KINDS[i]
    ensures BalanceFields(BalanceRecord(W(f[0]), N64(f[1]), N64(f[2]), N64(f[3]), N64(f[4]))) == f
  {
  }

  lemma BalanceRead(s: seq<byte>)
    requires DecodeBalance(s).Some?
    ensures BalanceBytes(DecodeBalance(s).value) == s && GoodBalance(DecodeBalance(s).value)
  {
    BalanceKindsSize();
    var f := TakeAll(BALANCE_KINDS, s);
    KindsAt(f, BALANCE_KINDS);
    PutTakeAll(BALANCE_KINDS, s);
    BalanceFieldsOf(f);
  }

  lemma BalancesInvert()
    ensures Inverts(64, BALANCE_LEAF, GET_BALANCE_RECORD)
  {
    forall s: seq<byte> | |s| == 64 && GET_BALANCE_RECORD(s).Some?
      ensures BALANCE_LEAF(GET_BALANCE_RECORD(s).value) == s
    {
      BalanceRead(s);
    }
  }

  lemma SubmissionsInvert(c: Crypto)
    ensures Inverts(689, PUT_SUBMISSION, GetSubmission(c))
  {
    forall s: seq<byte> | |s| == 689 && GetSubmission(c)(s).Some?
      ensures PUT_SUBMISSION(GetSubmission(c)(s).value) == s
    {
      SubmissionRead(c, s, DecodeSubmission(c, s).value);
    }
  }

  lemma TailFieldsOf(p: Package, f: seq<Field>)
    requires |f| == 10 && forall i | 0 <= i < 10 :: KindOf(f[i]) == TAIL_KINDS[i]
    requires p.snapshot == Snapshot(W(f[0]), N32(f[1]), W(f[2]), W(f[3]), Signature(W(f[4]), W(f[5])))
    requires p.preBalanceRoot == W(f[6]) && p.memberRoot == W(f[7]) && p.memberCount == N32(f[8])
             && p.lockNonce == W(f[9])
    ensures TailFields(p) == f
  {
  }

  lemma TailRead(account: Bytes32, cfg: EpochConfiguration, keys: seq<byte>, subs: seq<EncryptedSubmission>,
      balances: seq<BalanceRecord>, s: seq<byte>)
    requires |s| == 264
    ensures PutAll(TailFields(DecodeTail(account, cfg, keys, subs, balances, s))) == s
  {
    TailSize();
    var f := TakeAll(TAIL_KINDS, s);
    KindsAt(f, TAIL_KINDS);
    PutTakeAll(TAIL_KINDS, s);
    TailFieldsOf(DecodeTail(account, cfg, keys, subs, balances, s), f);
  }

  /** The read fields of a package that came out of the rest of the wire. */
  ghost predicate Carries(p: Package, account: Bytes32, cfg: EpochConfiguration, keys: seq<byte>) {
    p.epochAccount == account && p.configuration == cfg && p.keys == keys
  }

  lemma GoodOnes(xs: seq<BalanceRecord>)
    requires forall x | x in xs :: GET_BALANCE_RECORD(BALANCE_LEAF(x)) == Some(x)
    ensures forall x | x in xs :: GoodBalance(x)
  {
    forall x | x in xs ensures GoodBalance(x) { BalanceRead(BALANCE_LEAF(x)); }
  }

  lemma SendableOnes(c: Crypto, xs: seq<EncryptedSubmission>)
    requires forall x | x in xs :: GetSubmission(c)(PUT_SUBMISSION(x)) == Some(x)
    ensures forall x | x in xs :: Sendable(c, x)
  {
    forall x | x in xs ensures Sendable(c, x) { SubmissionRead(c, PUT_SUBMISSION(x), x); }
  }

  lemma BalancesRest(account: Bytes32, cfg: EpochConfiguration, keys: seq<byte>, subs: seq<EncryptedSubmission>,
      list: Option<seq<BalanceRecord>>, s: seq<byte>, p: Package)
    requires |s| == 264 && BalancesFrom(account, cfg, keys, subs, list, s) == Some(p)
    ensures Carries(p, account, cfg, keys) && p.submissions == subs && list == Some(p.balances)
    ensures PutAll(TailFields(p)) == s
  {
    TailRead(account, cfg, keys, subs, list.value, s);
  }

  lemma BalancesOfRead(account: Bytes32, cfg: EpochConfiguration, keys: seq<byte>, subs: seq<EncryptedSubmission>,
      n: nat, s: seq<byte>, p: Package)
    requires BalancesOf(account, cfg, keys, subs, n, s) == Some(p)
    ensures Carries(p, account, cfg, keys) && p.submissions == subs && |p.balances| == n <= MAX_BATCH_MEMBERS
    ensures s == EncodeAll(p.balances, BALANCE_LEAF) + PutAll(TailFields(p))
    ensures forall b | b in p.balances :: GoodBalance(b)
  {
    BalancesRest(account, cfg, keys, subs, DecodeAll(s[..64 * n], 64, n, GET_BALANCE_RECORD), s[64 * n..], p);
    BalancesInvert();
    ListPart(s, 64, n, BALANCE_LEAF, GET_BALANCE_RECORD, p.balances);
    GoodOnes(p.balances);
  }

  lemma BalancesRead(account: Bytes32, cfg: EpochConfiguration, keys: seq<byte>, subs: seq<EncryptedSubmission>,
      s: seq<byte>, p: Package)
    requires |s| >= 4 && |keys| <= MAX_KEYS_LEN && |subs| <= MAX_BATCH_MEMBERS
    requires DecodeBalances(account, cfg, keys, subs, s) == Some(p)
    ensures Carries(p, account, cfg, keys) && p.submissions == subs && Encodable(p) && BalancesPart(p) == s
    ensures forall b | b in p.balances :: GoodBalance(b)
  {
    BalancesOfRead(account, cfg, keys, subs, ReadU32(s[..4]), s[4..], p);
    CountBefore(s, EncodeAll(p.balances, BALANCE_LEAF), PutAll(TailFields(p)));
  }

  lemma MembersRest(account: Bytes32, cfg: EpochConfiguration, keys: seq<byte>,
      list: Option<seq<EncryptedSubmission>>, s: seq<byte>, p: Package)
    requires |s| >= 4 && |keys| <= MAX_KEYS_LEN && (list.Some? ==> |list.value| <= MAX_BATCH_MEMBERS)
    requires MembersFrom(account, cfg, keys, list, s) == Some(p)
    ensures Carries(p, account, cfg, keys) && list == Some(p.submissions) && Encodable(p) && BalancesPart(p) == s
    ensures forall b | b in p.balances :: GoodBalance(b)
  {
    BalancesRead(account, cfg, keys, list.value, s, p);
  }

  lemma {:induction false} ListSize<T>(s: seq<byte>, n: nat, count: nat, dec: seq<byte> -> Option<T>)
    requires |s| == n * count
    ensures var list := DecodeAll(s, n, count, dec); list.Some? ==> |list.value| == count
    decreases count
  {
    if count > 0 {
      assert n * count == n + n * (count - 1);
      ListSize(s[n..], n, count - 1, dec);
    }
  }

  lemma MembersOfRead(c: Crypto, account: Bytes32, cfg: EpochConfiguration, keys: seq<byte>, n: nat, s: seq<byte>,
      p: Package)
    requires |keys| <= MAX_KEYS_LEN && MembersOf(c, account, cfg, keys, n, s) == Some(p)
    ensures Carries(p, account, cfg, keys) && Encodable(p) && |p.submissions| == n
    ensures s == EncodeAll(p.submissions, PUT_SUBMISSION) + BalancesPart(p)
    ensures (forall b | b in p.balances :: GoodBalance(b)) && forall x | x in p.submissions :: Sendable(c, x)
  {
    var list := DecodeAll(s[..689 * n], 689, n, GetSubmission(c));
    ListSize(s[..689 * n], 689, n, GetSubmission(c));
    MembersRest(account, cfg, keys, list, s[689 * n..], p);
    SubmissionsInvert(c);
    ListPart(s, 689, n, PUT_SUBMISSION, GetSubmission(c), p.submissions);
    SendableOnes(c, p.submissions);
  }

  lemma MembersRead(c: Crypto, account: Bytes32, cfg: EpochConfiguration, keys: seq<byte>, s: seq<byte>, p: Package)
    requires |keys| <= MAX_KEYS_LEN && DecodeMembers(c, account, cfg, keys, s) == Some(p)
    ensures Carries(p, account, cfg, keys) && Encodable(p) && MembersPart(p) == s
    ensures (forall b | b in p.balances :: GoodBalance(b)) && forall x | x in p.submissions :: Sendable(c, x)
  {
    MembersOfRead(c, account, cfg, keys, ReadU32(s[..4]), s[4..], p);
    CountBefore(s, EncodeAll(p.submissions, PUT_SUBMISSION), BalancesPart(p));
  }

  lemma HeadRead(bytes: seq<byte>, cfg: EpochConfiguration)
    requires |bytes| >= 300 && bytes[0] == 1 && DecodeConfig(bytes[33..296]) == Some(cfg)
    ensures bytes == [1] + Raw(ReadBytes32(bytes[1..33])) + ConfigBytes(cfg) + Le32(ReadU32(bytes[296..300]))
                     + bytes[300..]
  {
    RawOf(bytes[1..33]);
    ConfigIff(bytes[33..296], cfg);
    CountRead(bytes[296..300]);
    assert bytes == [bytes[0]] + bytes[1..33] + bytes[33..296] + bytes[296..300] + bytes[300..];
  }

  ghost predicate Sent(c: Crypto, p: Package) {
    Encodable(p) && WellTyped(c, p) && forall s | s in p.submissions :: Sendable(c, s)
  }

  lemma KeysRead(c: Crypto, account: Bytes32, cfg: EpochConfiguration, n: nat, s: seq<byte>, p: Package)
    requires DecodeKeys(c, account, cfg, n, s) == Some(p)
    ensures Carries(p, account, cfg, p.keys) && |p.keys| == n && Sent(c, p) && s == p.keys + MembersPart(p)
  {
    MembersRead(c, account, cfg, s[..n], s[n..], p);
    assert s == s[..n] + s[n..];
  }

  lemma PackageRead(c: Crypto, bytes: seq<byte>, p: Package)
    requires DecodePackage(c, bytes) == Some(p)
    ensures Sent(c, p) && bytes == PackageBytes(p)
  {
    var cfg := DecodeConfig(bytes[33..296]).value;
    KeysRead(c, ReadBytes32(bytes[1..33]), cfg, ReadU32(bytes[296..300]), bytes[300..], p);
    HeadRead(bytes, cfg);
  }

  /** A package is received exactly when these are the bytes a package that can be sent is written as. */
  lemma PackageIff(c: Crypto, bytes: seq<byte>, p: Package)
    ensures DecodePackage(c, bytes) == Some(p) <==> Sent(c, p) && bytes == PackageBytes(p)
  {
    if DecodePackage(c, bytes) == Some(p) {
      PackageRead(c, bytes, p);
    } else if Sent(c, p) {
      PackageRoundTrip(c, p);
    }
  }

  // ---- shares ----

  lemma ShareFieldsOf(f: seq<Field>, share: seq<byte>)
    requires |f| == 6 && f[0] == Byte(1) && forall i | 0 <= i < 6 :: KindOf(f[i]) == SHARE_KINDS[i]
    requires N32(f[5]) == |share|
    ensures ShareFields(Share(W(f[2]), W(f[3]), W(f[4]), N64(f[1]), share)) == f
  {
  }

  lemma ShareRead(ok: ShareCheck, s: seq<byte>, x: Share)
    requires DecodeShare(ok, s) == Some(x) && |s| <= MAX_SHARE_LEN
    ensures ShareFits(ok, x) && ShareBytes(x) == s
  {
    ShareSize();
    TakePrefix(SHARE_KINDS, s[..109], s[109..]);
    assert s == s[..109] + s[109..];
    assert s[..109][0] == s[0];
    var f := ReadWhole(SHARE_KINDS, s[..109]);
    ShareFieldsOf(f, s[109..]);
  }

  lemma TakeShareRead(ok: ShareCheck, s: seq<byte>, x: Share, rest: seq<byte>)
    requires TakeShare(ok, s) == Some((x, rest))
    ensures ShareFits(ok, x) && s == PutShare(x) + rest
  {
    var n: int := ReadU32(s[..4]);
    ShareRead(ok, s[4..4 + n], x);
    CountRead(s[..4]);
    Cut(s, 4, 4 + n);
  }

  lemma TakeEvidenceRead(ok: ShareCheck, s: seq<byte>, e: Evidence, rest: seq<byte>)
    requires TakeEvidence(ok, s) == Some((e, rest))
    ensures EvidenceFits(ok, e) && s == PutEvidence(e) + rest
  {
    var s1 := TakeShare(ok, s).value.1;
    TakeShareRead(ok, s, e.first, s1);
    TakeShareRead(ok, s1, e.second, rest);
    Assoc(PutShare(e.first), PutShare(e.second), rest);
  }

  /** What `take` returns was written by `put`, in front of what is left, and is fit to be. */
  ghost predicate Undoes<T(!new)>(put: T -> seq<byte>, fit: T -> bool, take: seq<byte> -> Option<(T, seq<byte>)>) {
    forall s | take(s).Some? :: s == put(take(s).value.0) + take(s).value.1 && fit(take(s).value.0)
  }

  lemma {:induction false} ManyRead<T(!new)>(put: T -> seq<byte>, fit: T -> bool,
      take: seq<byte> -> Option<(T, seq<byte>)>, count: nat, s: seq<byte>, xs: seq<T>, rest: seq<byte>)
    requires Undoes(put, fit, take) && TakeMany(take, count, s) == Some((xs, rest))
    ensures |xs| == count && s == EncodeAll(xs, put) + rest && forall x | x in xs :: fit(x)
  {
    if count > 0 {
      var x, s1 := take(s).value.0, take(s).value.1;
      ManyRead(put, fit, take, count - 1, s1, xs[1..], rest);
      Assoc(put(x), EncodeAll(xs[1..], put), rest);
    }
  }

  function Fit(ok: ShareCheck): Evidence -> bool { e => EvidenceFits(ok, e) }

  const PUT_EVIDENCE: Evidence -> seq<byte> := e => PutEvidence(e)

  lemma TakeUndoesPut(ok: ShareCheck)
    ensures Undoes(PUT_EVIDENCE, Fit(ok), TakeOne(ok))
  {
    forall s | TakeOne(ok)(s).Some?
      ensures s == PUT_EVIDENCE(TakeOne(ok)(s).value.0) + TakeOne(ok)(s).value.1 && Fit(ok)(TakeOne(ok)(s).value.0)
    {
      TakeEvidenceRead(ok, s, TakeOne(ok)(s).value.0, TakeOne(ok)(s).value.1);
    }
  }

  lemma {:induction false} PutAsMany(evs: seq<Evidence>)
    ensures PutEvidences(evs) == EncodeAll(evs, PUT_EVIDENCE)
  {
    if evs != [] { PutAsMany(evs[1..]); }
  }

  lemma TakeEvidencesRead(ok: ShareCheck, count: nat, s: seq<byte>, evs: seq<Evidence>, rest: seq<byte>)
    requires TakeEvidences(ok, count, s) == Some((evs, rest))
    ensures |evs| == count && s == PutEvidences(evs) + rest && forall e | e in evs :: Fit(ok)(e)
  {
    TakeUndoesPut(ok);
    ManyRead(PUT_EVIDENCE, Fit(ok), TakeOne(ok), count, s, evs, rest);
    PutAsMany(evs);
  }

  // ---- the request ----

  lemma EntryRead(s: seq<byte>)
    requires |s| == 48
    ensures L.PUT_BALANCE(L.ReadBalance(s).value) == s
  {
    RawOf(s[..32]);
    LeOf(s[32..40]);
    LeOf(s[40..48]);
    Cut(s, 32, 40);
    assert s[40..] == s[40..48];
  }

  lemma EntriesInvert()
    ensures Inverts(48, L.PUT_BALANCE, L.GET_BALANCE)
  {
    forall s: seq<byte> | |s| == 48 && L.GET_BALANCE(s).Some? ensures L.PUT_BALANCE(L.GET_BALANCE(s).value) == s {
      EntryRead(s);
    }
  }

  ghost predicate CanonicalResidual(r: L.Residual) {
    ReadResidual(L.ResidualSide(r), L.ResidualLots(r)) == Some(r)
  }

  lemma RequestTailOf(r: Request, f: seq<Field>)
    requires |f| == 8 && forall i | 0 <= i < 8 :: KindOf(f[i]) == REQUEST_TAIL_KINDS[i]
    requires r.preBalanceRoot == W(f[0]) && r.postBalanceRoot == W(f[1]) && r.resultRoot == W(f[4])
    requires r.resultCommitment == W(f[5]) && r.settlementNonce == W(f[6]) && r.settlementDigest == W(f[7])
    requires ReadResidual(B(f[2]), N32(f[3])) == Some(r.residual)
    ensures RequestTail(r) == f && CanonicalResidual(r.residual)
  {
  }

  lemma RequestTailRead(p: Package, evs: seq<Evidence>, post: seq<(Bytes32, L.Balance)>, s: seq<byte>, r: Request)
    requires |s| == 197 && DecodeRequestTail(p, evs, post, s) == Some(r)
    ensures r.package == p && r.evidence == evs && r.post == post
    ensures PutAll(RequestTail(r)) == s && CanonicalResidual(r.residual)
  {
    RequestTailSize();
    var f := TakeAll(REQUEST_TAIL_KINDS, s);
    KindsAt(f, REQUEST_TAIL_KINDS);
    PutTakeAll(REQUEST_TAIL_KINDS, s);
    RequestTailOf(r, f);
  }

  lemma PostRest(p: Package, evs: seq<Evidence>, list: Option<seq<(Bytes32, L.Balance)>>, s: seq<byte>, r: Request)
    requires |s| == 197 && PostFrom(p, evs, list, s) == Some(r)
    ensures r.package == p && r.evidence == evs && list == Some(r.post) && CanonicalResidual(r.residual)
    ensures PutAll(RequestTail(r)) == s
  {
    RequestTailRead(p, evs, list.value, s, r);
  }

  lemma PostOfRead(p: Package, evs: seq<Evidence>, n: nat, s: seq<byte>, r: Request)
    requires PostOf(p, evs, n, s) == Some(r)
    ensures r.package == p && r.evidence == evs && |r.post| == |p.balances| == n <= MAX_BATCH_MEMBERS
    ensures CanonicalResidual(r.residual) && s == EncodeAll(r.post, L.PUT_BALANCE) + PutAll(RequestTail(r))
  {
    PostRest(p, evs, DecodeAll(s[..48 * n], 48, n, L.GET_BALANCE), s[48 * n..], r);
    EntriesInvert();
    ListPart(s, 48, n, L.PUT_BALANCE, L.GET_BALANCE, r.post);
  }

  lemma PostRead(p: Package, evs: seq<Evidence>, s: seq<byte>, r: Request)
    requires DecodePost(p, evs, s) == Some(r)
    ensures r.package == p && r.evidence == evs && |r.post| == |p.balances| && |r.post| <= MAX_BATCH_MEMBERS
    ensures CanonicalResidual(r.residual)
    ensures Le32(|r.post|) + EncodeAll(r.post, L.PUT_BALANCE) + PutAll(RequestTail(r)) == s
  {
    PostOfRead(p, evs, ReadU32(s[..4]), s[4..], r);
    CountBefore(s, EncodeAll(r.post, L.PUT_BALANCE), PutAll(RequestTail(r)));
  }

  lemma EvidenceRead(c: Crypto, ok: ShareCheck, p: Package, s: seq<byte>, r: Request)
    requires DecodeEvidencePart(ok, p, s) == Some(r) && Sent(c, p)
    ensures r.package == p && RequestEncodable(r) && Consistent(c, ok, r) && s == EvidencePart(r)
  {
    var n: int := ReadU32(s[..4]);
    var read := TakeEvidences(ok, n, s[4..]).value;
    TakeEvidencesRead(ok, n, s[4..], read.0, read.1);
    PostRead(p, read.0, read.1, r);
    CountRead(s[..4]);
    assert s == s[..4] + s[4..];
  }

  lemma RequestCut(bytes: seq<byte>, n: nat)
    requires |bytes| >= 5 + n
    ensures bytes == ([bytes[0]] + bytes[1..5]) + (bytes[5..5 + n] + bytes[5 + n..])
  {
  }

  lemma PartsRead(c: Crypto, ok: ShareCheck, pkg: seq<byte>, rest: seq<byte>, r: Request)
    requires DecodeParts(c, ok, pkg, rest) == Some(r)
    ensures RequestEncodable(r) && Consistent(c, ok, r) && pkg == PackageBytes(r.package) && rest == EvidencePart(r)
  {
    var p := DecodePackage(c, pkg).value;
    PackageRead(c, pkg, p);
    EvidenceRead(c, ok, p, rest, r);
  }

  lemma RequestJoined(bytes: seq<byte>, n: nat, pkg: seq<byte>, rest: seq<byte>)
    requires |bytes| >= 5 + n && bytes[0] == 1 && n == ReadU32(bytes[1..5])
    requires bytes[5..5 + n] == pkg && bytes[5 + n..] == rest
    ensures |pkg| <= U32_MAX && bytes == ([1] + Le32(|pkg|)) + (pkg + rest)
  {
    CountRead(bytes[1..5]);
    RequestCut(bytes, n);
  }

  lemma RequestRead(c: Crypto, ok: ShareCheck, bytes: seq<byte>, r: Request)
    requires DecodeRequest(c, ok, bytes) == Some(r)
    ensures RequestEncodable(r) && Consistent(c, ok, r) && |PackageBytes(r.package)| <= U32_MAX
    ensures bytes == RequestBytes(r)
  {
    var n: int := ReadU32(bytes[1..5]);
    PartsRead(c, ok, bytes[5..5 + n], bytes[5 + n..], r);
    RequestJoined(bytes, n, PackageBytes(r.package), EvidencePart(r));
  }

  /** A settlement request is received exactly when these are the bytes a consistent request is written as. */
  lemma RequestIff(c: Crypto, ok: ShareCheck, bytes: seq<byte>, r: Request)
    ensures DecodeRequest(c, ok, bytes) == Some(r)
            <==> && RequestEncodable(r) && Consistent(c, ok, r) && |PackageBytes(r.package)| <= U32_MAX
                 && bytes == RequestBytes(r)
  {
    if DecodeRequest(c, ok, bytes) == Some(r) {
      RequestRead(c, ok, bytes, r);
    } else if RequestEncodable(r) && Consistent(c, ok, r) {
      RequestRoundTrip(c, ok, r);
    }
  }
}
