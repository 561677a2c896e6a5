/** Every decoder accepts exactly the bytes its encoder writes, and nothing else. */
module Canonical {
  import opened Bytes
  import opened Layout
  import opened Wire
  import opened ChainState
  import opened Submission
  import opened Quorum

  // ---- numbers and fields ----

  lemma {:induction false} LeOf(s: seq<byte>)
    ensures Le(FromLe(s), |s|) == s
  {
    if s != [] {
      LeOf(s[1..]);
      assert FromLe(s) % 256 == s[0] as int && FromLe(s) / 256 == FromLe(s[1..]);
      assert s == [s[0]] + s[1..];
    }
  }

  lemma {:induction false} BeOf(s: seq<byte>)
    ensures Be(FromBe(s), |s|) == s
  {
    if s != [] {
      var n := |s| - 1;
      BeOf(s[..n]);
      assert FromBe(s) % 256 == s[n] as int && FromBe(s) / 256 == FromBe(s[..n]);
      assert s == s[..n] + [s[n]];
    }
  }

  lemma RawOf(s: seq<byte>)
    requires |s| == 32
    ensures Raw(ReadBytes32(s)) == s
  {
    BeOf(s);
  }

  lemma PutTake(k: Kind, s: seq<byte>)
    requires |s| == Width(k)
    ensures Put(Take(k, s)) == s
  {
    match k
    case KByte => assert s == [s[0]];
    case KWord => RawOf(s);
    case KU32 => LeOf(s);
    case KU64 => LeOf(s);
    case KI64 => LeOf(s);
  }

  /** Writing back what was read. */
  lemma {:induction false} PutTakeAll(kinds: seq<Kind>, s: seq<byte>)
    requires |s| == Size(kinds)
    ensures PutAll(TakeAll(kinds, s)) == s
  {
    if kinds == [] {
      assert s == [];
    } else {
      var n := Width(kinds[0]);
      PutTake(kinds[0], s[..n]);
      PutTakeAll(kinds[1..], s[n..]);
      var fs := TakeAll(kinds, s);
      assert fs[1..] == TakeAll(kinds[1..], s[n..]);
      assert s == s[..n] + s[n..];
    }
  }

  /** A field list that starts with the version byte is read only off that version. */
  lemma VersionFirst(kinds: seq<Kind>, s: seq<byte>)
    requires kinds != [] && kinds[0] == KByte && |s| == Size(kinds) && s[0] == 1
    ensures TakeAll(kinds, s)[0] == Byte(1)
  {
    assert s[..1][0] == s[0];
  }

  lemma ReadWhole(kinds: seq<Kind>, s: seq<byte>) returns (f: seq<Field>)
    requires kinds != [] && kinds[0] == KByte && |s| == Size(kinds) && s[0] == 1
    ensures f == TakeAll(kinds, s) && PutAll(f) == s
    ensures |f| == |kinds| && f[0] == Byte(1) && forall i | 0 <= i < |f| :: KindOf(f[i]) == kinds[i]
  {
    f := TakeAll(kinds, s);
    VersionFirst(kinds, s);
    PutTakeAll(kinds, s);
    KindsAt(f, kinds);
  }

  lemma KindsAt(f: seq<Field>, kinds: seq<Kind>)
    requires KindsOf(f) == kinds
    ensures |f| == |kinds| && forall i | 0 <= i < |f| :: KindOf(f[i]) == kinds[i]
  {
  }

  // ---- payloads ----

  lemma ConfigFieldsOf(f: seq<Field>)
    requires |f| == 15 && f[0] == Byte(1) && forall i | 0 <= i < 15 :: KindOf(f[i]) == CONFIG_KINDS[i]
    ensures ConfigFields(ConfigFrom(f)) == f
  {
  }

  lemma ConfigIff(s: seq<byte>, c: EpochConfiguration)
    ensures DecodeConfig(s) == Some(c) <==> s == ConfigBytes(c)
  {
    ConfigRoundTrip(c);
    ConfigSize();
    if DecodeConfig(s) == Some(c) {
      var f := ReadWhole(CONFIG_KINDS, s);
      ConfigFieldsOf(f);
    }
  }

  lemma LockFieldsOf(f: seq<Field>)
    requires |f| == 8 && f[0] == Byte(1) && forall i | 0 <= i < 8 :: KindOf(f[i]) == LOCK_KINDS[i]
    ensures LockFields(LockFrom(f)) == f
  {
  }

  lemma LockIff(s: seq<byte>, p: LockPayload)
    ensures DecodeLock(s) == Some(p) <==> s == LockBytes(p)
  {
    LockRoundTrip(p);
    LockSize();
    if DecodeLock(s) == Some(p) {
      var f := ReadWhole(LOCK_KINDS, s);
      LockFieldsOf(f);
    }
  }

  lemma SettlementFieldsOf(f: seq<Field>)
    requires |f| == 16 && f[0] == Byte(1) && forall i | 0 <= i < 16 :: KindOf(f[i]) == SETTLEMENT_KINDS[i]
    ensures SettlementFields(SettlementFrom(f)) == f
  {
  }

  lemma SettlementIff(s: seq<byte>, p: SettlementPayload)
    ensures DecodeSettlement(s) == Some(p) <==> s == SettlementBytes(p)
  {
    SettlementRoundTrip(p);
    SettlementSize();
    if DecodeSettlement(s) == Some(p) {
      var f := ReadWhole(SETTLEMENT_KINDS, s);
      SettlementFieldsOf(f);
    }
  }

  // ---- accounts ----

  lemma AccountCut(s: seq<byte>, n: nat)
    requires 16 + n <= |s|
    ensures s == s[..8] + s[8..16] + s[16..16 + n] + s[16 + n..] && s[16..] == s[16..16 + n] + s[16 + n..]
  {
  }

  lemma BodyRead(kinds: seq<Kind>, body: seq<byte>, back: seq<byte>)
    requires |body| == Size(kinds)
    ensures PutAll(TakeAll(kinds, body + back)) == body
  {
    TakePrefix(kinds, body, back);
    PutTakeAll(kinds, body);
  }

  lemma AccountWhole(s: seq<byte>, disc: seq<byte>, kinds: seq<Kind>, pad: nat)
    requires |s| == STATE_LEN && |disc| == 8 && 16 + Size(kinds) + pad == STATE_LEN
    requires s[..8] == disc && s[STATE_LEN - pad..] == Zeros(pad)
    ensures Account(disc, s[8..16], TakeAll(kinds, s[16..]), pad) == s
  {
    var n := Size(kinds);
    AccountCut(s, n);
    BodyRead(kinds, s[16..16 + n], s[16 + n..]);
  }

  /** Fields are read off the front alone. */
  lemma {:induction false} TakePrefix(kinds: seq<Kind>, front: seq<byte>, back: seq<byte>)
    requires |front| == Size(kinds)
    ensures TakeAll(kinds, front + back) == TakeAll(kinds, front)
  {
    if kinds != [] {
      var k, rest, n := kinds[0], kinds[1..], Width(kinds[0]);
      var a, b := front[..n], front[n..];
      assert kinds == [k] + rest && front == a + b;
      TakePrefix(rest, b, back);
      TakeNext(k, rest, a, b);
      TakeNext(k, rest, a, b + back);
      Assoc(a, b, back);
    }
  }

  lemma EpochFieldsOf(f: seq<Field>, small: seq<byte>, e: EpochState)
    requires KindsOf(f) == EPOCH_KINDS && |small| == 8 && EpochOf(small, f) == Some(e)
    ensures f == EpochFields(e) && small == EpochSmall(e)
  {
    KindsAt(f, EPOCH_KINDS);
    assert small[4..][0] == 0 && small[4..][1] == 0 && small[4..][2] == 0 && small[4..][3] == 0;
  }

  lemma EpochWritten(s: seq<byte>, small: seq<byte>, f: seq<Field>, e: EpochState)
    requires |small| == 8 && KindsOf(f) == EPOCH_KINDS && EpochOf(small, f) == Some(e)
    requires s == Account(EPOCH_DISCRIMINATOR, small, f, 4)
    ensures s == EpochBytes(e)
  {
    EpochFieldsOf(f, small, e);
  }

  lemma EpochWhole(s: seq<byte>)
    requires |s| == STATE_LEN && s[..8] == EPOCH_DISCRIMINATOR && s[380..] == Zeros(4)
    ensures Size(EPOCH_KINDS) == 364
    ensures s == Account(EPOCH_DISCRIMINATOR, s[8..16], TakeAll(EPOCH_KINDS, s[16..]), 4)
  {
    EpochSize();
    AccountWhole(s, EPOCH_DISCRIMINATOR, EPOCH_KINDS, 4);
  }

  lemma EpochGot(s: seq<byte>, e: EpochState)
    requires DecodeEpoch(s) == Some(e)
    ensures |s| == STATE_LEN && s[..8] == EPOCH_DISCRIMINATOR && s[380..] == Zeros(4)
    ensures Size(EPOCH_KINDS) == 364 && EpochOf(s[8..16], TakeAll(EPOCH_KINDS, s[16..])) == Some(e)
  {
    EpochSize();
  }

  lemma EpochRead(s: seq<byte>, e: EpochState)
    requires DecodeEpoch(s) == Some(e)
    ensures s == EpochBytes(e)
  {
    EpochGot(s, e);
    EpochWhole(s);
    EpochWritten(s, s[8..16], TakeAll(EPOCH_KINDS, s[16..]), e);
  }

  lemma EpochIff(s: seq<byte>, e: EpochState)
    ensures DecodeEpoch(s) == Some(e) <==> s == EpochBytes(e)
  {
    EpochRoundTrip(e);
    if DecodeEpoch(s) == Some(e) { EpochRead(s, e); }
  }

  lemma PoolFieldsOf(f: seq<Field>, small: seq<byte>, p: PoolState)
    requires KindsOf(f) == POOL_KINDS && |small| == 8 && PoolOf(small, f) == Some(p)
    ensures f == PoolFields(p) && small == PoolSmall(p)
  {
    KindsAt(f, POOL_KINDS);
    assert small[5..][0] == 0 && small[5..][1] == 0 && small[5..][2] == 0;
  }

  lemma PoolIff(s: seq<byte>, p: PoolState)
    ensures DecodePool(s) == Some(p) <==> s == PoolBytes(p)
  {
    PoolRoundTrip(p);
    PoolSize();
    if DecodePool(s) == Some(p) {
      PoolFieldsOf(TakeAll(POOL_KINDS, s[16..]), s[8..16], p);
      AccountWhole(s, POOL_DISCRIMINATOR, POOL_KINDS, 8);
    }
  }

  // ---- submissions ----

  lemma AuthFieldsOf(f: seq<Field>)
    requires |f| == 11 && forall i | 0 <= i < 11 :: KindOf(f[i]) == AUTH_KINDS[i]
    ensures AuthFields(AuthFrom(f)) == f
  {
  }

  lemma AuthIff(c: Crypto, s: seq<byte>, a: Authorization)
    ensures DecodeAuth(c, s) == Some(a)
            <==> s == AuthBytes(a) && a.version == 1 && c.validKey(a.tradingKey) && c.validKey(a.operatorKey)
  {
    AuthRoundTrip(c, a);
    AuthSize();
    if DecodeAuth(c, s) == Some(a) {
      var f := ReadWhole(AUTH_KINDS, s);
      AuthFieldsOf(f);
    }
  }

  lemma SubmissionCut(s: seq<byte>)
    requires |s| == 689
    ensures s == s[..249] + s[249..593] + s[593..625] + (s[625..657] + s[657..689])
  {
  }

  lemma SubmissionRead(c: Crypto, s: seq<byte>, x: EncryptedSubmission)
    requires DecodeSubmission(c, s) == Some(x)
    ensures s == SubmissionBytes(x) && Sendable(c, x)
  {
    AuthIff(c, s[..249], x.auth);
    RawOf(s[593..625]);
    RawOf(s[625..657]);
    RawOf(s[657..689]);
    SubmissionCut(s);
  }

  lemma SubmissionIff(c: Crypto, s: seq<byte>, x: EncryptedSubmission)
    ensures DecodeSubmission(c, s) == Some(x) <==> s == SubmissionBytes(x) && Sendable(c, x)
  {
    if DecodeSubmission(c, s) == Some(x) {
      SubmissionRead(c, s, x);
    } else if Sendable(c, x) {
      SubmissionRoundTrip(c, x);
    }
  }

  // ---- approvals ----

  /** The one header a verifier instruction may have: one signature, its three parts in this instruction at the offsets
      48, 16 and 112, over a message of 32 bytes. */
  const STRICT_HEADER: seq<byte> := [1, 0, 48, 0, 255, 255, 16, 0, 255, 255, 112, 0, 32, 0, 255, 255]

  ghost predicate StrictData(data: seq<byte>, signer: Bytes32, digest: Bytes32) {
    exists signature: seq<byte> | |signature| == 64 :: data == STRICT_HEADER + Raw(signer) + signature + Raw(digest)
  }

  lemma HeaderOf(d: seq<byte>)
    requires |d| == 144
    ensures d[..16] == STRICT_HEADER
            <==> d[0] == 1 && d[1] == 0 && U16At(d, 2) == 48 && U16At(d, 4) == 0xFFFF && U16At(d, 6) == 16
                 && U16At(d, 8) == 0xFFFF && U16At(d, 10) == 112 && U16At(d, 12) == 32 && U16At(d, 14) == 0xFFFF
  {
  }

  lemma StrictParts(key: seq<byte>, signature: seq<byte>, digest: seq<byte>)
    requires |key| == 32 && |signature| == 64 && |digest| == 32
    ensures var d := STRICT_HEADER + key + signature + digest;
            |d| == 144 && d[..16] == STRICT_HEADER && d[16..48] == key && d[112..144] == digest
  {
  }

  lemma ReadRaw(x: Bytes32)
    ensures ReadBytes32(Raw(x)) == x
  {
  }

  /** An instruction counts as an approval exactly when it is laid out so, for this key and this digest. */
  lemma ApprovesIff(verifier: Bytes32, ix: Instruction, digest: Bytes32, signer: Bytes32)
    ensures Approves(verifier, ix, digest, signer)
            <==> ix.program == verifier && ix.accounts == 0 && StrictData(ix.data, signer, digest)
  {
    var d := ix.data;
    if Approves(verifier, ix, digest, signer) {
      HeaderOf(d);
      RawOf(d[16..48]);
      RawOf(d[112..144]);
      assert d == d[..16] + d[16..48] + d[48..112] + d[112..144];
      assert |d[48..112]| == 64;
    }
    if ix.program == verifier && ix.accounts == 0 && StrictData(d, signer, digest) {
      var signature: seq<byte> :| |signature| == 64 && d == STRICT_HEADER + Raw(signer) + signature + Raw(digest);
      StrictParts(Raw(signer), signature, Raw(digest));
      HeaderOf(d);
      ReadRaw(signer);
      ReadRaw(digest);
    }
  }
}
