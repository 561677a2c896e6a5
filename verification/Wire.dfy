/** The signed payloads and on-chain accounts as byte strings, and what their digests determine. */
module Wire {
  import opened Bytes
  import opened Layout

  datatype Keypers = Keypers(k0: Bytes32, k1: Bytes32, k2: Bytes32)

  datatype EpochConfiguration = EpochConfiguration(
    pool: Bytes32, epochId: Bytes32, baseMint: Bytes32, quoteMint: Bytes32, baseLot: u64, quotePerLot: u64,
    minimum: u32, lockThreshold: byte, settlementThreshold: byte, keypers: Keypers, lockDeadline: i64,
    abortDeadline: i64)

  datatype LockPayload = LockPayload(
    epochAccount: Bytes32, configurationHash: Bytes32, preBalanceRoot: Bytes32, memberRoot: Bytes32,
    memberCount: u32, lockDeadline: i64, lockNonce: Bytes32)

  datatype SettlementPayload = SettlementPayload(
    epochAccount: Bytes32, lockDigest: Bytes32, resultCommitment: Bytes32, residualSide: byte, residualLots: u32,
    baseLot: u64, quotePerLot: u64, baseMint: Bytes32, quoteMint: Bytes32, poolBaseVault: Bytes32,
    poolQuoteVault: Bytes32, venueBase: Bytes32, venueQuote: Bytes32, venueAuthority: Bytes32, settlementNonce: Bytes32)

  // "KAGEB_CONFIG_V1\0"
  const CONFIG_DOMAIN: seq<byte> := [75, 65, 71, 69, 66, 95, 67, 79, 78, 70, 73, 71, 95, 86, 49, 0]
  const LOCK_DOMAIN: seq<byte> := [75, 65, 71, 69, 66, 95, 76, 79, 67, 75, 95, 86, 49, 0]  // "KAGEB_LOCK_V1\0"
  // "KAGEB_SETTLEMENT_V1\0"
  const SETTLEMENT_DOMAIN: seq<byte> := [75, 65, 71, 69, 66, 95, 83, 69, 84, 84, 76, 69, 77, 69, 78, 84, 95, 86, 49, 0]

  // ---- configuration ----

  const CONFIG_KINDS := [KByte, KWord, KWord, KWord, KWord, KU64, KU64, KU32, KByte, KByte, KWord, KWord, KWord, KI64,
                         KI64]

  function ConfigFields(c: EpochConfiguration): (r: seq<Field>)
    ensures KindsOf(r) == CONFIG_KINDS
  {
    [Byte(1), Word(c.pool), Word(c.epochId), Word(c.baseMint), Word(c.quoteMint), U64(c.baseLot), U64(c.quotePerLot),
     U32(c.minimum), Byte(c.lockThreshold), Byte(c.settlementThreshold),
     Word(c.keypers.k0), Word(c.keypers.k1), Word(c.keypers.k2), I64(c.lockDeadline), I64(c.abortDeadline)]
  }

  function ConfigBytes(c: EpochConfiguration): seq<byte> { PutAll(ConfigFields(c)) }

  function ConfigDigest(sha: Sha, c: EpochConfiguration): Bytes32 { sha(CONFIG_DOMAIN + ConfigBytes(c)) }

  lemma ConfigSize()
    ensures Size(CONFIG_KINDS) == 263
  {
    var tail := [KWord, KWord, KWord, KI64, KI64];
    SizeFive(KWord, KWord, KWord, KI64, KI64, []);
    SizeFive(KU64, KU64, KU32, KByte, KByte, tail);
    SizeFive(KByte, KWord, KWord, KWord, KWord, [KU64, KU64, KU32, KByte, KByte] + tail);
    assert tail + [] == tail;
    assert CONFIG_KINDS == [KByte, KWord, KWord, KWord, KWord] + ([KU64, KU64, KU32, KByte, KByte] + tail);
  }

  function ConfigFrom(f: seq<Field>): EpochConfiguration
    requires |f| == 15
  {
    EpochConfiguration(W(f[1]), W(f[2]), W(f[3]), W(f[4]), N64(f[5]), N64(f[6]), N32(f[7]), B(f[8]), B(f[9]),
                       Keypers(W(f[10]), W(f[11]), W(f[12])), Z64(f[13]), Z64(f[14]))
  }

  function DecodeConfig(s: seq<byte>): Option<EpochConfiguration> {
    if |s| != 263 || s[0] != 1 then None
    else
      ConfigSize();
      Some(ConfigFrom(TakeAll(CONFIG_KINDS, s)))
  }

  /** Reading back a field list that starts with the version byte. */
  lemma VersionedRoundTrip(fs: seq<Field>)
    requires fs != [] && fs[0] == Byte(1)
    ensures |PutAll(fs)| == Size(KindsOf(fs)) > 0 && PutAll(fs)[0] == 1
    ensures TakeAll(KindsOf(fs), PutAll(fs)) == fs
  {
    PutSize(fs);
    RoundTrip(fs, []);
    assert PutAll(fs) + [] == PutAll(fs);
    assert PutAll(fs)[0] == Put(fs[0])[0];
  }

  lemma ConfigRoundTrip(c: EpochConfiguration)
    ensures |ConfigBytes(c)| == 263
    ensures DecodeConfig(ConfigBytes(c)) == Some(c)
  {
    ConfigSize();
    VersionedRoundTrip(ConfigFields(c));
  }

  // ---- lock payload ----

  const LOCK_KINDS := [KByte, KWord, KWord, KWord, KWord, KU32, KI64, KWord]

  function LockFields(p: LockPayload): (r: seq<Field>)
    ensures KindsOf(r) == LOCK_KINDS
  {
    [Byte(1), Word(p.epochAccount), Word(p.configurationHash), Word(p.preBalanceRoot), Word(p.memberRoot),
     U32(p.memberCount), I64(p.lockDeadline), Word(p.lockNonce)]
  }

  function LockBytes(p: LockPayload): seq<byte> { PutAll(LockFields(p)) }

  function LockDigest(sha: Sha, p: LockPayload): Bytes32 { sha(LOCK_DOMAIN + LockBytes(p)) }

  lemma LockSize()
    ensures Size(LOCK_KINDS) == 173
  {
    SizeFirst(KWord, []);
    SizeFirst(KI64, [KWord]);
    SizeFirst(KU32, [KI64, KWord]);
    assert [KWord] + [] == [KWord] && [KI64] + [KWord] == [KI64, KWord]
           && [KU32] + [KI64, KWord] == [KU32, KI64, KWord];
    SizeFive(KByte, KWord, KWord, KWord, KWord, [KU32, KI64, KWord]);
    assert LOCK_KINDS == [KByte, KWord, KWord, KWord, KWord] + [KU32, KI64, KWord];
  }

  function LockFrom(f: seq<Field>): LockPayload
    requires |f| == 8
  {
    LockPayload(W(f[1]), W(f[2]), W(f[3]), W(f[4]), N32(f[5]), Z64(f[6]), W(f[7]))
  }

  function DecodeLock(s: seq<byte>): Option<LockPayload> {
    if |s| != 173 || s[0] != 1 then None
    else
      LockSize();
      Some(LockFrom(TakeAll(LOCK_KINDS, s)))
  }

  lemma LockRoundTrip(p: LockPayload)
    ensures |LockBytes(p)| == 173
    ensures DecodeLock(LockBytes(p)) == Some(p)
  {
    LockSize();
    VersionedRoundTrip(LockFields(p));
  }

  // ---- settlement payload ----

  const SETTLEMENT_KINDS := [KByte, KWord, KWord, KWord, KByte, KU32, KU64, KU64, KWord, KWord, KWord, KWord, KWord,
                             KWord, KWord, KWord]

  function SettlementFields(p: SettlementPayload): (r: seq<Field>)
    ensures KindsOf(r) == SETTLEMENT_KINDS
  {
    [Byte(1), Word(p.epochAccount), Word(p.lockDigest), Word(p.resultCommitment), Byte(p.residualSide),
     U32(p.residualLots),
     U64(p.baseLot), U64(p.quotePerLot), Word(p.baseMint), Word(p.quoteMint), Word(p.poolBaseVault),
     Word(p.poolQuoteVault),
     Word(p.venueBase), Word(p.venueQuote), Word(p.venueAuthority), Word(p.settlementNonce)]
  }

  function SettlementBytes(p: SettlementPayload): seq<byte> { PutAll(SettlementFields(p)) }

  function SettlementDigest(sha: Sha, p: SettlementPayload): Bytes32 { sha(SETTLEMENT_DOMAIN + SettlementBytes(p)) }

  const SETTLEMENT_KEYS := [KWord, KWord, KWord, KWord, KWord, KWord]
  const SETTLEMENT_AMOUNTS := [KU32, KU64, KU64, KWord, KWord]

  lemma SettlementKeysSize()
    ensures Size(SETTLEMENT_KEYS) == 192
  {
    SizeFirst(KWord, []);
    assert [KWord] + [] == [KWord];
    SizeFive(KWord, KWord, KWord, KWord, KWord, [KWord]);
    assert SETTLEMENT_KEYS == [KWord, KWord, KWord, KWord, KWord] + [KWord];
  }

  lemma SettlementSize()
    ensures Size(SETTLEMENT_KINDS) == 374
  {
    SettlementKeysSize();
    SizeFive(KU32, KU64, KU64, KWord, KWord, SETTLEMENT_KEYS);
    SizeFive(KByte, KWord, KWord, KWord, KByte, SETTLEMENT_AMOUNTS + SETTLEMENT_KEYS);
    assert SETTLEMENT_KINDS == [KByte, KWord, KWord, KWord, KByte] + (SETTLEMENT_AMOUNTS + SETTLEMENT_KEYS);
  }

  function SettlementFrom(f: seq<Field>): SettlementPayload
    requires |f| == 16
  {
    SettlementPayload(W(f[1]), W(f[2]), W(f[3]), B(f[4]), N32(f[5]), N64(f[6]), N64(f[7]), W(f[8]), W(f[9]), W(f[10]),
                      W(f[11]), W(f[12]), W(f[13]), W(f[14]), W(f[15]))
  }

  function DecodeSettlement(s: seq<byte>): Option<SettlementPayload> {
    if |s| != 374 || s[0] != 1 then None
    else
      SettlementSize();
      Some(SettlementFrom(TakeAll(SETTLEMENT_KINDS, s)))
  }

  lemma SettlementRoundTrip(p: SettlementPayload)
    ensures |SettlementBytes(p)| == 374
    ensures DecodeSettlement(SettlementBytes(p)) == Some(p)
  {
    SettlementSize();
    VersionedRoundTrip(SettlementFields(p));
  }

  // ---- what a digest determines ----

  lemma SameTail(domain: seq<byte>, a: seq<byte>, b: seq<byte>)
    requires domain + a == domain + b
    ensures a == b
  {
    var s := domain + a;
    assert a == s[|domain|..] && b == s[|domain|..];
  }

  lemma ConfigDigestInjective(sha: Sha, c: EpochConfiguration, d: EpochConfiguration)
    requires Sound(sha, iset{CONFIG_DOMAIN + ConfigBytes(c), CONFIG_DOMAIN + ConfigBytes(d)})
    requires ConfigDigest(sha, c) == ConfigDigest(sha, d)
    ensures c == d
  {
    SameTail(CONFIG_DOMAIN, ConfigBytes(c), ConfigBytes(d));
    ConfigRoundTrip(c);
    ConfigRoundTrip(d);
  }

  lemma LockDigestInjective(sha: Sha, p: LockPayload, q: LockPayload)
    requires Sound(sha, iset{LOCK_DOMAIN + LockBytes(p), LOCK_DOMAIN + LockBytes(q)})
    requires LockDigest(sha, p) == LockDigest(sha, q)
    ensures p == q
  {
    SameTail(LOCK_DOMAIN, LockBytes(p), LockBytes(q));
    LockRoundTrip(p);
    LockRoundTrip(q);
  }

  lemma SettlementDigestInjective(sha: Sha, p: SettlementPayload, q: SettlementPayload)
    requires Sound(sha, iset{SETTLEMENT_DOMAIN + SettlementBytes(p), SETTLEMENT_DOMAIN + SettlementBytes(q)})
    requires SettlementDigest(sha, p) == SettlementDigest(sha, q)
    ensures p == q
  {
    SameTail(SETTLEMENT_DOMAIN, SettlementBytes(p), SettlementBytes(q));
    SettlementRoundTrip(p);
    SettlementRoundTrip(q);
  }

  /** A signature on a lock digest never approves a settlement, and the other way round. */
  lemma LockIsNotSettlement(sha: Sha, p: LockPayload, q: SettlementPayload)
    requires Sound(sha, iset{LOCK_DOMAIN + LockBytes(p), SETTLEMENT_DOMAIN + SettlementBytes(q)})
    ensures LockDigest(sha, p) != SettlementDigest(sha, q)
  {
    LockRoundTrip(p);
    SettlementRoundTrip(q);
    assert |LOCK_DOMAIN + LockBytes(p)| != |SETTLEMENT_DOMAIN + SettlementBytes(q)|;
  }
}
