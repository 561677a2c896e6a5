/** The two on-chain account layouts. */
module ChainState {
  import opened Bytes
  import opened Layout
  import opened Wire

  datatype Terminal = Open | Locked | Settled | Expired | Aborted

  datatype PoolState = PoolState(
    poolBump: byte, vaultBump: byte, lockThreshold: byte, settlementThreshold: byte, operator: Bytes32,
      baseMint: Bytes32,
    quoteMint: Bytes32, poolBaseVault: Bytes32, poolQuoteVault: Bytes32, venueAuthority: Bytes32, venueBase: Bytes32,
    venueQuote: Bytes32, keypers: Keypers, baseLot: u64)

  datatype EpochState = EpochState(
    bump: byte, terminal: Terminal, residualSide: byte, pool: Bytes32, epochId: Bytes32, configurationHash: Bytes32,
    preBalanceRoot: Bytes32, memberRoot: Bytes32, lockDigest: Bytes32, resultCommitment: Bytes32,
    settlementDigest: Bytes32,
    lockNonce: Bytes32, settlementNonce: Bytes32, memberCount: u32, minimum: u32, residualLots: u32, baseLot: u64,
    quotePerLot: u64, lockDeadline: i64, abortDeadline: i64)

  /** Program-derived addresses and their canonical bumps. */
  datatype Pda = Pda(pool: (Bytes32, Bytes32, Bytes32) -> Bytes32, poolBump: (Bytes32, Bytes32, Bytes32) -> byte,
                     vaultBump: Bytes32 -> byte, epoch: (Bytes32, Bytes32) -> Bytes32,
                     epochBump: (Bytes32, Bytes32) -> byte)

  const STATE_LEN := 384
  const POOL_DISCRIMINATOR: seq<byte> := [75, 65, 71, 69, 80, 79, 79, 76]  // "KAGEPOOL"
  const EPOCH_DISCRIMINATOR: seq<byte> := [75, 65, 71, 69, 69, 80, 67, 72]  // "KAGEEPCH"

  function StateByte(t: Terminal): byte {
    match t
    case Open => 1
    case Locked => 2
    case Settled => 3
    case Expired => 4
    case Aborted => 5
  }

  function ReadState(b: byte): Option<Terminal> {
    if b == 1 then Some(Open) else if b == 2 then Some(Locked) else if b == 3 then Some(Settled)
    else if b == 4 then Some(Expired) else if b == 5 then Some(Aborted) else None
  }

  function Zeros(n: nat): (r: seq<byte>)
    ensures |r| == n && forall i | 0 <= i < n :: r[i] == 0
  {
    seq(n, _ => 0)
  }

  /** Header, small fields, fixed fields, reserved zero bytes. */
  function Account(disc: seq<byte>, small: seq<byte>, fs: seq<Field>, pad: nat): seq<byte> {
    disc + small + PutAll(fs) + Zeros(pad)
  }

  lemma AccountParts(disc: seq<byte>, small: seq<byte>, fs: seq<Field>, pad: nat)
    requires |disc| == 8 && |small| == 8 && 16 + Size(KindsOf(fs)) + pad == STATE_LEN
    ensures var s := Account(disc, small, fs, pad);
            && |s| == STATE_LEN && s[..8] == disc && s[8..16] == small && s[STATE_LEN - pad..] == Zeros(pad)
            && TakeAll(KindsOf(fs), s[16..]) == fs
  {
    PutSize(fs);
    RoundTrip(fs, Zeros(pad));
    assert Account(disc, small, fs, pad)[16..] == PutAll(fs) + Zeros(pad);
  }

  // ---- epoch account ----

  const EPOCH_KINDS := [KWord, KWord, KWord, KWord, KWord, KWord, KWord, KWord, KWord, KWord, KU32, KU32, KU32, KU64,
                        KU64, KI64, KI64]

  function EpochFields(e: EpochState): (r: seq<Field>)
    ensures KindsOf(r) == EPOCH_KINDS
  {
    [Word(e.pool), Word(e.epochId), Word(e.configurationHash), Word(e.preBalanceRoot), Word(e.memberRoot),
     Word(e.lockDigest),
     Word(e.resultCommitment), Word(e.settlementDigest), Word(e.lockNonce), Word(e.settlementNonce),
     U32(e.memberCount), U32(e.minimum), U32(e.residualLots), U64(e.baseLot), U64(e.quotePerLot),
     I64(e.lockDeadline), I64(e.abortDeadline)]
  }

  function EpochSmall(e: EpochState): seq<byte> { [1, e.bump, StateByte(e.terminal), e.residualSide, 0, 0, 0, 0] }

  function EpochBytes(e: EpochState): seq<byte> {
    Account(EPOCH_DISCRIMINATOR, EpochSmall(e), EpochFields(e), 4)
  }

  lemma EpochSize()
    ensures Size(EPOCH_KINDS) == 364
  {
    SizeFirst(KI64, []);
    SizeFirst(KI64, [KI64]);
    assert [KI64] + [] == [KI64] && [KI64] + [KI64] == [KI64, KI64];
    var a := [KU32, KU32, KU32, KU64, KU64] + [KI64, KI64];
    SizeFive(KU32, KU32, KU32, KU64, KU64, [KI64, KI64]);
    var b := [KWord, KWord, KWord, KWord, KWord] + a;
    SizeFive(KWord, KWord, KWord, KWord, KWord, a);
    SizeFive(KWord, KWord, KWord, KWord, KWord, b);
    assert EPOCH_KINDS == [KWord, KWord, KWord, KWord, KWord] + b;
  }

  function EpochFrom(small: seq<byte>, t: Terminal, f: seq<Field>): EpochState
    requires |small| == 8 && |f| == 17
  {
    EpochState(small[1], t, small[3], W(f[0]), W(f[1]), W(f[2]), W(f[3]), W(f[4]), W(f[5]), W(f[6]), W(f[7]), W(f[8]),
      W(f[9]),
               N32(f[10]), N32(f[11]), N32(f[12]), N64(f[13]), N64(f[14]), Z64(f[15]), Z64(f[16]))
  }

  /** The small fields are bytes 8 to 15: version, bump, state, side, four reserved. */
  function EpochOf(small: seq<byte>, f: seq<Field>): Option<EpochState>
    requires |small| == 8 && |f| == 17
  {
    if small[0] != 1 || small[4..] != [0, 0, 0, 0] then None
    else
      match ReadState(small[2])
      case None => None
      case Some(t) => Some(EpochFrom(small, t, f))
  }

  function DecodeEpoch(s: seq<byte>): Option<EpochState> {
    if |s| != STATE_LEN || s[..8] != EPOCH_DISCRIMINATOR || s[380..] != Zeros(4) then None
    else
      EpochSize();
      EpochOf(s[8..16], TakeAll(EPOCH_KINDS, s[16..]))
  }

  lemma EpochFits(e: EpochState)
    ensures 16 + Size(KindsOf(EpochFields(e))) + 4 == STATE_LEN
  {
    EpochSize();
  }

  lemma EpochOfFields(e: EpochState)
    ensures EpochOf(EpochSmall(e), EpochFields(e)) == Some(e)
  {
  }

  /** An epoch account read back is the state that was stored. */
  lemma EpochRoundTrip(e: EpochState)
    ensures |EpochBytes(e)| == STATE_LEN
    ensures DecodeEpoch(EpochBytes(e)) == Some(e)
  {
    EpochFits(e);
    EpochAccount(EpochSmall(e), EpochFields(e));
    EpochOfFields(e);
  }

  lemma EpochAccount(small: seq<byte>, fs: seq<Field>)
    requires |small| == 8 && KindsOf(fs) == EPOCH_KINDS
    ensures var s := Account(EPOCH_DISCRIMINATOR, small, fs, 4);
            |s| == STATE_LEN && DecodeEpoch(s) == EpochOf(small, fs)
  {
    EpochSize();
    AccountParts(EPOCH_DISCRIMINATOR, small, fs, 4);
  }

  /** `encode`: a zeroed array overwritten in place through a moving offset. */
  method EncodeAccount(disc: seq<byte>, small: seq<byte>, fs: seq<Field>, ghost pad: nat) returns (out: array<byte>)
    requires |disc| == 8 && |small| == 8 && 16 + Size(KindsOf(fs)) + pad == STATE_LEN
    ensures fresh(out) && out[..] == Account(disc, small, fs, pad)
  {
    PutSize(fs);
    out := new byte[STATE_LEN](_ => 0);
    ghost var zeros := out[..];
    WriteAt(out, 0, disc);
    WriteAt(out, 8, small);
    assert out[..] == disc + small + zeros[16..];
    assert out[..16] == disc + small && out[STATE_LEN - pad..] == Zeros(pad);
    var offset := PutFields(out, 16, fs);
  }

  method EncodeEpoch(e: EpochState) returns (out: array<byte>)
    ensures fresh(out) && out[..] == EpochBytes(e)
  {
    EpochFits(e);
    out := EncodeAccount(EPOCH_DISCRIMINATOR, EpochSmall(e), EpochFields(e), 4);
  }

  // ---- pool account ----

  const POOL_KINDS := [KWord, KWord, KWord, KWord, KWord, KWord, KWord, KWord, KWord, KWord, KWord, KU64]

  function PoolFields(p: PoolState): (r: seq<Field>)
    ensures KindsOf(r) == POOL_KINDS
  {
    [Word(p.operator), Word(p.baseMint), Word(p.quoteMint), Word(p.poolBaseVault), Word(p.poolQuoteVault),
     Word(p.venueAuthority),
     Word(p.venueBase), Word(p.venueQuote), Word(p.keypers.k0), Word(p.keypers.k1), Word(p.keypers.k2), U64(p.baseLot)]
  }

  function PoolSmall(p: PoolState): seq<byte> {
    [1, p.poolBump, p.vaultBump, p.lockThreshold, p.settlementThreshold, 0, 0, 0]
  }

  function PoolBytes(p: PoolState): seq<byte> {
    Account(POOL_DISCRIMINATOR, PoolSmall(p), PoolFields(p), 8)
  }

  lemma PoolSize()
    ensures Size(POOL_KINDS) == 360
  {
    SizeFirst(KU64, []);
    SizeFirst(KWord, [KU64]);
    assert [KU64] + [] == [KU64] && [KWord] + [KU64] == [KWord, KU64];
    var a := [KWord, KWord, KWord, KWord, KWord] + [KWord, KU64];
    SizeFive(KWord, KWord, KWord, KWord, KWord, [KWord, KU64]);
    SizeFive(KWord, KWord, KWord, KWord, KWord, a);
    assert POOL_KINDS == [KWord, KWord, KWord, KWord, KWord] + a;
  }

  function PoolFrom(small: seq<byte>, f: seq<Field>): PoolState
    requires |small| == 8 && |f| == 12
  {
    PoolState(small[1], small[2], small[3], small[4], W(f[0]), W(f[1]), W(f[2]), W(f[3]), W(f[4]), W(f[5]), W(f[6]),
      W(f[7]),
              Keypers(W(f[8]), W(f[9]), W(f[10])), N64(f[11]))
  }

  function PoolOf(small: seq<byte>, f: seq<Field>): Option<PoolState>
    requires |small| == 8 && |f| == 12
  {
    if small[0] != 1 || small[5..] != [0, 0, 0] then None else Some(PoolFrom(small, f))
  }

  function DecodePool(s: seq<byte>): Option<PoolState> {
    if |s| != STATE_LEN || s[..8] != POOL_DISCRIMINATOR || s[376..] != Zeros(8) then None
    else
      PoolSize();
      PoolOf(s[8..16], TakeAll(POOL_KINDS, s[16..]))
  }

  lemma PoolOfFields(p: PoolState)
    ensures PoolOf(PoolSmall(p), PoolFields(p)) == Some(p)
  {
  }

  lemma PoolRoundTrip(p: PoolState)
    ensures |PoolBytes(p)| == STATE_LEN
    ensures DecodePool(PoolBytes(p)) == Some(p)
  {
    PoolSize();
    AccountParts(POOL_DISCRIMINATOR, PoolSmall(p), PoolFields(p), 8);
    PoolOfFields(p);
  }

  method EncodePool(p: PoolState) returns (out: array<byte>)
    ensures fresh(out) && out[..] == PoolBytes(p)
  {
    PoolSize();
    out := EncodeAccount(POOL_DISCRIMINATOR, PoolSmall(p), PoolFields(p), 8);
  }
}
