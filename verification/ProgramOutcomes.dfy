/** When each instruction of the epoch program succeeds and what it then does, for every state the program can reach. */
module ProgramOutcomes {
  import opened Bytes
  import opened Wire
  import opened ChainState
  import opened Quorum
  import opened Program
  import opened ProgramRuns
  import opened EpochHistory

  // ---- two approvals ----

  lemma CountedAtLeast(s: set<Bytes32>, a: Bytes32, b: Bytes32)
    requires a in s && b in s && a != b
    ensures |s| >= 2
  {
    CountWithout(s, a);
    CountWithout(s - {a}, b);
  }

  /** The program's count reaches two if and only if two different keypers each signed the digest. */
  lemma QuorumIff(ctx: Context, ixs: seq<Instruction>, digest: Bytes32)
    ensures Count(ctx.verifier, ixs, ctx.pool.keypers, digest) >= 2 <==> TwoSigned(ctx, ixs, digest)
  {
    if Count(ctx.verifier, ixs, ctx.pool.keypers, digest) >= 2 { QuorumIsTwo(ctx, ixs, digest); }
    if TwoSigned(ctx, ixs, digest) {
      var i: nat, j: nat :| i < j < 3 && SignedByBoth(ctx, ixs, digest, i, j);
      var k := ctx.pool.keypers;
      CountedAtLeast(Approvers(ctx.verifier, ixs, k, digest), Key(k, i), Key(k, j));
    }
  }

  // ---- reachable states pass the checks every instruction starts with ----

  lemma ReachedOpens(ctx: Context, start: Tokens, steps: seq<Step>, key: Bytes32)
    ensures var c := Run(ctx, Chain(map[], start), steps);
            OpenAccounts(ctx, c, key) == if key in c.epochs then Ok(c.epochs[key]) else Err(InvalidOwner)
    ensures var c := Run(ctx, Chain(map[], start), steps); key in c.epochs ==> EpochInv(ctx, key, c.epochs[key])
  {
    EpochRunInvariant(ctx, Chain(map[], start), steps);
    var c := Run(ctx, Chain(map[], start), steps);
    if key in c.epochs { assert EpochInv(ctx, key, c.epochs[key]); }
  }

  // ---- create ----

  /** The pool lives at its own address and is set up for two of three different keypers and two different mints. */
  ghost predicate PoolInOrder(ctx: Context) {
    var p := ctx.pool;
    && ctx.poolKey == ctx.pda.pool(p.operator, p.baseMint, p.quoteMint)
    && p.poolBump == ctx.pda.poolBump(p.operator, p.baseMint, p.quoteMint)
       && p.vaultBump == ctx.pda.vaultBump(ctx.poolKey)
    && p.lockThreshold == 2 && p.settlementThreshold == 2 && p.baseLot > 0 && p.baseMint != p.quoteMint
    && p.keypers.k0 != ZERO && p.keypers.k1 != ZERO && p.keypers.k2 != ZERO
    && p.keypers.k0 != p.keypers.k1 && p.keypers.k1 != p.keypers.k2 && p.keypers.k0 != p.keypers.k2
  }

  lemma PoolInOrderIff(ctx: Context)
    ensures ValidatePool(ctx).None? <==> PoolInOrder(ctx)
  {
  }

  /** An epoch is created if and only if the pool is in order, its operator asks, at least four members are demanded
      at a positive price, the deadlines lie ahead in order, and the epoch's own address is still free. */
  lemma CreateIff(ctx: Context, c: Chain, now: i64, operator: Bytes32, key: Bytes32, args: CreateArgs)
    ensures CreateSpec(ctx, c, now, operator, key, args).Ok? <==>
            && PoolInOrder(ctx) && operator == ctx.pool.operator && args.minimum >= 4 && args.quotePerLot > 0
            && now < args.lockDeadline < args.abortDeadline
            && key == ctx.pda.epoch(ctx.poolKey, args.epochId) && key !in c.epochs
  {
    PoolInOrderIff(ctx);
  }

  lemma CreateDoes(ctx: Context, c: Chain, now: i64, operator: Bytes32, key: Bytes32, args: CreateArgs)
    requires CreateSpec(ctx, c, now, operator, key, args).Ok?
    ensures var d, p := CreateSpec(ctx, c, now, operator, key, args).value, ctx.pool;
            && d.tokens == c.tokens && key in d.epochs && d.epochs == c.epochs[key := d.epochs[key]]
            && var e := d.epochs[key];
               && e.terminal == Open && e.pool == ctx.poolKey && e.bump == ctx.pda.epochBump(ctx.poolKey, args.epochId)
               && e.epochId == args.epochId && e.quotePerLot == args.quotePerLot && e.minimum == args.minimum
               && e.lockDeadline == args.lockDeadline && e.abortDeadline == args.abortDeadline && e.baseLot == p.baseLot
               && e.configurationHash == ConfigDigest(ctx.sha, EpochConfiguration(
                    ctx.poolKey, args.epochId, p.baseMint, p.quoteMint, p.baseLot, args.quotePerLot, args.minimum, 2, 2,
                    p.keypers, args.lockDeadline, args.abortDeadline))
               && e.memberCount == 0 && e.lockDigest == ZERO && e.settlementDigest == ZERO && e.residualLots == 0
  {
    PoolInOrderIff(ctx);
  }

  // ---- lock ----

  /** A lock is accepted if and only if the epoch is Open before its lock deadline, the payload names this account,
      this configuration and this deadline, commits to something under a nonce, counts at least the minimum, and two
      different keypers signed it. */
  lemma LockIff(ctx: Context, start: Tokens, steps: seq<Step>, now: i64, key: Bytes32, p: LockPayload,
                ixs: seq<Instruction>)
    ensures var c := Run(ctx, Chain(map[], start), steps);
            LockSpec(ctx, c, now, key, p, ixs).Ok? <==>
            && key in c.epochs && c.epochs[key].terminal == Open && now < c.epochs[key].lockDeadline
            && p.epochAccount == key && p.configurationHash == c.epochs[key].configurationHash
            && p.lockDeadline == c.epochs[key].lockDeadline && p.memberCount >= c.epochs[key].minimum
            && p.lockNonce != ZERO && p.preBalanceRoot != ZERO && p.memberRoot != ZERO
            && TwoSigned(ctx, ixs, LockDigest(ctx.sha, p))
  {
    ReachedOpens(ctx, start, steps, key);
    QuorumIff(ctx, ixs, LockDigest(ctx.sha, p));
  }

  lemma LockDoes(ctx: Context, c: Chain, now: i64, key: Bytes32, p: LockPayload, ixs: seq<Instruction>)
    requires LockSpec(ctx, c, now, key, p, ixs).Ok?
    ensures var d := LockSpec(ctx, c, now, key, p, ixs).value;
            && key in c.epochs && d.tokens == c.tokens
            && d.epochs == c.epochs[key := c.epochs[key].(terminal := Locked, preBalanceRoot := p.preBalanceRoot,
                 memberRoot := p.memberRoot, memberCount := p.memberCount, lockNonce := p.lockNonce,
                 lockDigest := LockDigest(ctx.sha, p))]
  {
  }

  // ---- settle ----

  /** The payload keypers sign, rebuilt from the two accounts and the instruction. */
  function PayloadSigned(ctx: Context, key: Bytes32, e: EpochState, s: CompactSettlement): SettlementPayload {
    var p := ctx.pool;
    SettlementPayload(key, e.lockDigest, s.resultCommitment, s.residualSide, s.residualLots, e.baseLot, e.quotePerLot,
                      p.baseMint, p.quoteMint, p.poolBaseVault, p.poolQuoteVault, p.venueBase, p.venueQuote,
                      p.venueAuthority, s.settlementNonce)
  }

  /** Buying pays quote to the venue and takes base from it; selling the reverse; nothing moves without a residual. */
  ghost predicate CanPay(t: Tokens, side: byte, base: int, quote: int) {
    && (side == 1
       ==> t.poolQuote >= quote && t.venueQuote + quote <= U64_MAX && t.venueBase >= base
           && t.poolBase + base <= U64_MAX)
    && (side == 2
       ==> t.poolBase >= base && t.venueBase + base <= U64_MAX && t.venueQuote >= quote
           && t.poolQuote + quote <= U64_MAX)
  }

  lemma LegsIff(t: Tokens, side: byte, base: u64, quote: u64)
    ensures Legs(t, side, base, quote).Some? <==> CanPay(t, side, base, quote)
  {
  }

  /** The residual is nothing, or at least one lot bought or sold. */
  predicate ResidualInOrder(s: CompactSettlement) {
    if s.residualSide == 0 then s.residualLots == 0 else s.residualSide <= 2 && s.residualLots > 0
  }

  /** The two products of the residual. */
  lemma Products(s: CompactSettlement, e: EpochState)
    ensures Times(s.residualLots, e.baseLot) == s.residualLots * e.baseLot >= 0
    ensures Times(s.residualLots, e.quotePerLot) == s.residualLots * e.quotePerLot >= 0
  {
    TimesIsProduct(s.residualLots, e.baseLot);
    TimesIsProduct(s.residualLots, e.quotePerLot);
    TimesNonNegative(s.residualLots, e.baseLot);
    TimesNonNegative(s.residualLots, e.quotePerLot);
  }

  ghost predicate Settleable(ctx: Context, c: Chain, now: i64, key: Bytes32, e: EpochState, s: CompactSettlement,
                             ixs: seq<Instruction>) {
    && e.terminal == Locked && now <= e.abortDeadline
    && s.resultCommitment != ZERO && s.settlementNonce != ZERO && s.settlementNonce != e.lockNonce && ResidualInOrder(s)
    && TwoSigned(ctx, ixs, SettlementDigest(ctx.sha, PayloadSigned(ctx, key, e, s)))
    && s.residualLots * e.baseLot <= U64_MAX && s.residualLots * e.quotePerLot <= U64_MAX
    && CanPay(c.tokens, s.residualSide, s.residualLots * e.baseLot, s.residualLots * e.quotePerLot)
  }

  lemma SettleSpecIff(ctx: Context, c: Chain, now: i64, key: Bytes32, s: CompactSettlement, ixs: seq<Instruction>)
    requires key in c.epochs && OpenAccounts(ctx, c, key) == Ok(c.epochs[key]) && ctx.pool.settlementThreshold == 2
    ensures SettleSpec(ctx, c, now, key, s, ixs).Ok? <==> Settleable(ctx, c, now, key, c.epochs[key], s, ixs)
  {
    var e := c.epochs[key];
    assert SettlementPayloadOf(ctx, key, e, s) == PayloadSigned(ctx, key, e, s);
    QuorumIff(ctx, ixs, SettlementDigest(ctx.sha, PayloadSigned(ctx, key, e, s)));
    Products(s, e);
    if s.residualLots * e.baseLot <= U64_MAX && s.residualLots * e.quotePerLot <= U64_MAX {
      LegsIff(c.tokens, s.residualSide, s.residualLots * e.baseLot, s.residualLots * e.quotePerLot);
    }
  }

  /** A settlement is accepted if and only if the epoch is Locked, up to its abort deadline, with a commitment, a
      nonce of its own and a proper residual, two different keypers signed the payload rebuilt from the accounts, the
      amounts fit, and the paying accounts hold them. */
  lemma SettleIff(ctx: Context, start: Tokens, steps: seq<Step>, now: i64, key: Bytes32, s: CompactSettlement,
                  ixs: seq<Instruction>)
    ensures var c := Run(ctx, Chain(map[], start), steps);
            SettleSpec(ctx, c, now, key, s, ixs).Ok?
            <==> key in c.epochs && Settleable(ctx, c, now, key, c.epochs[key], s, ixs)
  {
    var c := Run(ctx, Chain(map[], start), steps);
    ReachedOpens(ctx, start, steps, key);
    if key in c.epochs { SettleSpecIff(ctx, c, now, key, s, ixs); }
  }

  /** What it stores; what it moves is `SettleMovesResidual`. */
  lemma SettleStores(ctx: Context, c: Chain, now: i64, key: Bytes32, s: CompactSettlement, ixs: seq<Instruction>)
    requires SettleSpec(ctx, c, now, key, s, ixs).Ok?
    ensures key in c.epochs
    ensures SettleSpec(ctx, c, now, key, s, ixs).value.epochs ==
            c.epochs[key := c.epochs[key].(terminal := Settled, resultCommitment := s.resultCommitment,
              residualSide := s.residualSide, residualLots := s.residualLots, settlementNonce := s.settlementNonce,
              settlementDigest := SettlementDigest(ctx.sha, PayloadSigned(ctx, key, c.epochs[key], s)))]
  {
    SettleParts(ctx, c, now, key, s, ixs);
  }

  // ---- expire and abort ----

  /** An epoch expires if and only if it is still Open after its lock deadline, and is aborted if and only if it is
      still Locked after its abort deadline. */
  lemma EndIff(ctx: Context, start: Tokens, steps: seq<Step>, now: i64, key: Bytes32)
    ensures var c := Run(ctx, Chain(map[], start), steps);
            && (EndSpec(ctx, c, now, key, false).Ok? <==>
                key in c.epochs && c.epochs[key].terminal == Open && now > c.epochs[key].lockDeadline)
            && (EndSpec(ctx, c, now, key, true).Ok? <==>
                key in c.epochs && c.epochs[key].terminal == Locked && now > c.epochs[key].abortDeadline)
  {
    ReachedOpens(ctx, start, steps, key);
  }

  lemma EndDoes(ctx: Context, c: Chain, now: i64, key: Bytes32, abort: bool)
    requires EndSpec(ctx, c, now, key, abort).Ok?
    ensures key in c.epochs
    ensures EndSpec(ctx, c, now, key, abort).value ==
            c.(epochs := c.epochs[key := c.epochs[key].(terminal := if abort then Aborted else Expired)])
  {
  }
}
