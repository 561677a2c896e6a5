/** The on-chain epoch program: instructions over the epoch accounts of one pool and its four token accounts.

    A failed instruction changes nothing. Account flags, rent and ownership checks are reduced to their effect: an epoch
    account exists exactly after its creation, and it exists only once. */
module Program {
  import opened Bytes
  import opened Wire
  import opened ChainState
  import opened Quorum

  /** Everything fixed for a run: the hash, the pool, the derived addresses, the verifier program. */
  datatype Context = Context(sha: Sha, poolKey: Bytes32, pool: PoolState, pda: Pda, verifier: Bytes32)

  datatype Tokens = Tokens(poolBase: u64, poolQuote: u64, venueBase: u64, venueQuote: u64)
  datatype Chain = Chain(epochs: map<Bytes32, EpochState>, tokens: Tokens)

  datatype CreateArgs = CreateArgs(epochId: Bytes32, quotePerLot: u64, minimum: u32, lockDeadline: i64,
                                   abortDeadline: i64)
  datatype CompactSettlement = CompactSettlement(resultCommitment: Bytes32, residualSide: byte, residualLots: u32,
                                                 settlementNonce: Bytes32)

  datatype ProgramError =
    | InvalidConfiguration
    | InvalidPda | InvalidState | InvalidOwner | DeadlinePassed | DeadlineNotReached | InvalidLock
    | CrowdBelowMinimum | InsufficientQuorum | InvalidSettlement | ArithmeticOverflow | TokenTransfer

  // ---- validation ----

  predicate ThreeDistinct(k: Keypers) { k.k0 != k.k1 && k.k0 != k.k2 && k.k1 != k.k2 }

  predicate ValidPool(p: PoolState) {
    && p.lockThreshold == 2 && p.settlementThreshold == 2 && p.baseLot != 0 && p.baseMint != p.quoteMint
    && p.keypers.k0 != ZERO && p.keypers.k1 != ZERO && p.keypers.k2 != ZERO && ThreeDistinct(p.keypers)
  }

  function ValidatePool(ctx: Context): Option<ProgramError> {
    var p := ctx.pool;
    if ctx.pda.pool(p.operator, p.baseMint, p.quoteMint) != ctx.poolKey
       || p.poolBump != ctx.pda.poolBump(p.operator, p.baseMint, p.quoteMint)
          || p.vaultBump != ctx.pda.vaultBump(ctx.poolKey)
    then Some(InvalidPda)
    else if !ValidPool(p) then Some(InvalidState)
    else None
  }

  /** The configuration an epoch account stands for. */
  function Configuration(ctx: Context, e: EpochState): EpochConfiguration {
    EpochConfiguration(ctx.poolKey, e.epochId, ctx.pool.baseMint, ctx.pool.quoteMint, ctx.pool.baseLot, e.quotePerLot,
      e.minimum,
                       ctx.pool.lockThreshold, ctx.pool.settlementThreshold, ctx.pool.keypers, e.lockDeadline,
                       e.abortDeadline)
  }

  function ValidateEpoch(ctx: Context, key: Bytes32, e: EpochState): Option<ProgramError> {
    if e.pool != ctx.poolKey then Some(InvalidState)
    else if ctx.pda.epoch(ctx.poolKey, e.epochId) != key || e.bump != ctx.pda.epochBump(ctx.poolKey, e.epochId)
    then Some(InvalidPda)
    else if e.minimum < 4 || e.baseLot != ctx.pool.baseLot || e.quotePerLot == 0 || e.abortDeadline <= e.lockDeadline
    then Some(InvalidState)
    else if e.configurationHash != ConfigDigest(ctx.sha, Configuration(ctx, e)) then Some(InvalidState)
    else None
  }

  /** The checks every instruction on an existing epoch starts with. */
  function OpenAccounts(ctx: Context, c: Chain, key: Bytes32): Result<EpochState, ProgramError> {
    if key !in c.epochs then Err(InvalidOwner)
    else if ValidatePool(ctx).Some? then Err(ValidatePool(ctx).value)
    else
      match ValidateEpoch(ctx, key, c.epochs[key])
      case Some(error) => Err(error)
      case None => Ok(c.epochs[key])
  }

  predicate ValidResidual(side: byte, lots: u32) { (side == 0 && lots == 0) || ((side == 1 || side == 2) && lots >= 1) }

  // ---- create ----

  function FreshEpoch(ctx: Context, args: CreateArgs): EpochState {
    var e := EpochState(ctx.pda.epochBump(ctx.poolKey, args.epochId), Open, 0, ctx.poolKey, args.epochId, ZERO, ZERO,
      ZERO, ZERO, ZERO, ZERO, ZERO, ZERO,
                        0, args.minimum, 0, ctx.pool.baseLot, args.quotePerLot, args.lockDeadline, args.abortDeadline);
    e.(configurationHash := ConfigDigest(ctx.sha, Configuration(ctx, e)))
  }

  function CreateSpec(ctx: Context, c: Chain, now: i64, operator: Bytes32, key: Bytes32,
                      args: CreateArgs): Result<Chain, ProgramError> {
    if ValidatePool(ctx).Some? then Err(ValidatePool(ctx).value)
    else if ctx.pool.operator != operator then Err(InvalidConfiguration)
    else if args.minimum < 4 || args.quotePerLot == 0 || args.lockDeadline <= now
        || args.abortDeadline <= args.lockDeadline then Err(InvalidConfiguration)
    else if key != ctx.pda.epoch(ctx.poolKey, args.epochId) then Err(InvalidPda)
    else if key in c.epochs then Err(InvalidState)
    else Ok(c.(epochs := c.epochs[key := FreshEpoch(ctx, args)]))
  }

  // ---- lock ----

  function LockedBy(ctx: Context, e: EpochState, p: LockPayload): EpochState {
    e.(terminal := Locked, preBalanceRoot := p.preBalanceRoot, memberRoot := p.memberRoot, memberCount := p.memberCount,
       lockDigest := LockDigest(ctx.sha, p), lockNonce := p.lockNonce)
  }

  predicate LockFits(key: Bytes32, e: EpochState, p: LockPayload) {
    && p.epochAccount == key && p.configurationHash == e.configurationHash && p.lockDeadline == e.lockDeadline
    && p.lockNonce != ZERO && p.preBalanceRoot != ZERO && p.memberRoot != ZERO
  }

  ghost function LockSpec(ctx: Context, c: Chain, now: i64, key: Bytes32, p: LockPayload,
                          ixs: seq<Instruction>): Result<Chain, ProgramError> {
    match OpenAccounts(ctx, c, key)
    case Err(error) => Err(error)
    case Ok(e) =>
      if e.terminal != Open then Err(InvalidState)
      else if now >= e.lockDeadline then Err(DeadlinePassed)
      else if !LockFits(key, e, p) then Err(InvalidLock)
      else if p.memberCount < e.minimum then Err(CrowdBelowMinimum)
      else if Count(ctx.verifier, ixs, ctx.pool.keypers, LockDigest(ctx.sha, p)) < ctx.pool.lockThreshold as int
      then Err(InsufficientQuorum)
      else Ok(c.(epochs := c.epochs[key := LockedBy(ctx, e, p)]))
  }

  // ---- settle ----

  /** `settle_compact`: everything not in the instruction is taken from the two accounts. */
  function SettlementPayloadOf(ctx: Context, key: Bytes32, e: EpochState, s: CompactSettlement): SettlementPayload {
    SettlementPayload(key, e.lockDigest, s.resultCommitment, s.residualSide, s.residualLots, e.baseLot, e.quotePerLot,
                      ctx.pool.baseMint, ctx.pool.quoteMint, ctx.pool.poolBaseVault, ctx.pool.poolQuoteVault,
                      ctx.pool.venueBase,
                      ctx.pool.venueQuote, ctx.pool.venueAuthority, s.settlementNonce)
  }

  predicate SettlementFits(e: EpochState, s: CompactSettlement) {
    && s.resultCommitment != ZERO && s.settlementNonce != ZERO && s.settlementNonce != e.lockNonce
    && ValidResidual(s.residualSide, s.residualLots)
  }

  function SettledBy(ctx: Context, key: Bytes32, e: EpochState, s: CompactSettlement): EpochState {
    e.(terminal := Settled, residualSide := s.residualSide, residualLots := s.residualLots,
      resultCommitment := s.resultCommitment,
       settlementDigest := SettlementDigest(ctx.sha, SettlementPayloadOf(ctx, key, e, s)),
       settlementNonce := s.settlementNonce)
  }

  /** One token transfer: it fails when the source holds too little or the destination would overflow. */
  function Move(source: u64, target: u64, amount: int): Option<(u64, u64)>
    requires amount >= 0
  {
    if source < amount || target + amount > U64_MAX then None else Some((source - amount, target + amount))
  }

  /** The two legs: a buy pays quote and takes base, a sell the reverse. */
  function Legs(t: Tokens, side: byte, base: u64, quote: u64): Option<Tokens> {
    if side == 1 then
      match Move(t.poolQuote, t.venueQuote, quote)
      case None => None
      case Some((poolQuote, venueQuote)) =>
        match Move(t.venueBase, t.poolBase, base)
        case None => None
        case Some((venueBase, poolBase)) => Some(Tokens(poolBase, poolQuote, venueBase, venueQuote))
    else if side == 2 then
      match Move(t.poolBase, t.venueBase, base)
      case None => None
      case Some((poolBase, venueBase)) =>
        match Move(t.venueQuote, t.poolQuote, quote)
        case None => None
        case Some((venueQuote, poolQuote)) => Some(Tokens(poolBase, poolQuote, venueBase, venueQuote))
    else Some(t)
  }

  ghost function SettleSpec(ctx: Context, c: Chain, now: i64, key: Bytes32, s: CompactSettlement,
                            ixs: seq<Instruction>): Result<Chain, ProgramError> {
    match OpenAccounts(ctx, c, key)
    case Err(error) => Err(error)
    case Ok(e) =>
      if e.terminal != Locked then Err(InvalidState)
      else if now > e.abortDeadline then Err(DeadlinePassed)
      else if !SettlementFits(e, s) then Err(InvalidSettlement)
      else if Count(ctx.verifier, ixs, ctx.pool.keypers,
          SettlementDigest(ctx.sha, SettlementPayloadOf(ctx, key, e, s))) < ctx.pool.settlementThreshold as int
            then Err(InsufficientQuorum)
      else
        var base, quote := Times(s.residualLots, e.baseLot), Times(s.residualLots, e.quotePerLot);
        if base > U64_MAX || quote > U64_MAX then Err(ArithmeticOverflow)
        else
          TimesNonNegative(s.residualLots, e.baseLot);
          TimesNonNegative(s.residualLots, e.quotePerLot);
          match Legs(c.tokens, s.residualSide, base, quote)
          case None => Err(TokenTransfer)
          case Some(tokens) => Ok(Chain(c.epochs[key := SettledBy(ctx, key, e, s)], tokens))
  }

  // ---- expire and abort ----

  function EndSpec(ctx: Context, c: Chain, now: i64, key: Bytes32, abort: bool): Result<Chain, ProgramError> {
    match OpenAccounts(ctx, c, key)
    case Err(error) => Err(error)
    case Ok(e) =>
      var required := if abort then Locked else Open;
      var deadline := if abort then e.abortDeadline else e.lockDeadline;
      if e.terminal != required then Err(InvalidState)
      else if now <= deadline then Err(DeadlineNotReached)
      else Ok(c.(epochs := c.epochs[key := e.(terminal := if abort then Aborted else Expired)]))
  }

  // ---- the accounts as objects ----

  /** An instruction is done as specified, or refused without effect. */
  ghost predicate Outcome(before: Chain, after: Chain, r: Result<(), ProgramError>, spec: Result<Chain, ProgramError>) {
    match spec
    case Ok(next) => r == Ok(()) && after == next
    case Err(error) => r == Err(error) && after == before
  }

  class Accounts {
    const ctx: Context
    var epochs: map<Bytes32, EpochState>
    var tokens: Tokens

    constructor (ctx: Context, tokens: Tokens)
      ensures this.ctx == ctx && View() == Chain(map[], tokens)
    {
      this.ctx, this.tokens, epochs := ctx, tokens, map[];
    }

    ghost function View(): Chain reads this { Chain(epochs, tokens) }

    method Validated(key: Bytes32) returns (r: Result<EpochState, ProgramError>)
      ensures r == OpenAccounts(ctx, View(), key)
    {
      if key !in epochs { return Err(InvalidOwner); }
      var badPool := ValidatePool(ctx);
      if badPool.Some? { return Err(badPool.value); }
      var bad := ValidateEpoch(ctx, key, epochs[key]);
      if bad.Some? { return Err(bad.value); }
      return Ok(epochs[key]);
    }

    method CreateEpoch(now: i64, operator: Bytes32, key: Bytes32, args: CreateArgs)
      returns (r: Result<(), ProgramError>)
      modifies this
      ensures Outcome(old(View()), View(), r, CreateSpec(ctx, old(View()), now, operator, key, args))
    {
      var badPool := ValidatePool(ctx);
      if badPool.Some? { return Err(badPool.value); }
      if ctx.pool.operator != operator { return Err(InvalidConfiguration); }
      if args.minimum < 4 || args.quotePerLot == 0 || args.lockDeadline <= now
          || args.abortDeadline <= args.lockDeadline {
        return Err(InvalidConfiguration);
      }
      if key != ctx.pda.epoch(ctx.poolKey, args.epochId) { return Err(InvalidPda); }
      if key in epochs { return Err(InvalidState); }
      epochs := epochs[key := FreshEpoch(ctx, args)];
      return Ok(());
    }

    method Lock(now: i64, key: Bytes32, payload: LockPayload, ixs: seq<Instruction>)
      returns (r: Result<(), ProgramError>)
      modifies this
      ensures Outcome(old(View()), View(), r, LockSpec(ctx, old(View()), now, key, payload, ixs))
    {
      var found := Validated(key);
      if found.Err? { return Err(found.error); }
      var e := found.value;
      if e.terminal != Open { return Err(InvalidState); }
      if now >= e.lockDeadline { return Err(DeadlinePassed); }
      if !LockFits(key, e, payload) { return Err(InvalidLock); }
      if payload.memberCount < e.minimum { return Err(CrowdBelowMinimum); }
      var digest := LockDigest(ctx.sha, payload);
      var count := CountMatching(ctx.verifier, ixs, ctx.pool.keypers, digest);
      if count < ctx.pool.lockThreshold as int { return Err(InsufficientQuorum); }
      e := e.(terminal := Locked);
      e := e.(preBalanceRoot := payload.preBalanceRoot, memberRoot := payload.memberRoot,
        memberCount := payload.memberCount);
      e := e.(lockDigest := digest, lockNonce := payload.lockNonce);
      epochs := epochs[key := e];
      return Ok(());
    }

    method Settle(now: i64, key: Bytes32, s: CompactSettlement, ixs: seq<Instruction>)
      returns (r: Result<(), ProgramError>)
      modifies this
      ensures Outcome(old(View()), View(), r, SettleSpec(ctx, old(View()), now, key, s, ixs))
    {
      var found := Validated(key);
      if found.Err? { return Err(found.error); }
      var e := found.value;
      if e.terminal != Locked { return Err(InvalidState); }
      if now > e.abortDeadline { return Err(DeadlinePassed); }
      if !SettlementFits(e, s) { return Err(InvalidSettlement); }
      var digest := SettlementDigest(ctx.sha, SettlementPayloadOf(ctx, key, e, s));
      var count := CountMatching(ctx.verifier, ixs, ctx.pool.keypers, digest);
      if count < ctx.pool.settlementThreshold as int { return Err(InsufficientQuorum); }
      TimesNonNegative(s.residualLots, e.baseLot);
      TimesNonNegative(s.residualLots, e.quotePerLot);
      var base, quote := Times(s.residualLots, e.baseLot), Times(s.residualLots, e.quotePerLot);
      if base > U64_MAX || quote > U64_MAX { return Err(ArithmeticOverflow); }
      var moved := Legs(tokens, s.residualSide, base, quote);
      if moved.None? { return Err(TokenTransfer); }
      tokens := moved.value;
      epochs := epochs[key := SettledBy(ctx, key, e, s)];
      return Ok(());
    }

    method ExpireOrAbort(now: i64, key: Bytes32, abort: bool) returns (r: Result<(), ProgramError>)
      modifies this
      ensures Outcome(old(View()), View(), r, EndSpec(ctx, old(View()), now, key, abort))
    {
      var found := Validated(key);
      if found.Err? { return Err(found.error); }
      var e := found.value;
      if e.terminal != (if abort then Locked else Open) { return Err(InvalidState); }
      if now <= (if abort then e.abortDeadline else e.lockDeadline) { return Err(DeadlineNotReached); }
      e := e.(terminal := if abort then Aborted else Expired);
      epochs := epochs[key := e];
      return Ok(());
    }
  }
}
