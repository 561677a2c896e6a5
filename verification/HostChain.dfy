/** How the host reads an epoch account, and why it agrees with the program that wrote it. */
module HostChain {
  import opened Bytes
  import opened Wire
  import opened ChainState
  import opened Program
  import opened ProgramRuns

  datatype RpcAccount = RpcAccount(owner: Bytes32, data: seq<byte>)
  datatype Clock = Clock(slot: u64, timestamp: i64)

  /** What the host knows by itself: the program's id, derived addresses, the hash, which bytes are keys. */
  datatype Host = Host(sha: Sha, programId: Bytes32, sysvarId: Bytes32, pda: Pda, validKey: Bytes32 -> bool)

  datatype Policy = Policy(epochId: Bytes32, operatorKey: Bytes32, minimum: u32, base: u64, quote: u64,
                           currentSlot: u64)

  /** The three capabilities. */
  datatype ConfirmedOpen = ConfirmedOpen(epochAccount: Bytes32, configuration: EpochConfiguration, policy: Policy,
                                         timestamp: i64, slot: u64)
  datatype ConfirmedLock = ConfirmedLock(epochAccount: Bytes32, state: EpochState, pool: Option<PoolState>, slot: u64)
  datatype ConfirmedTerminal = ConfirmedTerminal(epochAccount: Bytes32, epochId: Bytes32, terminal: Terminal, slot: u64)

  function NewPolicy(epochId: Bytes32, operatorKey: Bytes32, minimum: u32, base: u64, quote: u64,
                     slot: u64): Option<Policy> {
    if minimum == 0 || base == 0 || quote == 0 then None
    else Some(Policy(epochId, operatorKey, minimum, base, quote, slot))
  }

  function HostConfiguration(e: EpochState, p: PoolState): EpochConfiguration {
    EpochConfiguration(e.pool, e.epochId, p.baseMint, p.quoteMint, p.baseLot, e.quotePerLot, e.minimum, p.lockThreshold,
                       p.settlementThreshold, p.keypers, e.lockDeadline, e.abortDeadline)
  }

  function DecodeProgramEpoch(h: Host, key: Bytes32, account: RpcAccount): Option<EpochState> {
    if account.owner != h.programId then None
    else
      match DecodeEpoch(account.data)
      case None => None
      case Some(e) => if h.pda.epoch(e.pool, e.epochId) != key || e.bump != h.pda.epochBump(e.pool, e.epochId) then None
                      else Some(e)
  }

  predicate PoolAddressed(h: Host, e: EpochState, p: PoolState) {
    && h.pda.pool(p.operator, p.baseMint, p.quoteMint) == e.pool
    && p.poolBump == h.pda.poolBump(p.operator, p.baseMint, p.quoteMint) && p.vaultBump == h.pda.vaultBump(e.pool)
  }

  predicate Untouched(e: EpochState) {
    && e.residualSide == 0 && e.preBalanceRoot == ZERO && e.memberRoot == ZERO && e.lockDigest == ZERO
       && e.resultCommitment == ZERO
    && e.settlementDigest == ZERO && e.lockNonce == ZERO && e.settlementNonce == ZERO && e.memberCount == 0
       && e.residualLots == 0
  }

  predicate OpenStateFits(h: Host, e: EpochState, p: PoolState, clock: Clock, slot: u64) {
    && PoolAddressed(h, e, p) && ValidPool(p) && e.terminal == Open && Untouched(e)
    && e.configurationHash == ConfigDigest(h.sha, HostConfiguration(e, p))
    && e.minimum >= 4 && e.baseLot == p.baseLot && e.quotePerLot != 0 && e.abortDeadline > e.lockDeadline
    && clock.slot <= slot && clock.timestamp < e.lockDeadline
  }

  function ConfirmOpenStates(h: Host, key: Bytes32, e: EpochState, p: PoolState, clock: Clock,
                             slot: u64): Option<ConfirmedOpen> {
    if !OpenStateFits(h, e, p, clock, slot) || !h.validKey(p.operator) then None
    else
      match NewPolicy(e.epochId, p.operator, e.minimum, e.baseLot, e.quotePerLot, clock.slot)
      case None => None
      case Some(policy) => Some(ConfirmedOpen(key, HostConfiguration(e, p), policy, clock.timestamp, slot))
  }

  /** `confirmed_open_epoch_from_accounts`. */
  function ConfirmOpen(h: Host, key: Bytes32, epoch: RpcAccount, poolRead: Bytes32, pool: RpcAccount,
                       clockOwner: Bytes32, clock: Clock, slot: u64)
    : Option<ConfirmedOpen>
  {
    match DecodeProgramEpoch(h, key, epoch)
    case None => None
    case Some(e) =>
      if e.pool != poolRead || pool.owner != h.programId || clockOwner != h.sysvarId then None
      else
        match DecodePool(pool.data)
        case None => None
        case Some(p) => ConfirmOpenStates(h, key, e, p, clock, slot)
  }

  predicate LockedStateFits(h: Host, key: Bytes32, e: EpochState) {
    && h.pda.epoch(e.pool, e.epochId) == key && e.bump == h.pda.epochBump(e.pool, e.epochId)
    && e.terminal == Locked && e.minimum >= 4 && e.memberCount >= e.minimum && e.baseLot != 0 && e.quotePerLot != 0
    && e.abortDeadline > e.lockDeadline && e.configurationHash != ZERO && e.lockNonce != ZERO
    && e.preBalanceRoot != ZERO && e.memberRoot != ZERO && e.lockDigest == LockDigest(h.sha, LockOf(key, e))
  }

  /** `confirmed_lock_from_account`. */
  function ConfirmLockedAccount(h: Host, key: Bytes32, epoch: RpcAccount, slot: u64): Option<ConfirmedLock> {
    if epoch.owner != h.programId then None
    else
      match DecodeEpoch(epoch.data)
      case None => None
      case Some(e) => if LockedStateFits(h, key, e) then Some(ConfirmedLock(key, e, None, slot)) else None
  }

  /** `confirmed_lock_from_accounts`. */
  function ConfirmLock(h: Host, key: Bytes32, epoch: RpcAccount, pool: RpcAccount, clockOwner: Bytes32, clock: Clock,
                       slot: u64)
    : Option<ConfirmedLock>
  {
    match ConfirmLockedAccount(h, key, epoch, slot)
    case None => None
    case Some(confirmed) =>
      if pool.owner != h.programId || clockOwner != h.sysvarId then None
      else
        match DecodePool(pool.data)
        case None => None
        case Some(p) =>
          var e := confirmed.state;
          if !PoolAddressed(h, e, p) || p.lockThreshold != 2 || p.settlementThreshold != 2 || p.baseLot == 0
              || p.baseMint == p.quoteMint
             || ConfigDigest(h.sha, HostConfiguration(e, p)) != e.configurationHash || clock.slot > slot
                || clock.timestamp > e.abortDeadline
          then None
          else Some(confirmed.(pool := Some(p)))
  }

  /** `confirmed_terminal_epoch_from_account`. */
  function ConfirmTerminal(h: Host, key: Bytes32, epoch: RpcAccount, slot: u64): Option<ConfirmedTerminal> {
    match DecodeProgramEpoch(h, key, epoch)
    case None => None
    case Some(e) => if e.terminal == Expired || e.terminal == Aborted
                    then Some(ConfirmedTerminal(key, e.epochId, e.terminal, slot)) else None
  }

  // ---- agreement ----

  /** The host talks about the same program as the context. */
  ghost predicate SameProgram(h: Host, ctx: Context) { h.sha == ctx.sha && h.pda == ctx.pda }

  /** The host rebuilds the configuration the program hashed. */
  lemma ConfigurationsAgree(ctx: Context, key: Bytes32, e: EpochState)
    requires EpochInv(ctx, key, e)
    ensures HostConfiguration(e, ctx.pool) == Configuration(ctx, e)
  {
  }

  lemma OpenFitsIff(h: Host, ctx: Context, key: Bytes32, e: EpochState, clock: Clock, slot: u64)
    requires SameProgram(h, ctx) && EpochInv(ctx, key, e)
    ensures OpenStateFits(h, e, ctx.pool, clock, slot)
            <==> e.terminal == Open && clock.timestamp < e.lockDeadline && clock.slot <= slot
  {
    ConfigurationsAgree(ctx, key, e);
  }

  /** What an accepted open epoch is turned into. */
  function OpenCapability(ctx: Context, key: Bytes32, e: EpochState, clock: Clock, slot: u64): ConfirmedOpen {
    ConfirmedOpen(key, Configuration(ctx, e),
      Policy(e.epochId, ctx.pool.operator, e.minimum, e.baseLot, e.quotePerLot, clock.slot), clock.timestamp, slot)
  }

  /** An open epoch the host can work on: still open for locking, read no later than confirmed, by a usable operator. */
  predicate OpenNow(h: Host, ctx: Context, e: EpochState, clock: Clock, slot: u64) {
    e.terminal == Open && clock.timestamp < e.lockDeadline && clock.slot <= slot && h.validKey(ctx.pool.operator)
  }

  /** A locked epoch that can still be settled; the host also refuses an all-zero configuration hash. */
  predicate LockedNow(e: EpochState, clock: Clock, slot: u64) {
    e.terminal == Locked && clock.timestamp <= e.abortDeadline && clock.slot <= slot && e.configurationHash != ZERO
  }

  lemma OpenStatesAgree(h: Host, ctx: Context, key: Bytes32, e: EpochState, clock: Clock, slot: u64)
    requires SameProgram(h, ctx) && EpochInv(ctx, key, e)
    ensures ConfirmOpenStates(h, key, e, ctx.pool, clock, slot) ==
            if OpenNow(h, ctx, e, clock, slot) then Some(OpenCapability(ctx, key, e, clock, slot)) else None
  {
    ConfigurationsAgree(ctx, key, e);
    OpenFitsIff(h, ctx, key, e, clock, slot);
  }

  lemma DecodedEpoch(h: Host, ctx: Context, key: Bytes32, e: EpochState)
    requires SameProgram(h, ctx) && EpochInv(ctx, key, e)
    ensures DecodeProgramEpoch(h, key, RpcAccount(h.programId, EpochBytes(e))) == Some(e)
  {
    EpochRoundTrip(e);
  }

  lemma OpenAgrees(h: Host, ctx: Context, key: Bytes32, e: EpochState, clock: Clock, slot: u64)
    requires SameProgram(h, ctx) && EpochInv(ctx, key, e)
    ensures ConfirmOpen(h, key, RpcAccount(h.programId, EpochBytes(e)), e.pool,
            RpcAccount(h.programId, PoolBytes(ctx.pool)), h.sysvarId, clock, slot) ==
            if OpenNow(h, ctx, e, clock, slot) then Some(OpenCapability(ctx, key, e, clock, slot)) else None
  {
    DecodedEpoch(h, ctx, key, e);
    PoolRoundTrip(ctx.pool);
    OpenStatesAgree(h, ctx, key, e, clock, slot);
  }

  lemma LockedAgrees(h: Host, ctx: Context, key: Bytes32, e: EpochState, slot: u64)
    requires SameProgram(h, ctx) && EpochInv(ctx, key, e)
    ensures ConfirmLockedAccount(h, key, RpcAccount(h.programId, EpochBytes(e)), slot) ==
            if e.terminal == Locked && e.configurationHash != ZERO then Some(ConfirmedLock(key, e, None, slot))
            else None
  {
    EpochRoundTrip(e);
  }

  lemma LockAgrees(h: Host, ctx: Context, key: Bytes32, e: EpochState, clock: Clock, slot: u64)
    requires SameProgram(h, ctx) && EpochInv(ctx, key, e)
    ensures ConfirmLock(h, key, RpcAccount(h.programId, EpochBytes(e)), RpcAccount(h.programId, PoolBytes(ctx.pool)),
            h.sysvarId, clock, slot) ==
            if LockedNow(e, clock, slot) then Some(ConfirmedLock(key, e, Some(ctx.pool), slot)) else None
  {
    LockedAgrees(h, ctx, key, e, slot);
    PoolRoundTrip(ctx.pool);
    ConfigurationsAgree(ctx, key, e);
  }

  /** A confirmed open epoch carries the terms of the stored epoch, which is Open, and of the stored pool. */
  lemma ConfirmedOpenReads(h: Host, key: Bytes32, e: EpochState, pool: PoolState, clock: Clock, slot: u64)
    ensures var c := ConfirmOpen(h, key, RpcAccount(h.programId, EpochBytes(e)), e.pool,
                                 RpcAccount(h.programId, PoolBytes(pool)), h.sysvarId, clock, slot);
            c.Some? ==> e.terminal == Open && c.value == ConfirmedOpen(
              key, HostConfiguration(e, pool),
              Policy(e.epochId, pool.operator, e.minimum, e.baseLot, e.quotePerLot, clock.slot), clock.timestamp, slot)
  {
    EpochRoundTrip(e);
    PoolRoundTrip(pool);
  }

  /** A confirmed lock carries the stored epoch, which is Locked, and the stored pool. */
  lemma ConfirmedLockReads(h: Host, key: Bytes32, e: EpochState, pool: PoolState, clock: Clock, slot: u64)
    ensures var c := ConfirmLock(h, key, RpcAccount(h.programId, EpochBytes(e)),
            RpcAccount(h.programId, PoolBytes(pool)), h.sysvarId, clock, slot);
            c.Some? ==> e.terminal == Locked && c.value == ConfirmedLock(key, e, Some(pool), slot)
  {
    EpochRoundTrip(e);
    PoolRoundTrip(pool);
  }

  lemma TerminalAgrees(h: Host, ctx: Context, key: Bytes32, e: EpochState, slot: u64)
    requires SameProgram(h, ctx) && EpochInv(ctx, key, e)
    ensures ConfirmTerminal(h, key, RpcAccount(h.programId, EpochBytes(e)), slot) ==
            if e.terminal == Expired || e.terminal == Aborted
            then Some(ConfirmedTerminal(key, e.epochId, e.terminal, slot)) else None
  {
    DecodedEpoch(h, ctx, key, e);
  }

  /** Exactly the matching capability accepts the stored account. */
  ghost predicate ExactlyMatched(h: Host, ctx: Context, key: Bytes32, e: EpochState, clock: Clock, slot: u64) {
    var epoch, pool := RpcAccount(h.programId, EpochBytes(e)), RpcAccount(h.programId, PoolBytes(ctx.pool));
    && (ConfirmOpen(h, key, epoch, e.pool, pool, h.sysvarId, clock, slot).Some? <==> OpenNow(h, ctx, e, clock, slot))
    && (ConfirmLock(h, key, epoch, pool, h.sysvarId, clock, slot).Some? <==> LockedNow(e, clock, slot))
    && (ConfirmTerminal(h, key, epoch, slot).Some? <==> e.terminal == Expired || e.terminal == Aborted)
  }

  lemma AccountMatched(h: Host, ctx: Context, key: Bytes32, e: EpochState, clock: Clock, slot: u64)
    requires SameProgram(h, ctx) && EpochInv(ctx, key, e)
    ensures ExactlyMatched(h, ctx, key, e, clock, slot)
  {
    OpenAgrees(h, ctx, key, e, clock, slot);
    LockAgrees(h, ctx, key, e, clock, slot);
    TerminalAgrees(h, ctx, key, e, slot);
  }

  lemma ReachedEpoch(ctx: Context, start: Tokens, steps: seq<Step>, key: Bytes32)
    requires key in Run(ctx, Chain(map[], start), steps).epochs
    ensures EpochInv(ctx, key, Run(ctx, Chain(map[], start), steps).epochs[key])
  {
    EpochRunInvariant(ctx, Chain(map[], start), steps);
  }

  /** Every epoch state the program can reach, encoded and decoded again, is accepted by exactly the matching capability
      and exactly when it should be: Open before its lock deadline with a usable operator key, Locked up to its abort
      deadline, Expired or Aborted, and Settled by none. A configuration hash of zero, which the host refuses, does not
      occur where the hash is sound. */
  lemma HostAndChainAgree(h: Host, ctx: Context, start: Tokens, steps: seq<Step>, key: Bytes32, clock: Clock, slot: u64)
    requires SameProgram(h, ctx) && key in Run(ctx, Chain(map[], start), steps).epochs
    ensures ExactlyMatched(h, ctx, key, Run(ctx, Chain(map[], start), steps).epochs[key], clock, slot)
    ensures var e := Run(ctx, Chain(map[], start), steps).epochs[key];
            Sound(ctx.sha, iset{CONFIG_DOMAIN + ConfigBytes(Configuration(ctx, e))}) ==> e.configurationHash != ZERO
  {
    ReachedEpoch(ctx, start, steps, key);
    AccountMatched(h, ctx, key, Run(ctx, Chain(map[], start), steps).epochs[key], clock, slot);
  }
}
