/** The host's three capabilities on any accounts at all: what an RPC answer must be for each to be given. */
module Capabilities {
  import opened Bytes
  import opened Wire
  import opened ChainState
  import opened Program
  import opened ProgramRuns
  import opened HostChain
  import opened Canonical

  /** The program as it would see this pool at the address the epoch names. */
  function PoolContext(h: Host, e: EpochState, p: PoolState): Context { Context(h.sha, e.pool, p, h.pda, ZERO) }

  /** These bytes, owned by the program, at the address the program derives for them. */
  ghost predicate HoldsEpoch(h: Host, account: RpcAccount, e: EpochState) {
    account == RpcAccount(h.programId, EpochBytes(e))
  }

  ghost predicate HoldsPool(h: Host, account: RpcAccount, p: PoolState) {
    account == RpcAccount(h.programId, PoolBytes(p))
  }

  lemma ReadsEpoch(h: Host, account: RpcAccount, e: EpochState)
    ensures HoldsEpoch(h, account, e) <==> account.owner == h.programId && DecodeEpoch(account.data) == Some(e)
  {
    EpochIff(account.data, e);
  }

  lemma ReadsPool(h: Host, account: RpcAccount, p: PoolState)
    ensures HoldsPool(h, account, p) <==> account.owner == h.programId && DecodePool(account.data) == Some(p)
  {
    PoolIff(account.data, p);
  }

  // ---- open ----

  ghost predicate OpenBehind(h: Host, key: Bytes32, epoch: RpcAccount, poolRead: Bytes32, pool: RpcAccount,
                             clock: Clock, slot: u64, e: EpochState, p: PoolState) {
    && HoldsEpoch(h, epoch, e) && HoldsPool(h, pool, p) && poolRead == e.pool
    && EpochInv(PoolContext(h, e, p), key, e) && OpenNow(h, PoolContext(h, e, p), e, clock, slot)
  }

  /** What the host checks of an open epoch is every invariant the program keeps of one. */
  lemma OpenFitsProgram(h: Host, key: Bytes32, e: EpochState, p: PoolState, clock: Clock, slot: u64)
    requires OpenStateFits(h, e, p, clock, slot)
    requires h.pda.epoch(e.pool, e.epochId) == key && e.bump == h.pda.epochBump(e.pool, e.epochId)
    ensures EpochInv(PoolContext(h, e, p), key, e)
  {
  }

  lemma OpenGiven(h: Host, key: Bytes32, epoch: RpcAccount, poolRead: Bytes32, pool: RpcAccount, clockOwner: Bytes32,
                  clock: Clock, slot: u64)
    returns (e: EpochState, p: PoolState)
    requires ConfirmOpen(h, key, epoch, poolRead, pool, clockOwner, clock, slot).Some?
    ensures clockOwner == h.sysvarId && OpenBehind(h, key, epoch, poolRead, pool, clock, slot, e, p)
  {
    e, p := DecodeEpoch(epoch.data).value, DecodePool(pool.data).value;
    ReadsEpoch(h, epoch, e);
    ReadsPool(h, pool, p);
    OpenFitsProgram(h, key, e, p, clock, slot);
  }

  /** The open capability is given exactly for the bytes of an epoch and a pool the program could hold there: every
      check and invariant of the program on that pair, Open, before its lock deadline, with a usable operator key, read
      no later than the confirmed slot. And it carries their terms. */
  lemma OpenIff(h: Host, key: Bytes32, epoch: RpcAccount, poolRead: Bytes32, pool: RpcAccount, clockOwner: Bytes32,
                clock: Clock, slot: u64, x: ConfirmedOpen)
    ensures ConfirmOpen(h, key, epoch, poolRead, pool, clockOwner, clock, slot) == Some(x)
            <==> && clockOwner == h.sysvarId
                 && exists e, p | OpenBehind(h, key, epoch, poolRead, pool, clock, slot, e, p) ::
                      x == OpenCapability(PoolContext(h, e, p), key, e, clock, slot)
  {
    if ConfirmOpen(h, key, epoch, poolRead, pool, clockOwner, clock, slot) == Some(x) {
      var e, p := OpenGiven(h, key, epoch, poolRead, pool, clockOwner, clock, slot);
      OpenAgrees(h, PoolContext(h, e, p), key, e, clock, slot);
    }
    if clockOwner == h.sysvarId {
      forall e, p | OpenBehind(h, key, epoch, poolRead, pool, clock, slot, e, p)
        ensures ConfirmOpen(h, key, epoch, poolRead, pool, clockOwner, clock, slot)
                == Some(OpenCapability(PoolContext(h, e, p), key, e, clock, slot))
      {
        OpenAgrees(h, PoolContext(h, e, p), key, e, clock, slot);
      }
    }
  }

  // ---- locked ----

  /** The epoch at its derived address, locked, with the lock fields its digest was computed from. */
  ghost predicate LockedEpoch(h: Host, key: Bytes32, e: EpochState, p: PoolState) {
    && h.pda.epoch(e.pool, e.epochId) == key && e.bump == h.pda.epochBump(e.pool, e.epochId)
    && e.terminal == Locked && LockInv(PoolContext(h, e, p), key, e)
    && e.baseLot > 0 && e.quotePerLot > 0 && e.lockDeadline < e.abortDeadline
  }

  /** And the pool it names, whose terms hash to the epoch's configuration hash. */
  ghost predicate PoolOfLock(h: Host, e: EpochState, p: PoolState) {
    && PoolAddressed(h, e, p) && p.lockThreshold == 2 && p.settlementThreshold == 2 && p.baseLot > 0
    && p.baseMint != p.quoteMint
    && e.configurationHash == ConfigDigest(h.sha, Configuration(PoolContext(h, e, p), e))
  }

  ghost predicate LockBehind(h: Host, key: Bytes32, epoch: RpcAccount, pool: RpcAccount, clock: Clock, slot: u64,
                             e: EpochState, p: PoolState) {
    && HoldsEpoch(h, epoch, e) && HoldsPool(h, pool, p)
    && LockedEpoch(h, key, e, p) && PoolOfLock(h, e, p) && LockedNow(e, clock, slot)
  }

  lemma LockedFitsIff(h: Host, key: Bytes32, e: EpochState, p: PoolState)
    ensures LockedStateFits(h, key, e) <==> LockedEpoch(h, key, e, p) && e.configurationHash != ZERO
  {
  }

  lemma LockGiven(h: Host, key: Bytes32, epoch: RpcAccount, pool: RpcAccount, clockOwner: Bytes32, clock: Clock,
                  slot: u64)
    returns (e: EpochState, p: PoolState)
    requires ConfirmLock(h, key, epoch, pool, clockOwner, clock, slot).Some?
    ensures clockOwner == h.sysvarId && LockBehind(h, key, epoch, pool, clock, slot, e, p)
    ensures ConfirmLock(h, key, epoch, pool, clockOwner, clock, slot).value == ConfirmedLock(key, e, Some(p), slot)
  {
    e, p := DecodeEpoch(epoch.data).value, DecodePool(pool.data).value;
    ReadsEpoch(h, epoch, e);
    ReadsPool(h, pool, p);
    LockedFitsIff(h, key, e, p);
  }

  lemma LockGivenFor(h: Host, key: Bytes32, epoch: RpcAccount, pool: RpcAccount, clock: Clock, slot: u64,
                     e: EpochState, p: PoolState)
    requires LockBehind(h, key, epoch, pool, clock, slot, e, p)
    ensures ConfirmLock(h, key, epoch, pool, h.sysvarId, clock, slot) == Some(ConfirmedLock(key, e, Some(p), slot))
  {
    ReadsEpoch(h, epoch, e);
    ReadsPool(h, pool, p);
    LockedFitsIff(h, key, e, p);
  }

  /** The lock capability is given exactly for the bytes of a locked epoch whose digest is that of its lock fields,
      up to its abort deadline, and of the pool at the address it names whose terms it committed to. And it carries
      both. */
  lemma LockIff(h: Host, key: Bytes32, epoch: RpcAccount, pool: RpcAccount, clockOwner: Bytes32, clock: Clock,
                slot: u64, x: ConfirmedLock)
    ensures ConfirmLock(h, key, epoch, pool, clockOwner, clock, slot) == Some(x)
            <==> && clockOwner == h.sysvarId
                 && exists e, p | LockBehind(h, key, epoch, pool, clock, slot, e, p) ::
                      x == ConfirmedLock(key, e, Some(p), slot)
  {
    if ConfirmLock(h, key, epoch, pool, clockOwner, clock, slot) == Some(x) {
      var e, p := LockGiven(h, key, epoch, pool, clockOwner, clock, slot);
    }
    if clockOwner == h.sysvarId {
      forall e, p | LockBehind(h, key, epoch, pool, clock, slot, e, p)
        ensures ConfirmLock(h, key, epoch, pool, h.sysvarId, clock, slot) == Some(ConfirmedLock(key, e, Some(p), slot))
      {
        LockGivenFor(h, key, epoch, pool, clock, slot, e, p);
      }
    }
  }

  // ---- ended ----

  ghost predicate EndBehind(h: Host, key: Bytes32, epoch: RpcAccount, e: EpochState) {
    && HoldsEpoch(h, epoch, e) && h.pda.epoch(e.pool, e.epochId) == key
    && e.bump == h.pda.epochBump(e.pool, e.epochId) && (e.terminal == Expired || e.terminal == Aborted)
  }

  /** The terminal capability is given exactly for the bytes of an expired or aborted epoch at its derived address. */
  lemma TerminalIff(h: Host, key: Bytes32, epoch: RpcAccount, slot: u64, x: ConfirmedTerminal)
    ensures ConfirmTerminal(h, key, epoch, slot) == Some(x)
            <==> exists e | EndBehind(h, key, epoch, e) :: x == ConfirmedTerminal(key, e.epochId, e.terminal, slot)
  {
    if DecodeEpoch(epoch.data).Some? {
      ReadsEpoch(h, epoch, DecodeEpoch(epoch.data).value);
    }
    forall e | EndBehind(h, key, epoch, e)
      ensures ConfirmTerminal(h, key, epoch, slot) == Some(ConfirmedTerminal(key, e.epochId, e.terminal, slot))
    {
      ReadsEpoch(h, epoch, e);
    }
  }
}
