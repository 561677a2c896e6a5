/** From an accepted package to a locked epoch, and back from the locked epoch to an accepted package. */
module EndToEnd {
  import opened Bytes
  import opened Wire
  import opened ChainState
  import opened Quorum
  import opened Program
  import opened ProgramRuns
  import opened EpochHistory
  import opened ProgramOutcomes
  import opened HostChain
  import opened Submission
  import opened Admission
  import opened LockPackage
  import opened LockOutcomes

  /** The open epoch is this account, with its terms and those of the pool. */
  ghost predicate OpenOf(ctx: Context, key: Bytes32, e: EpochState, open: ConfirmedOpen) {
    && open.epochAccount == key && open.configuration == HostConfiguration(e, ctx.pool)
    && open.policy.epochId == e.epochId && open.policy.operatorKey == ctx.pool.operator
       && open.policy.minimum == e.minimum
    && open.policy.base == e.baseLot && open.policy.quote == e.quotePerLot
  }

  /** The payload a keyper signs for a package in order is one the program takes. */
  lemma PayloadFitsEpoch(ctx: Context, c: Crypto, key: Bytes32, e: EpochState, p: Package, open: ConfirmedOpen)
    requires EpochInv(ctx, key, e) && OpenOf(ctx, key, e, open) && InOrder(c, p, open) && c.sha == ctx.sha
    ensures var y := PayloadOf(c, p);
            && y.epochAccount == key && y.configurationHash == e.configurationHash && y.lockDeadline == e.lockDeadline
            && y.memberCount >= e.minimum && y.lockNonce != ZERO
            && y.preBalanceRoot == p.preBalanceRoot && y.memberRoot == p.memberRoot
  {
    ConfigurationsAgree(ctx, key, e);
  }

  /** A package in order that two different keypers signed locks its epoch, as long as that is Open and before its lock
      deadline; the roots are not zero where the hash is sound. */
  lemma ApprovedPackageLocks(ctx: Context, start: Tokens, steps: seq<Step>, now: i64, key: Bytes32, c: Crypto,
                             p: Package, open: ConfirmedOpen,
                             ixs: seq<Instruction>)
    requires var s := Run(ctx, Chain(map[], start), steps);
             && key in s.epochs && s.epochs[key].terminal == Open && now < s.epochs[key].lockDeadline
             && OpenOf(ctx, key, s.epochs[key], open)
    requires c.sha == ctx.sha && InOrder(c, p, open) && p.preBalanceRoot != ZERO && p.memberRoot != ZERO
    requires TwoSigned(ctx, ixs, PackageDigest(c, p))
    ensures LockSpec(ctx, Run(ctx, Chain(map[], start), steps), now, key, PayloadOf(c, p), ixs).Ok?
  {
    var s := Run(ctx, Chain(map[], start), steps);
    ReachedOpens(ctx, start, steps, key);
    PayloadFitsEpoch(ctx, c, key, s.epochs[key], p, open);
    LockIff(ctx, start, steps, now, key, PayloadOf(c, p), ixs);
  }

  // ---- reading the lock back ----

  /** The epoch as the lock of this package leaves it. */
  function LockedFor(c: Crypto, e: EpochState, p: Package): EpochState {
    e.(terminal := Locked, preBalanceRoot := p.preBalanceRoot, memberRoot := p.memberRoot, memberCount := p.memberCount,
       lockNonce := p.lockNonce, lockDigest := PackageDigest(c, p))
  }

  lemma LockLeaves(ctx: Context, c: Crypto, s: Chain, now: i64, key: Bytes32, p: Package, ixs: seq<Instruction>)
    requires c.sha == ctx.sha && LockSpec(ctx, s, now, key, PayloadOf(c, p), ixs).Ok?
    ensures key in s.epochs
    ensures LockSpec(ctx, s, now, key, PayloadOf(c, p), ixs).value.epochs
            == s.epochs[key := LockedFor(c, s.epochs[key], p)]
  {
    LockDoes(ctx, s, now, key, PayloadOf(c, p), ixs);
  }

  /** Granted for one slot, granted for another exactly when not expired there. */
  lemma GrantedAt(c: Crypto, policy: Policy, slot: u64, s: EncryptedSubmission)
    requires Submitted(c, policy, s)
    ensures Submitted(c, policy.(currentSlot := slot), s) <==> s.auth.expirySlot >= slot
  {
  }

  ghost predicate NoneExpired(subs: seq<EncryptedSubmission>, slot: u64) {
    forall i | 0 <= i < |subs| :: subs[i].auth.expirySlot >= slot
  }

  lemma MembersAt(c: Crypto, policy: Policy, slot: u64, subs: seq<EncryptedSubmission>)
    requires SubmittedApart(c, policy, subs)
    ensures SubmittedApart(c, policy.(currentSlot := slot), subs) <==> NoneExpired(subs, slot)
  {
    forall i | 0 <= i < |subs| ensures Submitted(c, policy.(currentSlot := slot), subs[i])
        <==> subs[i].auth.expirySlot >= slot {
      GrantedAt(c, policy, slot, subs[i]);
    }
  }

  /** The open epoch `validate_locked` checks against. */
  function Restored(ctx: Context, key: Bytes32, e: EpochState, slot: u64): ConfirmedOpen {
    ConfirmedOpen(key, HostConfiguration(e, ctx.pool),
      Policy(e.epochId, ctx.pool.operator, e.minimum, ctx.pool.baseLot, e.quotePerLot, slot),
                  if e.lockDeadline > I64_MIN then e.lockDeadline - 1 else I64_MIN, slot)
  }

  lemma StandsForRestored(ctx: Context, key: Bytes32, e: EpochState, slot: u64, open: ConfirmedOpen)
    ensures StandsFor(ConfirmedLock(key, e, Some(ctx.pool), slot), ctx.pool, open)
            <==> open == Restored(ctx, key, e, slot)
  {
  }

  lemma InOrderAgain(ctx: Context, c: Crypto, key: Bytes32, e: EpochState, p: Package, open: ConfirmedOpen, slot: u64)
    requires EpochInv(ctx, key, e) && OpenOf(ctx, key, e, open) && InOrder(c, p, open)
    ensures InOrder(c, p, Restored(ctx, key, LockedFor(c, e, p), slot)) <==> NoneExpired(p.submissions, slot)
  {
    var again := Restored(ctx, key, LockedFor(c, e, p), slot);
    MembersAt(c, open.policy, slot, p.submissions);
    assert again.policy == open.policy.(currentSlot := slot);
    assert again.configuration == open.configuration && again.epochAccount == open.epochAccount;
  }

  /** After the lock, the same package is accepted against it by whoever confirms it at `slot`, if and only if none
      of its authorizations has expired by then. */
  lemma LockedPackageAccepted(ctx: Context, c: Crypto, key: Bytes32, e: EpochState, p: Package, open: ConfirmedOpen,
                              slot: u64)
    requires EpochInv(ctx, key, e) && OpenOf(ctx, key, e, open) && InOrder(c, p, open)
    ensures ValidateLockedSpec(c, p, ConfirmedLock(key, LockedFor(c, e, p), Some(ctx.pool), slot)).Ok?
            <==> NoneExpired(p.submissions, slot)
  {
    var f := ConfirmedLock(key, LockedFor(c, e, p), Some(ctx.pool), slot);
    ValidateLockedIff(c, p, f);
    InOrderAgain(ctx, c, key, e, p, open, slot);
    forall o ensures StandsFor(f, ctx.pool, o) <==> o == Restored(ctx, key, LockedFor(c, e, p), slot) {
      StandsForRestored(ctx, key, LockedFor(c, e, p), slot, o);
    }
  }
}
