/** Every run of the epoch program: what each epoch account keeps, and where the tokens went. */
module ProgramRuns {
  import opened Bytes
  import opened Sums
  import opened Wire
  import opened ChainState
  import opened Quorum
  import opened Program

  datatype Act =
    | Create(key: Bytes32, operator: Bytes32, args: CreateArgs)
    | Lock(key: Bytes32, payload: LockPayload, ixs: seq<Instruction>)
    | Settle(key: Bytes32, compact: CompactSettlement, ixs: seq<Instruction>)
    | Expire(key: Bytes32)
    | Abort(key: Bytes32)

  /** One instruction processed at chain time `now`. */
  datatype Step = Step(now: i64, act: Act)

  ghost function Outcome(ctx: Context, c: Chain, step: Step): Result<Chain, ProgramError> {
    match step.act
    case Create(key, operator, args) => CreateSpec(ctx, c, step.now, operator, key, args)
    case Lock(key, payload, ixs) => LockSpec(ctx, c, step.now, key, payload, ixs)
    case Settle(key, compact, ixs) => SettleSpec(ctx, c, step.now, key, compact, ixs)
    case Expire(key) => EndSpec(ctx, c, step.now, key, false)
    case Abort(key) => EndSpec(ctx, c, step.now, key, true)
  }

  ghost function Exec(ctx: Context, c: Chain, step: Step): Chain {
    var r := Outcome(ctx, c, step);
    if r.Ok? then r.value else c
  }

  ghost function Run(ctx: Context, c: Chain, steps: seq<Step>): Chain
    decreases |steps|
  {
    if steps == [] then c else Run(ctx, Exec(ctx, c, steps[0]), steps[1..])
  }

  lemma {:induction false} RunSplit(ctx: Context, c: Chain, a: seq<Step>, b: seq<Step>)
    ensures Run(ctx, c, a + b) == Run(ctx, Run(ctx, c, a), b)
    decreases |a|
  {
    if a == [] {
      assert a + b == b;
    } else {
      RunSplit(ctx, Exec(ctx, c, a[0]), a[1..], b);
      assert (a + b)[1..] == a[1..] + b;
    }
  }

  /** The chain clock does not go backwards. */
  ghost predicate Clocked(from: int, steps: seq<Step>)
    decreases |steps|
  {
    steps == [] || (from <= steps[0].now && Clocked(steps[0].now, steps[1..]))
  }

  // ---- how one epoch account can move ----

  ghost predicate LockMove(ctx: Context, key: Bytes32, a: EpochState, b: EpochState, p: LockPayload) {
    a.terminal == Open && LockFits(key, a, p) && p.memberCount >= a.minimum && b == LockedBy(ctx, a, p)
  }

  ghost predicate SettleMove(ctx: Context, key: Bytes32, a: EpochState, b: EpochState, s: CompactSettlement) {
    a.terminal == Locked && SettlementFits(a, s) && b == SettledBy(ctx, key, a, s)
  }

  ghost predicate Moves(ctx: Context, key: Bytes32, a: EpochState, b: EpochState) {
    || b == a
    || (exists p :: LockMove(ctx, key, a, b, p))
    || (exists s :: SettleMove(ctx, key, a, b, s))
    || (a.terminal == Open && b == a.(terminal := Expired))
    || (a.terminal == Locked && b == a.(terminal := Aborted))
  }

  lemma OtherEpochsStay(ctx: Context, c: Chain, step: Step, key: Bytes32)
    requires key != step.act.key
    ensures key in c.epochs <==> key in Exec(ctx, c, step).epochs
    ensures key in c.epochs ==> Exec(ctx, c, step).epochs[key] == c.epochs[key]
  {
  }

  /** An epoch account is never closed, and moves only forward. */
  lemma StepMoves(ctx: Context, c: Chain, step: Step, key: Bytes32)
    requires key in c.epochs
    ensures key in Exec(ctx, c, step).epochs
    ensures Moves(ctx, key, c.epochs[key], Exec(ctx, c, step).epochs[key])
  {
    if key != step.act.key {
      OtherEpochsStay(ctx, c, step, key);
    } else if Outcome(ctx, c, step).Ok? {
      var a, b := c.epochs[key], Exec(ctx, c, step).epochs[key];
      if step.act.Lock? { assert LockMove(ctx, key, a, b, step.act.payload); }
      if step.act.Settle? { assert SettleMove(ctx, key, a, b, step.act.compact); }
    }
  }

  lemma StepCreates(ctx: Context, c: Chain, step: Step, key: Bytes32)
    requires key !in c.epochs && key in Exec(ctx, c, step).epochs
    ensures step.act.Create? && step.act.key == key
            && CreateSpec(ctx, c, step.now, step.act.operator, key, step.act.args).Ok?
    ensures Exec(ctx, c, step).epochs[key] == FreshEpoch(ctx, step.act.args)
  {
  }

  // ---- the invariant of every epoch account ----

  function LockOf(key: Bytes32, e: EpochState): LockPayload {
    LockPayload(key, e.configurationHash, e.preBalanceRoot, e.memberRoot, e.memberCount, e.lockDeadline, e.lockNonce)
  }

  function CompactOf(e: EpochState): CompactSettlement {
    CompactSettlement(e.resultCommitment, e.residualSide, e.residualLots, e.settlementNonce)
  }

  /** Before a lock the lock fields are empty; from then on they are what the stored digest was computed from. */
  ghost predicate LockInv(ctx: Context, key: Bytes32, e: EpochState) {
    if e.terminal == Open || e.terminal == Expired then
      e.preBalanceRoot == ZERO && e.memberRoot == ZERO && e.memberCount == 0 && e.lockDigest == ZERO
        && e.lockNonce == ZERO
    else
      && e.memberCount >= e.minimum >= 4 && e.preBalanceRoot != ZERO && e.memberRoot != ZERO && e.lockNonce != ZERO
      && e.lockDigest == LockDigest(ctx.sha, LockOf(key, e))
  }

  /** Only a settled epoch has settlement fields, and they are what the stored digest was computed from. */
  ghost predicate SettleInv(ctx: Context, key: Bytes32, e: EpochState) {
    if e.terminal == Settled then
      && SettlementFits(e, CompactOf(e))
      && e.settlementDigest == SettlementDigest(ctx.sha, SettlementPayloadOf(ctx, key, e, CompactOf(e)))
    else
      e.residualSide == 0 && e.residualLots == 0 && e.resultCommitment == ZERO && e.settlementDigest == ZERO
        && e.settlementNonce == ZERO
  }

  ghost predicate EpochInv(ctx: Context, key: Bytes32, e: EpochState) {
    ValidatePool(ctx).None? && ValidateEpoch(ctx, key, e).None? && LockInv(ctx, key, e) && SettleInv(ctx, key, e)
  }

  ghost predicate AllEpochs(ctx: Context, c: Chain) {
    forall key | key in c.epochs :: EpochInv(ctx, key, c.epochs[key])
  }

  lemma SameConfiguration(ctx: Context, a: EpochState, b: EpochState)
    requires a.epochId == b.epochId && a.quotePerLot == b.quotePerLot && a.minimum == b.minimum
    requires a.lockDeadline == b.lockDeadline && a.abortDeadline == b.abortDeadline
    ensures Configuration(ctx, a) == Configuration(ctx, b)
  {
  }

  lemma LockMoveInv(ctx: Context, key: Bytes32, a: EpochState, b: EpochState, p: LockPayload)
    requires EpochInv(ctx, key, a) && LockMove(ctx, key, a, b, p)
    ensures EpochInv(ctx, key, b)
  {
    SameConfiguration(ctx, a, b);
    assert LockOf(key, b) == p;
  }

  lemma SettleMoveInv(ctx: Context, key: Bytes32, a: EpochState, b: EpochState, s: CompactSettlement)
    requires EpochInv(ctx, key, a) && SettleMove(ctx, key, a, b, s)
    ensures EpochInv(ctx, key, b)
  {
    SameConfiguration(ctx, a, b);
    assert CompactOf(b) == s && LockOf(key, b) == LockOf(key, a);
    assert SettlementPayloadOf(ctx, key, b, s) == SettlementPayloadOf(ctx, key, a, s);
  }

  lemma MovesInv(ctx: Context, key: Bytes32, a: EpochState, b: EpochState)
    requires EpochInv(ctx, key, a) && Moves(ctx, key, a, b)
    ensures EpochInv(ctx, key, b)
  {
    if p :| LockMove(ctx, key, a, b, p) {
      LockMoveInv(ctx, key, a, b, p);
    } else if s :| SettleMove(ctx, key, a, b, s) {
      SettleMoveInv(ctx, key, a, b, s);
    } else {
      SameConfiguration(ctx, a, b);
      assert LockOf(key, b) == LockOf(key, a);
    }
  }

  lemma FreshInv(ctx: Context, c: Chain, now: i64, operator: Bytes32, key: Bytes32, args: CreateArgs)
    requires CreateSpec(ctx, c, now, operator, key, args).Ok?
    ensures EpochInv(ctx, key, FreshEpoch(ctx, args))
  {
    var e := FreshEpoch(ctx, args);
    SameConfiguration(ctx, e.(configurationHash := ZERO), e);
  }

  lemma StepAllEpochs(ctx: Context, c: Chain, step: Step)
    requires AllEpochs(ctx, c)
    ensures AllEpochs(ctx, Exec(ctx, c, step))
  {
    var d := Exec(ctx, c, step);
    forall key | key in d.epochs ensures EpochInv(ctx, key, d.epochs[key]) {
      if key in c.epochs {
        StepMoves(ctx, c, step, key);
        MovesInv(ctx, key, c.epochs[key], d.epochs[key]);
      } else {
        StepCreates(ctx, c, step, key);
        FreshInv(ctx, c, step.now, step.act.operator, key, step.act.args);
      }
    }
  }

  /** In every reachable state, every epoch account satisfies the invariant. */
  lemma {:induction false} EpochRunInvariant(ctx: Context, c: Chain, steps: seq<Step>)
    requires AllEpochs(ctx, c)
    ensures AllEpochs(ctx, Run(ctx, c, steps))
    decreases |steps|
  {
    if steps != [] {
      StepAllEpochs(ctx, c, steps[0]);
      EpochRunInvariant(ctx, Exec(ctx, c, steps[0]), steps[1..]);
    }
  }

  // ---- what never changes ----

  ghost predicate SameTerms(a: EpochState, b: EpochState) {
    && a.bump == b.bump && a.pool == b.pool && a.epochId == b.epochId && a.configurationHash == b.configurationHash
    && a.minimum == b.minimum && a.baseLot == b.baseLot && a.quotePerLot == b.quotePerLot
    && a.lockDeadline == b.lockDeadline && a.abortDeadline == b.abortDeadline
  }

  ghost predicate SameLock(a: EpochState, b: EpochState) {
    && a.preBalanceRoot == b.preBalanceRoot && a.memberRoot == b.memberRoot && a.memberCount == b.memberCount
    && a.lockDigest == b.lockDigest && a.lockNonce == b.lockNonce
  }

  predicate HasLock(e: EpochState) { e.terminal == Locked || e.terminal == Settled || e.terminal == Aborted }

  predicate Final(t: Terminal) { t == Settled || t == Expired || t == Aborted }

  /** What a later state of an account owes to an earlier one. */
  ghost predicate Later(a: EpochState, b: EpochState) {
    && SameTerms(a, b)
    && (Final(a.terminal) ==> b == a)
    && (a.terminal == Locked ==> SameLock(a, b) && b.terminal != Open && b.terminal != Expired)
  }

  lemma MovesLater(ctx: Context, key: Bytes32, a: EpochState, b: EpochState)
    requires Moves(ctx, key, a, b)
    ensures Later(a, b)
  {
  }

  /** Configuration never changes, a lock is never replaced, and Settled, Expired and Aborted are the end. */
  lemma {:induction false} AccountsOnlyMoveForward(ctx: Context, c: Chain, steps: seq<Step>, key: Bytes32)
    requires key in c.epochs
    ensures key in Run(ctx, c, steps).epochs
    ensures Later(c.epochs[key], Run(ctx, c, steps).epochs[key])
    decreases |steps|
  {
    if steps != [] {
      var d := Exec(ctx, c, steps[0]);
      StepMoves(ctx, c, steps[0], key);
      MovesLater(ctx, key, c.epochs[key], d.epochs[key]);
      AccountsOnlyMoveForward(ctx, d, steps[1..], key);
    }
  }

  /** Settling and aborting an epoch are never both possible; nor are locking and expiring it. */
  lemma NeverBothEnabled(ctx: Context, c: Chain, now: i64, key: Bytes32, s: CompactSettlement, p: LockPayload,
                         ixs: seq<Instruction>)
    ensures !(SettleSpec(ctx, c, now, key, s, ixs).Ok? && EndSpec(ctx, c, now, key, true).Ok?)
    ensures !(LockSpec(ctx, c, now, key, p, ixs).Ok? && EndSpec(ctx, c, now, key, false).Ok?)
  {
  }

  /** Once abort has become possible in time, no later settlement succeeds, however the run goes on. */
  lemma {:induction false} NoSettlementAfterAbortTime(ctx: Context, c: Chain, now: int, steps: seq<Step>, key: Bytes32)
    requires key in c.epochs && now > c.epochs[key].abortDeadline && Clocked(now, steps)
    requires c.epochs[key].terminal != Settled
    ensures key in Run(ctx, c, steps).epochs && Run(ctx, c, steps).epochs[key].terminal != Settled
    decreases |steps|
  {
    if steps != [] {
      var d := Exec(ctx, c, steps[0]);
      StepMoves(ctx, c, steps[0], key);
      MovesLater(ctx, key, c.epochs[key], d.epochs[key]);
      if steps[0].act.key != key { OtherEpochsStay(ctx, c, steps[0], key); }
      NoSettlementAfterAbortTime(ctx, d, steps[0].now, steps[1..], key);
    }
  }

  // ---- the vaults ----

  /** Lots the pool bought from the venue by settling this epoch. */
  function SignedLots(e: EpochState): int {
    if e.terminal != Settled then 0
    else if e.residualSide == 1 then e.residualLots
    else if e.residualSide == 2 then 0 - e.residualLots
    else 0
  }

  function BaseMoved(epochs: map<Bytes32, EpochState>): Bytes32 -> int {
    key => if key in epochs then Times(SignedLots(epochs[key]), epochs[key].baseLot) else 0
  }

  function QuoteMoved(epochs: map<Bytes32, EpochState>): Bytes32 -> int {
    key => if key in epochs then Times(SignedLots(epochs[key]), epochs[key].quotePerLot) else 0
  }

  /** The signed residuals of all settled epochs, in atoms. */
  ghost function TotalBase(epochs: map<Bytes32, EpochState>): int { Sum(epochs.Keys, BaseMoved(epochs)) }
  ghost function TotalQuote(epochs: map<Bytes32, EpochState>): int { Sum(epochs.Keys, QuoteMoved(epochs)) }

  /** No tokens appear or vanish, and the pool's change is exactly the sum of the signed settled residuals. */
  ghost predicate VaultInv(start: Tokens, c: Chain) {
    && c.tokens.poolBase + c.tokens.venueBase == start.poolBase + start.venueBase
    && c.tokens.poolQuote + c.tokens.venueQuote == start.poolQuote + start.venueQuote
    && c.tokens.poolBase == start.poolBase + TotalBase(c.epochs)
    && c.tokens.poolQuote == start.poolQuote - TotalQuote(c.epochs)
  }

  /** What one successful pair of legs does. */
  lemma LegsMove(t: Tokens, side: byte, lots: u32, base: u64, quote: u64)
    requires ValidResidual(side, lots) && Legs(t, side, base, quote).Some?
    ensures var u := Legs(t, side, base, quote).value;
            && u.poolBase + u.venueBase == t.poolBase + t.venueBase
            && u.poolQuote + u.venueQuote == t.poolQuote + t.venueQuote
            && u.poolBase == t.poolBase + (if side == 1 then base else if side == 2 then 0 - base else 0)
            && u.poolQuote == t.poolQuote - (if side == 1 then quote else if side == 2 then 0 - quote else 0)
  {
  }

  lemma TotalsReplace(epochs: map<Bytes32, EpochState>, key: Bytes32, e: EpochState)
    requires key in epochs
    ensures TotalBase(epochs[key := e]) == TotalBase(epochs) - BaseMoved(epochs)(key) + Times(SignedLots(e), e.baseLot)
    ensures TotalQuote(epochs[key := e])
            == TotalQuote(epochs) - QuoteMoved(epochs)(key) + Times(SignedLots(e), e.quotePerLot)
  {
    var next := epochs[key := e];
    assert next.Keys == epochs.Keys;
    SumUpdate(epochs.Keys, BaseMoved(epochs), BaseMoved(next), key);
    SumUpdate(epochs.Keys, QuoteMoved(epochs), QuoteMoved(next), key);
  }

  lemma BaseCreate(epochs: map<Bytes32, EpochState>, key: Bytes32, e: EpochState)
    requires key !in epochs && e.terminal != Settled
    ensures TotalBase(epochs[key := e]) == TotalBase(epochs)
  {
    var next := epochs[key := e];
    assert next.Keys == epochs.Keys + {key};
    SumInsert(epochs.Keys, BaseMoved(epochs), BaseMoved(next), key);
  }

  lemma QuoteCreate(epochs: map<Bytes32, EpochState>, key: Bytes32, e: EpochState)
    requires key !in epochs && e.terminal != Settled
    ensures TotalQuote(epochs[key := e]) == TotalQuote(epochs)
  {
    var next := epochs[key := e];
    assert next.Keys == epochs.Keys + {key};
    SumInsert(epochs.Keys, QuoteMoved(epochs), QuoteMoved(next), key);
  }

  /** What a successful settle consists of. */
  lemma SettleParts(ctx: Context, c: Chain, now: i64, key: Bytes32, s: CompactSettlement, ixs: seq<Instruction>)
    requires SettleSpec(ctx, c, now, key, s, ixs).Ok?
    ensures key in c.epochs && c.epochs[key].terminal == Locked && SettlementFits(c.epochs[key], s)
    ensures var e, d := c.epochs[key], SettleSpec(ctx, c, now, key, s, ixs).value;
            var base, quote := Times(s.residualLots, e.baseLot), Times(s.residualLots, e.quotePerLot);
            && 0 <= base <= U64_MAX && 0 <= quote <= U64_MAX
               && Legs(c.tokens, s.residualSide, base, quote) == Some(d.tokens)
            && d.epochs == c.epochs[key := SettledBy(ctx, key, e, s)]
  {
    TimesNonNegative(s.residualLots, c.epochs[key].baseLot);
    TimesNonNegative(s.residualLots, c.epochs[key].quotePerLot);
  }

  lemma SignedTimes(e: EpochState, m: u64)
    requires e.terminal == Settled && ValidResidual(e.residualSide, e.residualLots)
    ensures Times(SignedLots(e), m) ==
            if e.residualSide == 1 then Times(e.residualLots, m)
            else if e.residualSide == 2 then 0 - Times(e.residualLots, m) else 0
  {
  }

  /** A settle moves exactly the signed residual it stores. */
  lemma SettleMovesResidual(ctx: Context, c: Chain, now: i64, key: Bytes32, s: CompactSettlement, ixs: seq<Instruction>)
    requires SettleSpec(ctx, c, now, key, s, ixs).Ok?
    ensures key in c.epochs && c.epochs[key].terminal == Locked
    ensures var d := SettleSpec(ctx, c, now, key, s, ixs).value;
            var e := SettledBy(ctx, key, c.epochs[key], s);
            && d.epochs == c.epochs[key := e]
            && d.tokens.poolBase == c.tokens.poolBase + Times(SignedLots(e), e.baseLot)
            && d.tokens.poolQuote == c.tokens.poolQuote - Times(SignedLots(e), e.quotePerLot)
            && d.tokens.poolBase + d.tokens.venueBase == c.tokens.poolBase + c.tokens.venueBase
            && d.tokens.poolQuote + d.tokens.venueQuote == c.tokens.poolQuote + c.tokens.venueQuote
  {
    SettleParts(ctx, c, now, key, s, ixs);
    var e := SettledBy(ctx, key, c.epochs[key], s);
    LegsMove(c.tokens, s.residualSide, s.residualLots, Times(s.residualLots, e.baseLot),
      Times(s.residualLots, e.quotePerLot));
    SignedTimes(e, e.baseLot);
    SignedTimes(e, e.quotePerLot);
  }

  /** No other instruction touches tokens or a settled epoch. */
  lemma OthersMoveNothing(ctx: Context, c: Chain, step: Step)
    requires !step.act.Settle? && Outcome(ctx, c, step).Ok?
    ensures var d, key := Outcome(ctx, c, step).value, step.act.key;
            && key in d.epochs && d == Chain(c.epochs[key := d.epochs[key]], c.tokens)
            && d.epochs[key].terminal != Settled && (key in c.epochs ==> c.epochs[key].terminal != Settled)
  {
  }

  lemma TotalsQuiet(epochs: map<Bytes32, EpochState>, key: Bytes32, e: EpochState)
    requires e.terminal != Settled && (key in epochs ==> epochs[key].terminal != Settled)
    ensures TotalBase(epochs[key := e]) == TotalBase(epochs)
    ensures TotalQuote(epochs[key := e]) == TotalQuote(epochs)
  {
    if key in epochs {
      TotalsReplace(epochs, key, e);
    } else { BaseCreate(epochs, key, e); QuoteCreate(epochs, key, e); }
  }

  lemma SettleVault(ctx: Context, start: Tokens, c: Chain, now: i64, key: Bytes32, s: CompactSettlement,
                    ixs: seq<Instruction>)
    requires VaultInv(start, c) && SettleSpec(ctx, c, now, key, s, ixs).Ok?
    ensures VaultInv(start, SettleSpec(ctx, c, now, key, s, ixs).value)
  {
    SettleMovesResidual(ctx, c, now, key, s, ixs);
    var d := SettleSpec(ctx, c, now, key, s, ixs).value;
    TotalsReplace(c.epochs, key, d.epochs[key]);
  }

  lemma StepVault(ctx: Context, start: Tokens, c: Chain, step: Step)
    requires VaultInv(start, c)
    ensures VaultInv(start, Exec(ctx, c, step))
  {
    var r := Outcome(ctx, c, step);
    if r.Ok? {
      if step.act.Settle? {
        SettleVault(ctx, start, c, step.now, step.act.key, step.act.compact, step.act.ixs);
      } else {
        OthersMoveNothing(ctx, c, step);
        TotalsQuiet(c.epochs, step.act.key, r.value.epochs[step.act.key]);
      }
    }
  }

  lemma {:induction false} RunVault(ctx: Context, start: Tokens, c: Chain, steps: seq<Step>)
    requires VaultInv(start, c)
    ensures VaultInv(start, Run(ctx, c, steps))
    decreases |steps|
  {
    if steps != [] {
      StepVault(ctx, start, c, steps[0]);
      RunVault(ctx, start, Exec(ctx, c, steps[0]), steps[1..]);
    }
  }

  /** Over any run, pool plus venue is constant per mint and the pool's change is the sum of signed settled
      residuals. */
  lemma VaultConservation(ctx: Context, start: Tokens, steps: seq<Step>)
    ensures VaultInv(start, Run(ctx, Chain(map[], start), steps))
  {
    RunVault(ctx, start, Chain(map[], start), steps);
  }
}
