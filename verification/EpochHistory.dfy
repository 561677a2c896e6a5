/** Where an epoch account comes from: every stored lock, settlement and end traces back to one instruction of the
    run. */
module EpochHistory {
  import opened Bytes
  import opened Wire
  import opened ChainState
  import opened Quorum
  import opened Program
  import opened ProgramRuns

  /** Two different keypers signed `digest`. */
  ghost predicate TwoSigned(ctx: Context, ixs: seq<Instruction>, digest: Bytes32) {
    exists i, j | 0 <= i < j < 3 :: SignedByBoth(ctx, ixs, digest, i, j)
  }

  ghost predicate SignedByBoth(ctx: Context, ixs: seq<Instruction>, digest: Bytes32, i: nat, j: nat)
    requires i < j < 3
  {
    var k := ctx.pool.keypers;
    Signed(ctx.verifier, ixs, digest, Key(k, i)) && Signed(ctx.verifier, ixs, digest, Key(k, j))
      && Key(k, i) != Key(k, j)
  }

  lemma QuorumIsTwo(ctx: Context, ixs: seq<Instruction>, digest: Bytes32)
    requires Count(ctx.verifier, ixs, ctx.pool.keypers, digest) >= 2
    ensures TwoSigned(ctx, ixs, digest)
  {
    var k := ctx.pool.keypers;
    var s := Approvers(ctx.verifier, ixs, k, digest);
    CountThree(k, s);
    if k.k0 in s && k.k1 in s && k.k1 != k.k0 {
      assert SignedByBoth(ctx, ixs, digest, 0, 1);
    } else if k.k0 in s && k.k2 in s && k.k2 != k.k0 {
      assert SignedByBoth(ctx, ixs, digest, 0, 2);
    } else {
      assert SignedByBoth(ctx, ixs, digest, 1, 2);
    }
  }

  // ---- the instruction behind each part of an account ----

  ghost predicate CreatedBy(ctx: Context, step: Step, key: Bytes32, e: EpochState) {
    && step.act.Create? && step.act.key == key && step.act.operator == ctx.pool.operator
    && step.act.args == CreateArgs(e.epochId, e.quotePerLot, e.minimum, e.lockDeadline, e.abortDeadline)
    && step.now < e.lockDeadline < e.abortDeadline
  }

  ghost predicate LockFrom(ctx: Context, step: Step, key: Bytes32, e: EpochState) {
    && step.act.Lock? && step.act.key == key && step.act.payload == LockOf(key, e)
    && step.now < e.lockDeadline && TwoSigned(ctx, step.act.ixs, e.lockDigest)
  }

  ghost predicate EndFrom(ctx: Context, step: Step, key: Bytes32, e: EpochState) {
    && step.act.key == key
    && match e.terminal
       case Settled => step.act.Settle? && step.act.compact == CompactOf(e) && step.now <= e.abortDeadline
                       && TwoSigned(ctx, step.act.ixs, e.settlementDigest)
       case Expired => step.act.Expire? && step.now > e.lockDeadline
       case Aborted => step.act.Abort? && step.now > e.abortDeadline
       case _ => false
  }

  /** The positions in the run at which an epoch was created, locked and ended. */
  datatype Story = Story(created: nat, locked: nat, ended: nat)

  ghost predicate Tells(ctx: Context, steps: seq<Step>, h: Story, key: Bytes32, e: EpochState) {
    && h.created < |steps| && CreatedBy(ctx, steps[h.created], key, e)
    && (HasLock(e) ==> h.created < h.locked < |steps| && LockFrom(ctx, steps[h.locked], key, e))
    && (Final(e.terminal) ==> h.created < h.ended < |steps| && EndFrom(ctx, steps[h.ended], key, e))
    && (Final(e.terminal) && HasLock(e) ==> h.locked < h.ended)
  }

  // ---- one more step ----

  lemma LockTold(ctx: Context, c: Chain, step: Step)
    requires step.act.Lock? && ProgramRuns.Outcome(ctx, c, step).Ok?
    ensures step.act.key in c.epochs && c.epochs[step.act.key].terminal == Open
    ensures LockFrom(ctx, step, step.act.key, Exec(ctx, c, step).epochs[step.act.key])
  {
    QuorumIsTwo(ctx, step.act.ixs, LockDigest(ctx.sha, step.act.payload));
  }

  lemma SettleTold(ctx: Context, c: Chain, step: Step)
    requires step.act.Settle? && ProgramRuns.Outcome(ctx, c, step).Ok?
    ensures step.act.key in c.epochs && c.epochs[step.act.key].terminal == Locked
    ensures EndFrom(ctx, step, step.act.key, Exec(ctx, c, step).epochs[step.act.key])
  {
    var e := c.epochs[step.act.key];
    QuorumIsTwo(ctx, step.act.ixs,
      SettlementDigest(ctx.sha, SettlementPayloadOf(ctx, step.act.key, e, step.act.compact)));
    SettleParts(ctx, c, step.now, step.act.key, step.act.compact, step.act.ixs);
  }

  lemma EndTold(ctx: Context, c: Chain, step: Step)
    requires (step.act.Expire? || step.act.Abort?) && ProgramRuns.Outcome(ctx, c, step).Ok?
    ensures step.act.key in c.epochs && c.epochs[step.act.key].terminal == (if step.act.Abort? then Locked else Open)
    ensures EndFrom(ctx, step, step.act.key, Exec(ctx, c, step).epochs[step.act.key])
  {
  }

  /** What was told of an account stays told while it moves on. */
  lemma StillTold(ctx: Context, step: Step, key: Bytes32, a: EpochState, b: EpochState)
    requires Later(a, b)
    ensures CreatedBy(ctx, step, key, a) ==> CreatedBy(ctx, step, key, b)
    ensures HasLock(a) && LockFrom(ctx, step, key, a) ==> LockFrom(ctx, step, key, b)
  {
    if HasLock(a) { assert LockOf(key, a) == LockOf(key, b); }
  }

  lemma KeepTelling(ctx: Context, steps: seq<Step>, step: Step, h: Story, key: Bytes32, a: EpochState, b: EpochState)
    requires Tells(ctx, steps, h, key, a) && Later(a, b)
    ensures CreatedBy(ctx, (steps + [step])[h.created], key, b)
    ensures HasLock(a) ==> LockFrom(ctx, (steps + [step])[h.locked], key, b)
    ensures a == b ==> Tells(ctx, steps + [step], h, key, b)
  {
    StillTold(ctx, steps[h.created], key, a, b);
    if HasLock(a) { StillTold(ctx, steps[h.locked], key, a, b); }
  }

  /** The step that moves an account is the newest event of its story. */
  lemma TellChange(ctx: Context, c: Chain, steps: seq<Step>, step: Step, h: Story) returns (g: Story)
    requires ProgramRuns.Outcome(ctx, c, step).Ok? && step.act.key in c.epochs
             && Tells(ctx, steps, h, step.act.key, c.epochs[step.act.key])
    ensures step.act.key in Exec(ctx, c, step).epochs
            && Tells(ctx, steps + [step], g, step.act.key, Exec(ctx, c, step).epochs[step.act.key])
  {
    var key, n := step.act.key, |steps|;
    StepMoves(ctx, c, step, key);
    MovesLater(ctx, key, c.epochs[key], Exec(ctx, c, step).epochs[key]);
    KeepTelling(ctx, steps, step, h, key, c.epochs[key], Exec(ctx, c, step).epochs[key]);
    assert (steps + [step])[n] == step;
    if step.act.Lock? {
      LockTold(ctx, c, step);
      g := h.(locked := n);
    } else if step.act.Settle? {
      SettleTold(ctx, c, step);
      g := h.(ended := n);
    } else {
      EndTold(ctx, c, step);
      g := h.(ended := n);
    }
  }

  lemma TellMore(ctx: Context, c: Chain, steps: seq<Step>, step: Step, h: Story, key: Bytes32) returns (g: Story)
    requires key in c.epochs && Tells(ctx, steps, h, key, c.epochs[key])
    ensures key in Exec(ctx, c, step).epochs && Tells(ctx, steps + [step], g, key, Exec(ctx, c, step).epochs[key])
  {
    if key == step.act.key && ProgramRuns.Outcome(ctx, c, step).Ok? {
      g := TellChange(ctx, c, steps, step, h);
    } else {
      if key != step.act.key { OtherEpochsStay(ctx, c, step, key); }
      KeepTelling(ctx, steps, step, h, key, c.epochs[key], c.epochs[key]);
      g := h;
    }
  }

  lemma {:induction false} TellAll(ctx: Context, start: Tokens, steps: seq<Step>, key: Bytes32) returns (h: Story)
    requires key in Run(ctx, Chain(map[], start), steps).epochs
    ensures Tells(ctx, steps, h, key, Run(ctx, Chain(map[], start), steps).epochs[key])
    decreases |steps|
  {
    var n := |steps| - 1;
    var past, step := steps[..n], steps[n];
    assert steps == past + [step];
    RunSplit(ctx, Chain(map[], start), past, [step]);
    var c := Run(ctx, Chain(map[], start), past);
    assert Run(ctx, c, [step]) == Exec(ctx, c, step);
    if key in c.epochs {
      var g := TellAll(ctx, start, past, key);
      h := TellMore(ctx, c, past, step, g, key);
    } else {
      StepCreates(ctx, c, step, key);
      h := Story(n, 0, 0);
    }
  }

  /** Every epoch account of every reachable state was created by the pool's operator before its deadlines with exactly
      its present terms; its lock was written later, in time, from the stored fields, with two different keypers signing
      the stored digest; its settlement later still, likewise; and it expired or was aborted only after its deadline. */
  lemma EveryEpochHasItsStory(ctx: Context, start: Tokens, steps: seq<Step>, key: Bytes32)
    requires key in Run(ctx, Chain(map[], start), steps).epochs
    ensures exists h :: Tells(ctx, steps, h, key, Run(ctx, Chain(map[], start), steps).epochs[key])
  {
    var h := TellAll(ctx, start, steps, key);
  }

  /** No reachable epoch is stuck: past its abort deadline an unfinished one can always be ended. */
  lemma NeverStuck(ctx: Context, start: Tokens, steps: seq<Step>, key: Bytes32, now: i64)
    requires key in Run(ctx, Chain(map[], start), steps).epochs
    requires var e := Run(ctx, Chain(map[], start), steps).epochs[key]; !Final(e.terminal) && now > e.abortDeadline
    ensures var c := Run(ctx, Chain(map[], start), steps);
            EndSpec(ctx, c, now, key, c.epochs[key].terminal == Locked).Ok?
  {
    EpochRunInvariant(ctx, Chain(map[], start), steps);
    assert EpochInv(ctx, key, Run(ctx, Chain(map[], start), steps).epochs[key]);
  }
}
