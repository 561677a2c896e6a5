/** Vault against ledger: what the pool holds on chain moves with what the account file says it owes. */
module Custody {
  import opened Bytes
  import opened Sums
  import L = Ledger
  import opened Accounts
  import opened JournalRuns
  import opened Solvency
  import opened ChainState
  import Pr = Program
  import P = ProgramRuns

  // ---- what the account file owes ----

  function Held(records: Records, a: Asset): Bytes32 -> int {
    p => if p in records then Of(records[p].balance, a) else 0
  }

  ghost function Stored(acc: AccountState, a: Asset): int { Sum(acc.records.Keys, Held(acc.records, a)) }

  function BookHeld(book: L.Book, a: Asset): Bytes32 -> int { if a.Base? then L.BaseOf(book) else L.QuoteOf(book) }
  ghost function Total(book: L.Book, a: Asset): int { Sum(book.Keys, BookHeld(book, a)) }
  function Delta(r: L.BatchResult, a: Asset): int { if a.Base? then r.delta.base else r.delta.quote }

  lemma NettedDelta(cfg: L.BatchConfig, r: L.BatchResult, a: Asset)
    requires Netted(cfg, r)
    ensures r.before.Keys == r.after.Keys && Total(r.after, a) == Total(r.before, a) + Delta(r, a)
  {
    var orders: seq<L.FundedOrder> :| |orders| <= U32_MAX && L.NetSpec(cfg, r.before, orders) == Ok(r);
    L.NettedResult(cfg, r.before, orders);
  }

  lemma SettleStored(records: Records, e: Bytes32, r: L.BatchResult, a: Asset)
    requires r.before.Keys == r.after.Keys && r.after.Keys <= records.Keys && Current(records, r)
    ensures Settle(records, e, r).Keys == records.Keys
    ensures Sum(records.Keys, Held(Settle(records, e, r), a))
            == Sum(records.Keys, Held(records, a)) + Total(r.after, a) - Total(r.before, a)
  {
    var m, next := r.after.Keys, Settle(records, e, r);
    SumPartition(m, records.Keys, Held(records, a));
    SumPartition(m, records.Keys, Held(next, a));
    SumSame(records.Keys - m, Held(records, a), Held(next, a));
    SumSame(m, Held(records, a), BookHeld(r.before, a));
    SumSame(m, Held(next, a), BookHeld(r.after, a));
  }

  /** A first commit changes the stored total by exactly the result's vault delta. */
  lemma CommitStored(dig: Digester, st: AccountState, cfg: L.BatchConfig, e: Bytes32, r: L.BatchResult, a: Asset)
    requires Netted(cfg, r) && e !in st.applied && ApplySpec(dig, st, e, r).Ok?
    ensures Stored(ApplySpec(dig, st, e, r).value, a) == Stored(st, a) + Delta(r, a)
  {
    NettedDelta(cfg, r, a);
    SettleStored(st.records, e, r, a);
  }

  lemma RegisterStored(st: AccountState, p: Bytes32, key: Bytes32, b: L.Balance, a: Asset)
    requires RegisterSpec(st, p, key, b).Ok?
    ensures Stored(RegisterSpec(st, p, key, b).value, a) == Stored(st, a) + Of(b, a)
  {
    var next := RegisterSpec(st, p, key, b).value.records;
    assert next.Keys == st.records.Keys + {p};
    SumInsert(st.records.Keys, Held(st.records, a), Held(next, a), p);
  }

  // ---- tallying a run ----

  /** A run's state with the commits and deposits made in it. */
  datatype Tally = Tally(s: Sys, committed: map<Bytes32, Op>, base: int, quote: int)

  function Deposited(t: Tally, a: Asset): int { if a.Base? then t.base else t.quote }

  ghost function Next(dig: Digester, t: Tally, step: Step): Tally {
    var s, ph := Exec(dig, t.s, step), Ph(t.s, step.h);
    if !step.WriteAcc? || !ph.AccReady? then t.(s := s)
    else if ph.op.Register? then Tally(s, t.committed, t.base + ph.op.balance.base, t.quote + ph.op.balance.quote)
    else if ph.op.Finalize? && ph.op.epoch !in t.s.acc.applied
    then t.(s := s, committed := t.committed[ph.op.epoch := ph.op])
    else t.(s := s)
  }

  ghost function RunTally(dig: Digester, t: Tally, steps: seq<Step>): Tally
    decreases |steps|
  {
    if steps == [] then t else RunTally(dig, Next(dig, t, steps[0]), steps[1..])
  }

  lemma {:induction false} TallyFollows(dig: Digester, t: Tally, steps: seq<Step>)
    ensures RunTally(dig, t, steps).s == Run(dig, t.s, steps)
    decreases |steps|
  {
    if steps != [] { TallyFollows(dig, Next(dig, t, steps[0]), steps[1..]); }
  }

  const NOTHING := Tally(EMPTY, map[], 0, 0)

  function Change(committed: map<Bytes32, Op>, a: Asset): Bytes32 -> int {
    e => if e in committed && committed[e].Finalize? then Delta(committed[e].result, a) else 0
  }

  /** A result passed to finalisation came out of a netting. */
  ghost predicate NettedOp(op: Op) { op.Finalize? ==> Netted(op.cfg, op.result) }

  /** Every finalisation of the run is of a netting. */
  ghost predicate AllNetted(steps: seq<Step>) {
    forall i | 0 <= i < |steps| && steps[i].Begin? :: NettedOp(steps[i].op)
  }

  ghost predicate CallsNetted(s: Sys) { forall h: nat :: Ph(s, h).Idle? || NettedOp(Ph(s, h).op) }

  ghost predicate Balanced(t: Tally, a: Asset) {
    Stored(t.s.acc, a) == Deposited(t, a) + Sum(t.committed.Keys, Change(t.committed, a))
  }

  ghost predicate TallyInv(dig: Digester, t: Tally) {
    && Inv(dig, t.s) && CallsNetted(t.s)
    && t.committed.Keys == t.s.acc.applied.Keys && (forall e | e in t.committed :: t.committed[e].Finalize?)
    && forall a :: Balanced(t, a)
  }

  lemma StepCallsNetted(dig: Digester, s: Sys, step: Step)
    requires CallsNetted(s) && (step.Begin? ==> NettedOp(step.op))
    ensures CallsNetted(Exec(dig, s, step))
  {
    var t := Exec(dig, s, step);
    forall h: nat ensures Ph(t, h).Idle? || NettedOp(Ph(t, h).op) { CallFrom(dig, s, step, h); }
  }

  lemma ChangeGrows(committed: map<Bytes32, Op>, op: Op, a: Asset)
    requires op.Finalize? && op.epoch !in committed
    ensures var more := committed[op.epoch := op];
            Sum(more.Keys, Change(more, a)) == Sum(committed.Keys, Change(committed, a)) + Delta(op.result, a)
  {
    var more := committed[op.epoch := op];
    assert more.Keys == committed.Keys + {op.epoch};
    SumInsert(committed.Keys, Change(committed, a), Change(more, a), op.epoch);
  }

  /** A commit adds its delta once, under an epoch that was not there. */
  lemma CommitBalanced(dig: Digester, t: Tally, op: Op, next: AccountState, a: Asset)
    requires Balanced(t, a) && op.Finalize? && NettedOp(op) && op.epoch !in t.s.acc.applied && op.epoch !in t.committed
    requires ApplySpec(dig, t.s.acc, op.epoch, op.result) == Ok(next)
    ensures Stored(next, a)
            == Deposited(t, a) + Sum(t.committed[op.epoch := op].Keys, Change(t.committed[op.epoch := op], a))
  {
    CommitStored(dig, t.s.acc, op.cfg, op.epoch, op.result, a);
    ChangeGrows(t.committed, op, a);
  }

  lemma RegisterBalanced(t: Tally, op: Op, next: AccountState, a: Asset)
    requires Balanced(t, a) && op.Register? && RegisterSpec(t.s.acc, op.p, op.key, op.balance) == Ok(next)
    ensures Stored(next, a) == Deposited(t, a) + Of(op.balance, a) + Sum(t.committed.Keys, Change(t.committed, a))
  {
    RegisterStored(t.s.acc, op.p, op.key, op.balance, a);
  }

  /** Finalising again writes the same file. */
  lemma RepeatSame(dig: Digester, st: AccountState, e: Bytes32, r: L.BatchResult)
    requires e in st.applied && ApplySpec(dig, st, e, r).Ok?
    ensures ApplySpec(dig, st, e, r).value == st
  {
  }

  lemma QuietStep(dig: Digester, t: Tally, step: Step)
    requires Inv(dig, t.s) && !(step.WriteAcc? && Ph(t.s, step.h).AccReady?)
    ensures Next(dig, t, step).s.acc == t.s.acc && Next(dig, t, step) == t.(s := Exec(dig, t.s, step))
  {
    AccMoves(dig, t.s, step);
  }

  lemma WriteStep(dig: Digester, t: Tally, step: Step)
    requires step.WriteAcc? && Ph(t.s, step.h).AccReady?
    ensures Exec(dig, t.s, step).acc == Ph(t.s, step.h).accNext
  {
  }

  lemma StepBalanced(dig: Digester, t: Tally, step: Step, a: Asset)
    requires TallyInv(dig, t)
    ensures Balanced(Next(dig, t, step), a)
  {
    var ph := Ph(t.s, step.h);
    assert Balanced(t, a);
    if step.WriteAcc? && ph.AccReady? {
      WriteStep(dig, t, step);
      assert Knows(dig, t.s, ph);
      if ph.op.Register? {
        RegisterBalanced(t, ph.op, ph.accNext, a);
      } else if ph.op.epoch in t.s.acc.applied {
        RepeatSame(dig, t.s.acc, ph.op.epoch, ph.op.result);
      } else {
        CommitBalanced(dig, t, ph.op, ph.accNext, a);
      }
    } else {
      QuietStep(dig, t, step);
    }
  }

  lemma StepCommitted(dig: Digester, t: Tally, step: Step)
    requires TallyInv(dig, t)
    ensures var n := Next(dig, t, step);
            n.committed.Keys == n.s.acc.applied.Keys && forall e | e in n.committed :: n.committed[e].Finalize?
  {
    if step.WriteAcc? && Ph(t.s, step.h).AccReady? {
      WriteStep(dig, t, step);
      assert Knows(dig, t.s, Ph(t.s, step.h));
    } else {
      QuietStep(dig, t, step);
    }
  }

  lemma StepTally(dig: Digester, t: Tally, step: Step)
    requires TallyInv(dig, t) && (step.Begin? ==> NettedOp(step.op))
    ensures TallyInv(dig, Next(dig, t, step))
  {
    StepInv(dig, t.s, step);
    StepCallsNetted(dig, t.s, step);
    StepCommitted(dig, t, step);
    forall a ensures Balanced(Next(dig, t, step), a) { StepBalanced(dig, t, step, a); }
  }

  lemma {:induction false} RunTallyInv(dig: Digester, t: Tally, steps: seq<Step>)
    requires TallyInv(dig, t) && forall i | 0 <= i < |steps| && steps[i].Begin? :: NettedOp(steps[i].op)
    ensures TallyInv(dig, RunTally(dig, t, steps))
    decreases |steps|
  {
    if steps != [] {
      StepTally(dig, t, steps[0]);
      RunTallyInv(dig, Next(dig, t, steps[0]), steps[1..]);
    }
  }

  lemma NothingBalanced(dig: Digester)
    ensures TallyInv(dig, NOTHING)
  {
    forall a ensures Balanced(NOTHING, a) {
    }
  }

  /** Over every run with crashes, the stored balances are the deposits plus each committed epoch's vault delta,
      once. */
  lemma StoredIsDepositsPlusDeltas(dig: Digester, steps: seq<Step>, a: Asset)
    requires AllNetted(steps)
    ensures var t := RunTally(dig, NOTHING, steps);
            && t.s == Run(dig, EMPTY, steps) && t.committed.Keys == t.s.acc.applied.Keys
            && Stored(t.s.acc, a) == Deposited(t, a) + Sum(t.committed.Keys, Change(t.committed, a))
  {
    NothingBalanced(dig);
    RunTallyInv(dig, NOTHING, steps);
    TallyFollows(dig, NOTHING, steps);
    assert Balanced(RunTally(dig, NOTHING, steps), a);
  }

  // ---- what the chain moved, epoch by epoch id ----

  /** The change of the pool's vault by a settled epoch. */
  function Moved(e: EpochState, a: Asset): int {
    if a.Base? then Times(P.SignedLots(e), e.baseLot) else 0 - Times(P.SignedLots(e), e.quotePerLot)
  }

  function MovedByKey(epochs: map<Bytes32, EpochState>, a: Asset): Bytes32 -> int {
    key => if key in epochs then Moved(epochs[key], a) else 0
  }

  function MovedById(ctx: Pr.Context, epochs: map<Bytes32, EpochState>, a: Asset): Bytes32 -> int {
    id => MovedByKey(epochs, a)(ctx.pda.epoch(ctx.poolKey, id))
  }

  function IdOf(epochs: map<Bytes32, EpochState>): Bytes32 -> Bytes32 {
    key => if key in epochs then epochs[key].epochId else ZERO
  }

  ghost function SettledKeys(epochs: map<Bytes32, EpochState>): set<Bytes32> {
    set key | key in epochs && epochs[key].terminal == Settled
  }
  ghost function SettledIds(epochs: map<Bytes32, EpochState>): set<Bytes32> { Image(SettledKeys(epochs), IdOf(epochs)) }

  function PoolOf(t: Pr.Tokens, a: Asset): int { if a.Base? then t.poolBase else t.poolQuote }

  lemma PoolMoved(start: Pr.Tokens, c: Pr.Chain, a: Asset)
    requires P.VaultInv(start, c)
    ensures PoolOf(c.tokens, a) == PoolOf(start, a) + Sum(c.epochs.Keys, MovedByKey(c.epochs, a))
  {
    if a.Base? {
      SumSame(c.epochs.Keys, P.BaseMoved(c.epochs), MovedByKey(c.epochs, a));
    } else {
      SumNegate(c.epochs.Keys, P.QuoteMoved(c.epochs), MovedByKey(c.epochs, a));
    }
  }

  lemma MovedSettledOnly(epochs: map<Bytes32, EpochState>, a: Asset)
    ensures Sum(epochs.Keys, MovedByKey(epochs, a)) == Sum(SettledKeys(epochs), MovedByKey(epochs, a))
  {
    var keys := SettledKeys(epochs);
    SumPartition(keys, epochs.Keys, MovedByKey(epochs, a));
    SumZero(epochs.Keys - keys, MovedByKey(epochs, a));
  }

  lemma IdTellsKey(ctx: Pr.Context, c: Pr.Chain, key: Bytes32, a: Asset)
    requires P.AllEpochs(ctx, c) && key in c.epochs
    ensures ctx.pda.epoch(ctx.poolKey, c.epochs[key].epochId) == key
    ensures MovedByKey(c.epochs, a)(key) == MovedById(ctx, c.epochs, a)(IdOf(c.epochs)(key))
  {
    assert P.EpochInv(ctx, key, c.epochs[key]);
  }

  lemma IdsTellApart(ctx: Pr.Context, c: Pr.Chain, x: Bytes32, y: Bytes32)
    requires P.AllEpochs(ctx, c) && x in c.epochs && y in c.epochs && IdOf(c.epochs)(x) == IdOf(c.epochs)(y)
    ensures x == y
  {
    IdTellsKey(ctx, c, x, Base);
    IdTellsKey(ctx, c, y, Base);
  }

  lemma MovedReindexed(ctx: Pr.Context, c: Pr.Chain, a: Asset)
    requires P.AllEpochs(ctx, c)
    ensures Sum(SettledKeys(c.epochs), MovedByKey(c.epochs, a))
            == Sum(SettledIds(c.epochs), MovedById(ctx, c.epochs, a))
  {
    var keys, epochs := SettledKeys(c.epochs), c.epochs;
    forall key | key in keys ensures MovedByKey(epochs, a)(key) == MovedById(ctx, epochs, a)(IdOf(epochs)(key)) {
      IdTellsKey(ctx, c, key, a);
    }
    forall x, y | x in keys && y in keys && IdOf(epochs)(x) == IdOf(epochs)(y) ensures x == y {
      IdsTellApart(ctx, c, x, y);
    }
    SumReindex(keys, IdOf(epochs), MovedByKey(epochs, a), MovedById(ctx, epochs, a));
  }

  // ---- the two sides together ----

  /** The committed result is the one the chain settled: same residual on the wire, same lots. */
  ghost predicate SettledAs(ctx: Pr.Context, c: Pr.Chain, id: Bytes32, op: Op) {
    var key := ctx.pda.epoch(ctx.poolKey, id);
    && op.Finalize? && Netted(op.cfg, op.result) && key in c.epochs && c.epochs[key].terminal == Settled
       && c.epochs[key].epochId == id
    && c.epochs[key].residualSide == L.ResidualSide(op.result.residual)
       && c.epochs[key].residualLots == L.ResidualLots(op.result.residual)
    && c.epochs[key].baseLot == op.cfg.baseLot && c.epochs[key].quotePerLot == op.cfg.quotePerLot
  }

  lemma DeltaOfNetting(cfg: L.BatchConfig, r: L.BatchResult)
    requires Netted(cfg, r)
    ensures r.delta
            == L.VaultDelta(Times(L.SignedLots(r.residual), cfg.baseLot),
              -Times(L.SignedLots(r.residual), cfg.quotePerLot))
  {
    var orders: seq<L.FundedOrder> :| |orders| <= U32_MAX && L.NetSpec(cfg, r.before, orders) == Ok(r);
    L.NettedResult(cfg, r.before, orders);
  }

  lemma SameSignedLots(e: EpochState, r: L.Residual)
    requires e.terminal == Settled && e.residualSide == L.ResidualSide(r) && e.residualLots == L.ResidualLots(r)
    ensures P.SignedLots(e) == L.SignedLots(r)
  {
  }

  /** Each settle's change of the vault equals the ledger's vault delta. */
  lemma SettleEqualsLedgerDelta(ctx: Pr.Context, c: Pr.Chain, id: Bytes32, op: Op, a: Asset)
    requires SettledAs(ctx, c, id, op)
    ensures Moved(c.epochs[ctx.pda.epoch(ctx.poolKey, id)], a) == Delta(op.result, a)
  {
    DeltaOfNetting(op.cfg, op.result);
    SameSignedLots(c.epochs[ctx.pda.epoch(ctx.poolKey, id)], op.result.residual);
  }

  ghost predicate AllSettled(ctx: Pr.Context, c: Pr.Chain, committed: map<Bytes32, Op>) {
    forall id | id in committed :: SettledAs(ctx, c, id, committed[id])
  }

  lemma CommittedAreSettled(ctx: Pr.Context, c: Pr.Chain, committed: map<Bytes32, Op>)
    requires AllSettled(ctx, c, committed)
    ensures committed.Keys <= SettledIds(c.epochs)
  {
    forall id | id in committed ensures id in SettledIds(c.epochs) {
      var key := ctx.pda.epoch(ctx.poolKey, id);
      assert SettledAs(ctx, c, id, committed[id]);
      assert key in SettledKeys(c.epochs) && IdOf(c.epochs)(key) == id;
    }
  }

  /** The pool's change is what all settled epochs moved. */
  lemma PoolSide(ctx: Pr.Context, start: Pr.Tokens, c: Pr.Chain, a: Asset)
    requires P.VaultInv(start, c) && P.AllEpochs(ctx, c)
    ensures PoolOf(c.tokens, a) - PoolOf(start, a) == Sum(SettledIds(c.epochs), MovedById(ctx, c.epochs, a))
  {
    PoolMoved(start, c, a);
    MovedSettledOnly(c.epochs, a);
    MovedReindexed(ctx, c, a);
  }

  /** What the committed epochs changed in the ledger is what they moved on chain. */
  lemma CommittedSide(ctx: Pr.Context, c: Pr.Chain, committed: map<Bytes32, Op>, a: Asset)
    requires AllSettled(ctx, c, committed)
    ensures Sum(committed.Keys, Change(committed, a)) == Sum(committed.Keys, MovedById(ctx, c.epochs, a))
  {
    forall id | id in committed.Keys ensures Change(committed, a)(id) == MovedById(ctx, c.epochs, a)(id) {
      assert SettledAs(ctx, c, id, committed[id]);
      SettleEqualsLedgerDelta(ctx, c, id, committed[id], a);
    }
    SumSame(committed.Keys, Change(committed, a), MovedById(ctx, c.epochs, a));
  }

  /** The vault minus the stored balances changed, beyond deposits, only by what is settled and not yet finalised. */
  ghost predicate VaultBalanced(ctx: Pr.Context, start: Pr.Tokens, c: Pr.Chain, t: Tally, a: Asset) {
    PoolOf(c.tokens, a) - PoolOf(start, a) - (Stored(t.s.acc, a) - Deposited(t, a)) ==
    Sum(SettledIds(c.epochs) - t.s.acc.applied.Keys, MovedById(ctx, c.epochs, a))
  }

  lemma Unfinalised(keys: set<Bytes32>, applied: set<Bytes32>, all: set<Bytes32>, f: Bytes32 -> int)
    requires keys == applied && keys <= all
    ensures Sum(all, f) - Sum(keys, f) == Sum(all - applied, f)
  {
    SumPartition(keys, all, f);
  }

  lemma VaultAgainst(ctx: Pr.Context, start: Pr.Tokens, c: Pr.Chain, dig: Digester, steps: seq<Step>, a: Asset)
    requires P.VaultInv(start, c) && P.AllEpochs(ctx, c)
    requires AllNetted(steps)
    requires AllSettled(ctx, c, RunTally(dig, NOTHING, steps).committed)
    ensures VaultBalanced(ctx, start, c, RunTally(dig, NOTHING, steps), a)
  {
    StoredIsDepositsPlusDeltas(dig, steps, a);
    TallyBalanced(ctx, start, c, RunTally(dig, NOTHING, steps), a);
  }

  lemma TallyBalanced(ctx: Pr.Context, start: Pr.Tokens, c: Pr.Chain, t: Tally, a: Asset)
    requires P.VaultInv(start, c) && P.AllEpochs(ctx, c) && AllSettled(ctx, c, t.committed)
    requires t.committed.Keys == t.s.acc.applied.Keys
    requires Stored(t.s.acc, a) == Deposited(t, a) + Sum(t.committed.Keys, Change(t.committed, a))
    ensures VaultBalanced(ctx, start, c, t, a)
  {
    PoolSide(ctx, start, c, a);
    CommittedAreSettled(ctx, c, t.committed);
    CommittedSide(ctx, c, t.committed, a);
    Unfinalised(t.committed.Keys, t.s.acc.applied.Keys, SettledIds(c.epochs), MovedById(ctx, c.epochs, a));
  }

  /** Over any run of the program and any run of the journals that finalises only what the chain settled: the pool's
      vault minus the stored balances changes, beyond deposits, only by what is settled and not yet finalised. Once
      everything settled is finalised, the difference is what it was at the start. */
  lemma VaultMinusLedger(ctx: Pr.Context, start: Pr.Tokens, onChain: seq<P.Step>, dig: Digester, steps: seq<Step>,
                         a: Asset)
    requires AllNetted(steps)
    requires AllSettled(ctx, P.Run(ctx, Pr.Chain(map[], start), onChain), RunTally(dig, NOTHING, steps).committed)
    ensures VaultBalanced(ctx, start, P.Run(ctx, Pr.Chain(map[], start), onChain), RunTally(dig, NOTHING, steps), a)
  {
    P.VaultConservation(ctx, start, onChain);
    P.EpochRunInvariant(ctx, Pr.Chain(map[], start), onChain);
    VaultAgainst(ctx, start, P.Run(ctx, Pr.Chain(map[], start), onChain), dig, steps, a);
  }
}
