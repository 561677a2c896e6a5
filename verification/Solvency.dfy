/** Solvency through crashes: what is still reserved never exceeds what is stored. */
module Solvency {
  import opened Bytes
  import opened Sums
  import opened Ledger
  import opened Accounts
  import opened JournalRuns
  import R = Reservations

  datatype Asset = Base | Quote

  function Of(b: Balance, a: Asset): int { if a.Base? then b.base else b.quote }
  function Amount(r: R.Record, a: Asset): int { if a.Base? then r.base else r.quote }
  function Lot(cfg: BatchConfig, a: Asset): int { if a.Base? then cfg.baseLot else cfg.quotePerLot }

  // ---- reserved atoms of epochs not yet applied ----

  predicate Owing(res: R.File, applied: map<Bytes32, Bytes32>, p: Bytes32, n: Bytes32) {
    n in res && res[n].participant == p && res[n].status == R.Reserved && res[n].epoch !in applied
  }

  function Share(res: R.File, applied: map<Bytes32, Bytes32>, p: Bytes32, a: Asset): Bytes32 -> int {
    n => if Owing(res, applied, p, n) then Amount(res[n], a) else 0
  }

  /** What is still owed out of the balance of `p`. */
  ghost function Owed(acc: AccountState, res: R.File, p: Bytes32, a: Asset): int {
    Sum(res.Keys, Share(res, acc.applied, p, a))
  }

  ghost predicate Covered(acc: AccountState, res: R.File, p: Bytes32, a: Asset) {
    p in acc.records && Owed(acc, res, p, a) <= Of(acc.records[p].balance, a)
  }

  ghost predicate AllKnown(acc: AccountState, res: R.File) {
    forall n | n in res :: res[n].participant in acc.records
  }

  ghost predicate AllCovered(acc: AccountState, res: R.File) {
    forall p, a | p in acc.records :: Covered(acc, res, p, a)
  }

  ghost predicate Solvent(acc: AccountState, res: R.File) {
    AllKnown(acc, res) && AllCovered(acc, res)
  }

  // ---- what the callers promise ----

  /** The result came out of the netting of this epoch's lots. */
  ghost predicate Netted(cfg: BatchConfig, result: BatchResult) {
    exists orders: seq<FundedOrder> | |orders| <= U32_MAX :: NetSpec(cfg, result.before, orders) == Ok(result)
  }

  /** Every reservation consumed covers one lot, as `FundedAuthorizationV1::verify` demands of its authorization. */
  ghost predicate Funded(cfg: BatchConfig, res: R.File, nonces: seq<Bytes32>) {
    forall n | n in nonces && n in res :: cfg.baseLot <= res[n].base && cfg.quotePerLot <= res[n].quote
  }

  /** `reserve` is passed the stored balance, and results finalised are funded nettings. */
  ghost predicate Honest(s: Sys, step: Step) {
    step.Check? && Ph(s, step.h).ResHeld? ==>
      var op := Ph(s, step.h).op;
      && (op.Reserve?
         ==> op.rec.participant in s.acc.records && s.acc.records[op.rec.participant].balance == op.available)
      && (op.Finalize? ==> Netted(op.cfg, op.result) && Funded(op.cfg, s.res, op.nonces))
  }

  ghost predicate HonestRun(dig: Digester, s: Sys, steps: seq<Step>)
    decreases |steps|
  {
    steps == [] || (Honest(s, steps[0]) && HonestRun(dig, Exec(dig, s, steps[0]), steps[1..]))
  }

  // ---- what survives inside a call ----

  ghost predicate OneLotEach(cfg: BatchConfig, result: BatchResult) {
    && result.before.Keys == result.after.Keys
    && forall p | p in result.before :: OneLotMove(cfg, result.before[p], result.after[p])
  }

  lemma NettedMovesOneLot(cfg: BatchConfig, result: BatchResult)
    requires Netted(cfg, result)
    ensures OneLotEach(cfg, result)
  {
    var orders: seq<FundedOrder> :| |orders| <= U32_MAX && NetSpec(cfg, result.before, orders) == Ok(result);
    NettedResult(cfg, result.before, orders);
    NettedMoves(cfg, result.before, orders);
  }

  ghost predicate Promise(s: Sys, op: Op) {
    && (op.Reserve?
       ==> op.rec.participant in s.acc.records && s.acc.records[op.rec.participant].balance == op.available)
    && (op.Finalize? ==> OneLotEach(op.cfg, op.result) && Funded(op.cfg, s.res, op.nonces))
  }

  ghost predicate Promised(s: Sys, ph: Phase) {
    ph.Idle? || ph.ResHeld? || ph.ResDone? || Promise(s, ph.op)
  }

  ghost predicate SolventInv(dig: Digester, s: Sys) {
    Inv(dig, s) && Solvent(s.acc, s.res) && forall h: nat :: Promised(s, Ph(s, h))
  }

  lemma OthersPromised(s: Sys, t: Sys, ph: Phase)
    requires Promised(s, ph)
    requires HoldsRes(ph) ==> s.res == t.res && OnlyRegistered(s.acc, t.acc)
    ensures Promised(t, ph)
  {
  }

  /** A handle keeps its call until it starts the next one. */
  lemma SameCall(dig: Digester, s: Sys, step: Step)
    ensures var ph, ph2 := Ph(s, step.h), Ph(Exec(dig, s, step), step.h);
            || ph2 == ph || ph2.Idle? || ph2.ResHeld?
            || (ph2.AccHeld? && !UsesReservations(ph2.op))
            || (!ph.Idle? && ph2.op == ph.op && (ph.ResHeld? ==> step.Check?))
  {
  }

  lemma OwnPromised(dig: Digester, s: Sys, step: Step)
    requires SolventInv(dig, s) && Honest(s, step)
    ensures Promised(Exec(dig, s, step), Ph(Exec(dig, s, step), step.h))
  {
    var t, ph := Exec(dig, s, step), Ph(s, step.h);
    assert Promised(s, ph) && Knows(dig, s, ph) && LockInv(s, step.h);
    SameCall(dig, s, step);
    if step.WriteAcc? && ph.AccReady? {
      assert Ph(t, step.h) == AccDone(ph.op);
    } else if step.WriteRes? && ph.ResReady? {
      assert Ph(t, step.h) == ResDone(ph.op);
    } else {
      FilesStay(dig, s, step);
      if step.Check? && ph.ResHeld? && ph.op.Finalize? { NettedMovesOneLot(ph.op.cfg, ph.op.result); }
    }
  }

  /** No other step replaces a file. */
  lemma FilesStay(dig: Digester, s: Sys, step: Step)
    requires !(step.WriteAcc? && Ph(s, step.h).AccReady?)
    requires !(step.WriteRes? && Ph(s, step.h).ResReady?)
    ensures Exec(dig, s, step).acc == s.acc && Exec(dig, s, step).res == s.res
  {
  }

  // ---- the four ways a file changes ----

  lemma OwedShrinks(acc: AccountState, res: R.File, acc2: AccountState, res2: R.File, p: Bytes32, a: Asset)
    requires res2.Keys == res.Keys
    requires forall n | Owing(res2, acc2.applied, p, n) :: Owing(res, acc.applied, p, n)
                                                           && Amount(res2[n], a) == Amount(res[n], a)
    ensures Owed(acc2, res2, p, a) <= Owed(acc, res, p, a)
  {
    SumLeq(res.Keys, Share(res2, acc2.applied, p, a), Share(res, acc.applied, p, a));
  }

  /** Consuming or releasing reservations only lowers what is owed. */
  lemma MarkCovered(acc: AccountState, res: R.File, nonces: seq<Bytes32>, to: R.Status, p: Bytes32, a: Asset)
    requires Covered(acc, res, p, a) && to != R.Reserved
    ensures Covered(acc, R.Mark(res, nonces, to), p, a)
  {
    R.MarkKeeps(res, nonces, to);
    OwedShrinks(acc, res, acc, R.Mark(res, nonces, to), p, a);
  }

  lemma MarkSolvent(acc: AccountState, res: R.File, nonces: seq<Bytes32>, to: R.Status)
    requires Solvent(acc, res) && to != R.Reserved
    ensures Solvent(acc, R.Mark(res, nonces, to))
  {
    forall p, a | p in acc.records ensures Covered(acc, R.Mark(res, nonces, to), p, a) {
      assert Covered(acc, res, p, a);
      MarkCovered(acc, res, nonces, to, p, a);
    }
  }

  /** A reservation for another participant owes nothing for `p`. */
  lemma ReserveOther(acc: AccountState, res: R.File, rec: R.Record, p: Bytes32, a: Asset)
    requires rec.nonce !in res && rec.participant != p
    ensures Owed(acc, res[rec.nonce := rec], p, a) == Owed(acc, res, p, a)
  {
    var next := res[rec.nonce := rec];
    assert next.Keys == res.Keys + {rec.nonce};
    SumInsert(res.Keys, Share(res, acc.applied, p, a), Share(next, acc.applied, p, a), rec.nonce);
  }

  /** All reservations of a participant, whatever their epoch. */
  function Held(res: R.File, p: Bytes32, a: Asset): Bytes32 -> int {
    if a.Base? then R.BaseHeld(res, p) else R.QuoteHeld(res, p)
  }

  lemma ReserveOwn(acc: AccountState, res: R.File, rec: R.Record, a: Asset)
    requires rec.nonce !in res && rec.status == R.Reserved
    ensures Owed(acc, res[rec.nonce := rec], rec.participant, a) <= Sum(res.Keys, Held(res, rec.participant, a))
            + Amount(rec, a)
  {
    var next, p := res[rec.nonce := rec], rec.participant;
    assert next.Keys == res.Keys + {rec.nonce};
    SumInsert(res.Keys, Held(res, p, a), Held(next, p, a), rec.nonce);
    OwedIsHeld(acc, next, p, a);
  }

  lemma OwedIsHeld(acc: AccountState, res: R.File, p: Bytes32, a: Asset)
    ensures Owed(acc, res, p, a) <= Sum(res.Keys, Held(res, p, a))
  {
    SumLeq(res.Keys, Share(res, acc.applied, p, a), Held(res, p, a));
  }

  lemma ReserveCovered(acc: AccountState, res: R.File, rec: R.Record, available: Balance, p: Bytes32, a: Asset)
    requires Covered(acc, res, p, a) && rec.status == R.Reserved
    requires rec.participant in acc.records && acc.records[rec.participant].balance == available
    requires R.ReserveSpec(res, rec, available).Ok?
    ensures Covered(acc, res[rec.nonce := rec], p, a)
  {
    if p == rec.participant { ReserveOwn(acc, res, rec, a); } else { ReserveOther(acc, res, rec, p, a); }
  }

  lemma ReserveSolvent(acc: AccountState, res: R.File, rec: R.Record, available: Balance)
    requires Solvent(acc, res) && rec.status == R.Reserved
    requires rec.participant in acc.records && acc.records[rec.participant].balance == available
    requires R.ReserveSpec(res, rec, available).Ok?
    ensures Solvent(acc, R.ReserveSpec(res, rec, available).value)
  {
    var next := res[rec.nonce := rec];
    forall p, a | p in acc.records ensures Covered(acc, next, p, a) {
      assert Covered(acc, res, p, a);
      ReserveCovered(acc, res, rec, available, p, a);
    }
  }

  lemma UnknownOwesNothing(acc: AccountState, res: R.File, p: Bytes32, a: Asset)
    requires forall n | n in res :: res[n].participant != p
    ensures Owed(acc, res, p, a) == 0
  {
    SumZero(res.Keys, Share(res, acc.applied, p, a));
  }

  /** A new account has nothing reserved yet. */
  lemma RegisterSolvent(acc: AccountState, res: R.File, q: Bytes32, key: Bytes32, balance: Balance)
    requires Solvent(acc, res) && RegisterSpec(acc, q, key, balance).Ok?
    ensures Solvent(RegisterSpec(acc, q, key, balance).value, res)
  {
    var next := RegisterSpec(acc, q, key, balance).value;
    forall p, a | p in next.records ensures Covered(next, res, p, a) {
      if p == q { UnknownOwesNothing(next, res, p, a); } else { assert Covered(acc, res, p, a); }
    }
  }

  /** Committing epoch `e` stops its reservations of `p` from being owed, among them the one at nonce `n`. */
  lemma CommitOwes(acc: AccountState, next: AccountState, res: R.File, e: Bytes32, p: Bytes32, n: Bytes32, a: Asset)
    requires e in next.applied && acc.applied.Keys <= next.applied.Keys
    requires Owing(res, acc.applied, p, n) && res[n].epoch == e
    ensures Owed(next, res, p, a) <= Owed(acc, res, p, a) - Amount(res[n], a)
  {
    SumSplit(res.Keys, Share(res, acc.applied, p, a), n);
    SumSplit(res.Keys, Share(res, next.applied, p, a), n);
    SumLeq(res.Keys - {n}, Share(res, next.applied, p, a), Share(res, acc.applied, p, a));
  }

  lemma MoveBound(cfg: BatchConfig, b: Balance, c: Balance, a: Asset)
    requires OneLotMove(cfg, b, c)
    ensures Of(c, a) >= Of(b, a) - Lot(cfg, a)
  {
  }

  /** A member's balance falls by at most the lot its consumed reservation stood for. */
  lemma CommitMember(acc: AccountState, next: AccountState, res: R.File, op: Op, p: Bytes32, n: Bytes32, a: Asset)
    requires op.Finalize? && Covered(acc, res, p, a)
    requires op.epoch in next.applied && acc.applied.Keys <= next.applied.Keys
    requires n in op.nonces && Owing(res, acc.applied, p, n) && res[n].epoch == op.epoch
             && Funded(op.cfg, res, op.nonces)
    requires p in next.records && OneLotMove(op.cfg, acc.records[p].balance, next.records[p].balance)
    ensures Covered(next, res, p, a)
  {
    CommitOwes(acc, next, res, op.epoch, p, n, a);
    MoveBound(op.cfg, acc.records[p].balance, next.records[p].balance, a);
  }

  lemma CommitOther(acc: AccountState, next: AccountState, res: R.File, p: Bytes32, a: Asset)
    requires Covered(acc, res, p, a) && acc.applied.Keys <= next.applied.Keys
    requires p in next.records && next.records[p] == acc.records[p]
    ensures Covered(next, res, p, a)
  {
    OwedShrinks(acc, res, next, res, p, a);
  }

  /** The nonce that stands for a member in an epoch's first commit. */
  lemma MemberNonce(s: Sys, op: Op, hadUsed: bool, p: Bytes32) returns (n: Bytes32)
    requires CommitSafe(s, op, hadUsed) && op.epoch !in s.acc.applied && p in op.result.after
    ensures n in op.nonces && Owing(s.res, s.acc.applied, p, n) && s.res[n].epoch == op.epoch
  {
    R.FinalizeMeaning(s.res, op.epoch, op.nonces, op.result.after.Keys);
    n :| n in op.nonces && n in s.res && s.res[n].participant == p;
    assert R.Passes(s.res, op.epoch, n, R.Released);
  }

  lemma CommitCovered(dig: Digester, s: Sys, op: Op, hadUsed: bool, p: Bytes32, a: Asset)
    requires Covered(s.acc, s.res, p, a) && CommitSafe(s, op, hadUsed) && op.epoch !in s.acc.applied
    requires OneLotEach(op.cfg, op.result) && Funded(op.cfg, s.res, op.nonces)
    requires ApplySpec(dig, s.acc, op.epoch, op.result).Ok?
    ensures Covered(ApplySpec(dig, s.acc, op.epoch, op.result).value, s.res, p, a)
  {
    var next := ApplySpec(dig, s.acc, op.epoch, op.result).value;
    if p in op.result.after {
      var n := MemberNonce(s, op, hadUsed, p);
      assert OneLotMove(op.cfg, op.result.before[p], op.result.after[p]);
      CommitMember(s.acc, next, s.res, op, p, n, a);
    } else {
      CommitOther(s.acc, next, s.res, p, a);
    }
  }

  /** The commit of a funded netting keeps every participant covered. */
  lemma CommitSolvent(dig: Digester, s: Sys, op: Op, hadUsed: bool)
    requires Solvent(s.acc, s.res) && CommitSafe(s, op, hadUsed)
    requires OneLotEach(op.cfg, op.result) && Funded(op.cfg, s.res, op.nonces)
    requires ApplySpec(dig, s.acc, op.epoch, op.result).Ok?
    ensures Solvent(ApplySpec(dig, s.acc, op.epoch, op.result).value, s.res)
  {
    var next := ApplySpec(dig, s.acc, op.epoch, op.result).value;
    if op.epoch !in s.acc.applied {
      forall p, a | p in next.records ensures Covered(next, s.res, p, a) {
        assert Covered(s.acc, s.res, p, a);
        CommitCovered(dig, s, op, hadUsed, p, a);
      }
    }
  }

  // ---- runs ----

  lemma StepSolvent(dig: Digester, s: Sys, step: Step)
    requires SolventInv(dig, s)
    ensures Solvent(Exec(dig, s, step).acc, Exec(dig, s, step).res)
  {
    var ph := Ph(s, step.h);
    assert Promised(s, ph) && Knows(dig, s, ph);
    if step.WriteAcc? && ph.AccReady? {
      if ph.op.Register? {
        RegisterSolvent(s.acc, s.res, ph.op.p, ph.op.key, ph.op.balance);
      } else {
        CommitSolvent(dig, s, ph.op, ph.hadUsed);
      }
    } else if step.WriteRes? && ph.ResReady? {
      if ph.op.Reserve? {
        ReserveSolvent(s.acc, s.res, ph.op.rec, ph.op.available);
      } else {
        MarkSolvent(s.acc, s.res, ph.op.nonces, if ph.op.Finalize? then R.Used else R.Released);
      }
    } else {
      FilesStay(dig, s, step);
    }
  }

  lemma StepSolventInv(dig: Digester, s: Sys, step: Step)
    requires SolventInv(dig, s) && Honest(s, step)
    ensures SolventInv(dig, Exec(dig, s, step))
  {
    var t := Exec(dig, s, step);
    StepInv(dig, s, step);
    StepSolvent(dig, s, step);
    OwnPromised(dig, s, step);
    StepFilesOwned(dig, s, step);
    forall g: nat ensures Promised(t, Ph(t, g)) {
      if g != step.h {
        OthersStay(dig, s, step, g);
        assert LockInv(s, g) && Promised(s, Ph(s, g));
        OthersPromised(s, t, Ph(s, g));
      }
    }
  }

  lemma {:induction false} RunSolventInv(dig: Digester, s: Sys, steps: seq<Step>)
    requires SolventInv(dig, s) && HonestRun(dig, s, steps)
    ensures SolventInv(dig, Run(dig, s, steps))
    decreases |steps|
  {
    if steps != [] {
      StepSolventInv(dig, s, steps[0]);
      RunSolventInv(dig, Exec(dig, s, steps[0]), steps[1..]);
    }
  }

  /** In every state any honest run reaches, crashes included, every participant's Reserved atoms of epochs not yet
      applied are covered by the stored balance in both assets. */
  lemma SolvencyThroughCrashes(dig: Digester, steps: seq<Step>, p: Bytes32, a: Asset)
    requires HonestRun(dig, EMPTY, steps)
    requires p in Run(dig, EMPTY, steps).acc.records
    ensures var s := Run(dig, EMPTY, steps);
            Owed(s.acc, s.res, p, a) <= Of(s.acc.records[p].balance, a)
  {
    RunSolventInv(dig, EMPTY, steps);
    assert Covered(Run(dig, EMPTY, steps).acc, Run(dig, EMPTY, steps).res, p, a);
  }
}
