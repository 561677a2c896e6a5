/** Second reservations: when one participant ends up with two Used nonces in one epoch, and runs that get there. */
module Retries {
  import opened Bytes
  import opened Sums
  import opened Ledger
  import opened Accounts
  import opened JournalRuns
  import opened Commits
  import R = Reservations

  /** Nonce `n` is a Used reservation of `p` for epoch `e`. */
  ghost predicate UsedBy(res: R.File, n: Bytes32, e: Bytes32, p: Bytes32) {
    n in res && res[n].epoch == e && res[n].participant == p && res[n].status == R.Used
  }

  ghost predicate TwiceUsed(res: R.File, e: Bytes32, p: Bytes32) {
    exists n, m | n != m :: UsedBy(res, n, e, p) && UsedBy(res, m, e, p)
  }

  /** Marking a Reserved nonce Used, beside one that is Used already. */
  lemma MarkAnother(file: R.File, nonces: seq<Bytes32>, n: Bytes32, m: Bytes32, e: Bytes32, p: Bytes32)
    requires n in nonces && n in file && file[n].epoch == e && file[n].participant == p && file[n].status == R.Reserved
    requires UsedBy(file, m, e, p)
    ensures UsedBy(R.Mark(file, nonces, R.Used), n, e, p) && UsedBy(R.Mark(file, nonces, R.Used), m, e, p)
    ensures TwiceUsed(R.Mark(file, nonces, R.Used), e, p)
  {
    var res := R.Mark(file, nonces, R.Used);
    assert n != m && UsedBy(res, n, e, p) && UsedBy(res, m, e, p);
  }

  lemma NamedForEpoch(file: R.File, e: Bytes32, nonces: seq<Bytes32>, members: set<Bytes32>, n: Bytes32)
    requires R.FinalizeCheck(file, e, nonces, members).Ok? && n in nonces
    ensures n in file && file[n].epoch == e
  {
    R.FinalizeMeaning(file, e, nonces, members);
    assert R.Passes(file, e, n, R.Released);
  }

  lemma RetryMarks(dig: Digester, s: Sys, op: Op)
    requires Accounts.Fits(s.acc) && Pending(dig, s, op) && Matches(s.acc.records, op.epoch, op.result)
    ensures FinalizeSpec(dig, s.acc, s.res, op.epoch, op.result, op.nonces).2 == R.Mark(s.res, op.nonces, R.Used)
  {
  }

  /** A retry that names another, still Reserved nonce of a member consumes it beside the one already Used. */
  lemma SecondReservationUsed(dig: Digester, s: Sys, op: Op, n: Bytes32, m: Bytes32)
    requires Accounts.Fits(s.acc) && Pending(dig, s, op) && Matches(s.acc.records, op.epoch, op.result)
    requires n in op.nonces && n in s.res && s.res[n].status == R.Reserved
    requires m !in op.nonces && UsedBy(s.res, m, op.epoch, s.res[n].participant)
    ensures var res := FinalizeSpec(dig, s.acc, s.res, op.epoch, op.result, op.nonces).2;
            UsedBy(res, n, op.epoch, s.res[n].participant) && UsedBy(res, m, op.epoch, s.res[n].participant)
            && TwiceUsed(res, op.epoch, s.res[n].participant)
  {
    RetryMarks(dig, s, op);
    NamedForEpoch(s.res, op.epoch, op.nonces, op.result.after.Keys, n);
    MarkAnother(s.res, op.nonces, n, m, op.epoch, s.res[n].participant);
  }

  // ---- exactly when ----

  /** This step writes a finalisation of `e` that uses a Reserved nonce of `p` while another one is already Used. */
  ghost predicate UsesAnother(s: Sys, step: Step, e: Bytes32, p: Bytes32) {
    && step.WriteRes? && Ph(s, step.h).ResReady? && Ph(s, step.h).op.Finalize? && Ph(s, step.h).op.epoch == e
    && (exists n | n in Ph(s, step.h).op.nonces :: n in s.res && s.res[n].participant == p
                                                   && s.res[n].status == R.Reserved)
    && (exists m :: UsedBy(s.res, m, e, p))
  }

  ghost predicate AnotherUsed(dig: Digester, s: Sys, steps: seq<Step>, e: Bytes32, p: Bytes32)
    decreases |steps|
  {
    steps != [] && (UsesAnother(s, steps[0], e, p) || AnotherUsed(dig, Exec(dig, s, steps[0]), steps[1..], e, p))
  }

  lemma StaysUsed(dig: Digester, s: Sys, step: Step, n: Bytes32, e: Bytes32, p: Bytes32)
    requires Inv(dig, s) && UsedBy(s.res, n, e, p)
    ensures UsedBy(Exec(dig, s, step).res, n, e, p)
  {
    StepReservationsForward(dig, s, step);
    assert RecordForward(s.res[n], Exec(dig, s, step).res[n]);
  }

  /** Marking makes Used only what it names. */
  lemma MarkUsesNamed(file: R.File, nonces: seq<Bytes32>, to: R.Status, n: Bytes32, e: Bytes32, p: Bytes32)
    requires UsedBy(R.Mark(file, nonces, to), n, e, p) && !UsedBy(file, n, e, p)
    ensures to == R.Used && n in nonces && n in file && file[n].participant == p && file[n].epoch == e
            && file[n].status == R.Reserved
  {
  }

  lemma ReserveUsesNothing(file: R.File, rec: R.Record, available: Balance, n: Bytes32, e: Bytes32, p: Bytes32)
    requires rec.status == R.Reserved && R.ReserveSpec(file, rec, available).Ok?
    requires UsedBy(R.ReserveSpec(file, rec, available).value, n, e, p)
    ensures UsedBy(file, n, e, p)
  {
  }

  lemma WrittenUses(dig: Digester, s: Sys, ph: Phase, n: Bytes32, e: Bytes32, p: Bytes32)
    requires ph.ResReady? && Knows(dig, s, ph) && UsedBy(ph.resNext, n, e, p) && !UsedBy(s.res, n, e, p)
    ensures ph.op.Finalize? && R.FinalizeCheck(s.res, ph.op.epoch, ph.op.nonces, ph.op.result.after.Keys).Ok?
    ensures n in ph.op.nonces && n in s.res && s.res[n].participant == p && s.res[n].epoch == e
            && s.res[n].status == R.Reserved
  {
    var op := ph.op;
    if op.Reserve? {
      ReserveUsesNothing(s.res, op.rec, op.available, n, e, p);
    } else {
      MarkUsesNamed(s.res, op.nonces, if op.Finalize? then R.Used else R.Released, n, e, p);
    }
  }

  /** A nonce becomes Used only as a Reserved nonce of the finalisation being written. */
  lemma NewlyUsed(dig: Digester, s: Sys, step: Step, n: Bytes32, e: Bytes32, p: Bytes32)
    requires Inv(dig, s) && UsedBy(Exec(dig, s, step).res, n, e, p) && !UsedBy(s.res, n, e, p)
    ensures step.WriteRes? && Ph(s, step.h).ResReady? && Ph(s, step.h).op.Finalize? && Ph(s, step.h).op.epoch == e
    ensures R.FinalizeCheck(s.res, e, Ph(s, step.h).op.nonces, Ph(s, step.h).op.result.after.Keys).Ok?
    ensures n in Ph(s, step.h).op.nonces && n in s.res && s.res[n].participant == p && s.res[n].status == R.Reserved
  {
    ResMoves(dig, s, step);
    var op := Ph(s, step.h).op;
    WrittenUses(dig, s, Ph(s, step.h), n, e, p);
    NamedForEpoch(s.res, op.epoch, op.nonces, op.result.after.Keys, n);
  }

  lemma UseAnother(dig: Digester, s: Sys, step: Step, e: Bytes32, p: Bytes32)
    requires Inv(dig, s) && UsesAnother(s, step, e, p)
    ensures TwiceUsed(Exec(dig, s, step).res, e, p)
  {
    var op := Ph(s, step.h).op;
    var n :| n in op.nonces && n in s.res && s.res[n].participant == p && s.res[n].status == R.Reserved;
    var m :| UsedBy(s.res, m, e, p);
    assert Knows(dig, s, Ph(s, step.h));
    NamedForEpoch(s.res, e, op.nonces, op.result.after.Keys, n);
    MarkAnother(s.res, op.nonces, n, m, e, p);
  }

  lemma TwiceUsedStep(dig: Digester, s: Sys, step: Step, e: Bytes32, p: Bytes32)
    requires Inv(dig, s) && !TwiceUsed(s.res, e, p) && !UsesAnother(s, step, e, p)
    ensures !TwiceUsed(Exec(dig, s, step).res, e, p)
  {
    var t := Exec(dig, s, step);
    forall n, m | n != m && UsedBy(t.res, n, e, p) ensures !UsedBy(t.res, m, e, p) {
      if UsedBy(t.res, m, e, p) { NotBothNew(dig, s, step, n, m, e, p); }
    }
  }

  lemma NotBothNew(dig: Digester, s: Sys, step: Step, n: Bytes32, m: Bytes32, e: Bytes32, p: Bytes32)
    requires Inv(dig, s) && n != m && UsedBy(Exec(dig, s, step).res, n, e, p) && UsedBy(Exec(dig, s, step).res, m, e, p)
    ensures UsesAnother(s, step, e, p) || TwiceUsed(s.res, e, p)
  {
    if !UsedBy(s.res, n, e, p) { NewlyUsed(dig, s, step, n, e, p); }
    if !UsedBy(s.res, m, e, p) { NewlyUsed(dig, s, step, m, e, p); }
    if !UsedBy(s.res, n, e, p) && !UsedBy(s.res, m, e, p) {
      R.FinalizeMeaning(s.res, e, Ph(s, step.h).op.nonces, Ph(s, step.h).op.result.after.Keys);
    }
  }

  lemma {:induction false} StaysTwiceUsed(dig: Digester, s: Sys, steps: seq<Step>, e: Bytes32, p: Bytes32)
    requires Inv(dig, s) && TwiceUsed(s.res, e, p)
    ensures TwiceUsed(Run(dig, s, steps).res, e, p)
    decreases |steps|
  {
    if steps != [] {
      var n, m :| n != m && UsedBy(s.res, n, e, p) && UsedBy(s.res, m, e, p);
      StaysUsed(dig, s, steps[0], n, e, p);
      StaysUsed(dig, s, steps[0], m, e, p);
      StepInv(dig, s, steps[0]);
      StaysTwiceUsed(dig, Exec(dig, s, steps[0]), steps[1..], e, p);
    }
  }

  /** A participant ends a run with two Used nonces in one epoch if and only if some finalisation of that epoch was
      written that used a Reserved nonce of the participant while another one was already Used. */
  lemma {:induction false} TwiceUsedIff(dig: Digester, s: Sys, steps: seq<Step>, e: Bytes32, p: Bytes32)
    requires Inv(dig, s) && !TwiceUsed(s.res, e, p)
    ensures TwiceUsed(Run(dig, s, steps).res, e, p) <==> AnotherUsed(dig, s, steps, e, p)
    decreases |steps|
  {
    if steps != [] {
      var t := Exec(dig, s, steps[0]);
      StepInv(dig, s, steps[0]);
      if UsesAnother(s, steps[0], e, p) {
        UseAnother(dig, s, steps[0], e, p);
        StaysTwiceUsed(dig, t, steps[1..], e, p);
      } else {
        TwiceUsedStep(dig, s, steps[0], e, p);
        TwiceUsedIff(dig, t, steps[1..], e, p);
      }
    }
  }
}
