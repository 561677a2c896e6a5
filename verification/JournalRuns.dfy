/** Every interleaving of any number of journal handles over the two files, with a stop possible at any point.

    A call is a sequence of steps: take a lock, read and check a file, replace a file, drop a lock. A replacement is
    atomic. A crash, a busy lock or an I/O error drops the handle's locks and leaves both files as they are; an I/O
    error after the replacement took effect is the replacement step followed by a crash. */
module JournalRuns {
  import opened Bytes
  import opened Ledger
  import opened Accounts
  import R = Reservations

  datatype Op =
    | Register(p: Bytes32, key: Bytes32, balance: Balance)
    | Query(p: Bytes32, key: Bytes32)
    | Reserve(rec: R.Record, available: Balance)
    | Finalize(epoch: Bytes32, cfg: BatchConfig, result: BatchResult, nonces: seq<Bytes32>)
    | Release(epoch: Bytes32, nonces: seq<Bytes32>)

  /** Where a handle is inside its call. */
  datatype Phase =
    | Idle
    | ResHeld(op: Op)                                      // reservation lock taken
    | Checked(op: Op, hadUsed: bool)                       // nonces checked against the file
    | Confirming(op: Op, hadUsed: bool)                    // account lock taken to read the commit marker
    | Confirmed(op: Op, hadUsed: bool)                     // marker consulted, account lock dropped
    | AccHeld(op: Op, hadUsed: bool)                       // account lock taken to change the file
    | AccReady(op: Op, hadUsed: bool, accNext: AccountState) // new account file computed
    | AccDone(op: Op)                                      // account file replaced
    | ResReady(op: Op, resNext: R.File)                    // new reservation file computed
    | ResDone(op: Op)                                      // reservation file replaced

  datatype Sys = Sys(acc: AccountState, res: R.File, accLock: Option<nat>, resLock: Option<nat>,
                     handles: map<nat, Phase>)

  datatype Step =
    | Begin(h: nat, op: Op)
    | Check(h: nat)
    | LockAcc(h: nat)
    | Confirm(h: nat)
    | Compute(h: nat)
    | WriteAcc(h: nat)
    | UnlockAcc(h: nat)
    | WriteRes(h: nat)
    | Finish(h: nat)
    | Crash(h: nat)

  function Ph(s: Sys, h: nat): Phase {
    if h in s.handles then s.handles[h] else Idle
  }

  function At(s: Sys, h: nat, ph: Phase): Sys {
    s.(handles := s.handles[h := ph])
  }

  predicate UsesReservations(op: Op) {
    op.Reserve? || op.Finalize? || op.Release?
  }

  predicate HoldsRes(ph: Phase) {
    !ph.Idle? && UsesReservations(ph.op)
  }

  predicate HoldsAcc(ph: Phase) {
    ph.Confirming? || ph.AccHeld? || ph.AccReady? || ph.AccDone?
  }

  /** The call ends or dies: its locks are dropped. */
  function Drop(s: Sys, h: nat): Sys {
    At(s, h, Idle).(accLock := if s.accLock == Some(h) then None else s.accLock,
                    resLock := if s.resLock == Some(h) then None else s.resLock)
  }

  function DropAcc(s: Sys, h: nat): Sys {
    s.(accLock := if s.accLock == Some(h) then None else s.accLock)
  }

  // ---- one step; a step that is not enabled leaves the system as it is ----

  /** A reservation to be made is one that `ReservationRecord::new` built. */
  predicate Constructible(op: Op) {
    op.Reserve? ==> R.NewRecord(op.rec.nonce, op.rec.epoch, op.rec.participant, op.rec.base, op.rec.quote) == Ok(op.rec)
  }

  function ExecBegin(s: Sys, h: nat, op: Op): Sys {
    if !Ph(s, h).Idle? || !Constructible(op) then s
    else if UsesReservations(op) then
      if s.resLock.None? then At(s, h, ResHeld(op)).(resLock := Some(h)) else s
    else if s.accLock.None? then At(s, h, AccHeld(op, false)).(accLock := Some(h)) else s
  }

  ghost function ExecCheck(s: Sys, h: nat): Sys {
    var ph := Ph(s, h);
    if !ph.ResHeld? then s
    else
      match ph.op
      case Reserve(rec, available) =>
        var next := R.ReserveSpec(s.res, rec, available);
        if next.Ok? then At(s, h, ResReady(ph.op, next.value)) else Drop(s, h)
      case Finalize(epoch, _, result, nonces) =>
        var checked := R.FinalizeCheck(s.res, epoch, nonces, result.after.Keys);
        if checked.Err? then Drop(s, h)
        else if checked.value then At(s, h, Checked(ph.op, true))
        else At(s, h, Confirmed(ph.op, false))
      case Release(epoch, nonces) =>
        if R.ReleaseCheck(s.res, epoch, nonces).Ok? then At(s, h, Checked(ph.op, false)) else Drop(s, h)
      case _ => s
  }

  function ExecLockAcc(s: Sys, h: nat): Sys {
    var ph := Ph(s, h);
    if s.accLock.Some? then s
    else if ph.Checked? then At(s, h, Confirming(ph.op, ph.hadUsed)).(accLock := Some(h))
    else if ph.Confirmed? then At(s, h, AccHeld(ph.op, ph.hadUsed)).(accLock := Some(h))
    else s
  }

  function ExecConfirm(dig: Digester, s: Sys, h: nat): Sys {
    var ph := Ph(s, h);
    if !ph.Confirming? then s
    else
      match ph.op
      case Finalize(epoch, _, result, _) =>
        if MatchesApplied(dig, s.acc, epoch, result) then DropAcc(At(s, h, Confirmed(ph.op, ph.hadUsed)), h)
        else Drop(s, h)
      case Release(epoch, nonces) =>
        if epoch in s.acc.applied then Drop(s, h)
        else DropAcc(At(s, h, ResReady(ph.op, R.Mark(s.res, nonces, R.Released))), h)
      case _ => s
  }

  function ExecCompute(dig: Digester, s: Sys, h: nat): Sys {
    var ph := Ph(s, h);
    if !ph.AccHeld? then s
    else
      match ph.op
      case Finalize(epoch, _, result, _) =>
        var next := ApplySpec(dig, s.acc, epoch, result);
        if next.Ok? then At(s, h, AccReady(ph.op, ph.hadUsed, next.value)) else Drop(s, h)
      case Register(p, key, balance) =>
        var next := RegisterSpec(s.acc, p, key, balance);
        if next.Ok? then At(s, h, AccReady(ph.op, ph.hadUsed, next.value)) else Drop(s, h)
      case Query(_, _) => Drop(s, h)
      case _ => s
  }

  function ExecWriteAcc(s: Sys, h: nat): Sys {
    var ph := Ph(s, h);
    if ph.AccReady? then At(s, h, AccDone(ph.op)).(acc := ph.accNext) else s
  }

  function ExecUnlockAcc(s: Sys, h: nat): Sys {
    var ph := Ph(s, h);
    if !ph.AccDone? then s
    else if ph.op.Finalize? then DropAcc(At(s, h, ResReady(ph.op, R.Mark(s.res, ph.op.nonces, R.Used))), h)
    else Drop(s, h)
  }

  function ExecWriteRes(s: Sys, h: nat): Sys {
    var ph := Ph(s, h);
    if ph.ResReady? then At(s, h, ResDone(ph.op)).(res := ph.resNext) else s
  }

  ghost function Exec(dig: Digester, s: Sys, step: Step): Sys {
    match step
    case Begin(h, op) => ExecBegin(s, h, op)
    case Check(h) => ExecCheck(s, h)
    case LockAcc(h) => ExecLockAcc(s, h)
    case Confirm(h) => ExecConfirm(dig, s, h)
    case Compute(h) => ExecCompute(dig, s, h)
    case WriteAcc(h) => ExecWriteAcc(s, h)
    case UnlockAcc(h) => ExecUnlockAcc(s, h)
    case WriteRes(h) => ExecWriteRes(s, h)
    case Finish(h) => if Ph(s, h).ResDone? then Drop(s, h) else s
    case Crash(h) => Drop(s, h)
  }

  const EMPTY := Sys(AccountState(map[], map[]), map[], None, None, map[])

  ghost function Run(dig: Digester, s: Sys, steps: seq<Step>): Sys
    decreases |steps|
  {
    if steps == [] then s else Run(dig, Exec(dig, s, steps[0]), steps[1..])
  }

  // ---- the invariant ----

  ghost predicate LockInv(s: Sys, h: nat) {
    && (HoldsRes(Ph(s, h)) <==> s.resLock == Some(h))
    && (HoldsAcc(Ph(s, h)) <==> s.accLock == Some(h))
  }

  ghost predicate Accepted(s: Sys, op: Op) {
    match op
    case Finalize(epoch, _, result, nonces) => R.FinalizeCheck(s.res, epoch, nonces, result.after.Keys).Ok?
    case Release(epoch, nonces) => R.ReleaseCheck(s.res, epoch, nonces).Ok?
    case _ => false
  }

  /** `hadUsed` is what the file says, and a used nonce was let through only for a committed epoch. */
  ghost predicate CommitSafe(s: Sys, op: Op, hadUsed: bool) {
    && op.Finalize?
    && R.FinalizeCheck(s.res, op.epoch, op.nonces, op.result.after.Keys) == Ok(hadUsed)
    && (hadUsed ==> op.epoch in s.acc.applied)
  }

  /** What a handle knows about the files while it holds their locks. */
  ghost predicate Knows(dig: Digester, s: Sys, ph: Phase) {
    match ph
    case Idle => true
    case ResHeld(op) => UsesReservations(op) && Constructible(op)
    case Checked(op, hadUsed) => Accepted(s, op)
                                 && (op.Finalize?
                                    ==> R.FinalizeCheck(s.res, op.epoch, op.nonces, op.result.after.Keys)
                                        == Ok(hadUsed))
    case Confirming(op, hadUsed) => Accepted(s, op)
                                    && (op.Finalize?
                                       ==> R.FinalizeCheck(s.res, op.epoch, op.nonces, op.result.after.Keys)
                                           == Ok(hadUsed))
    case Confirmed(op, hadUsed) => CommitSafe(s, op, hadUsed)
    case AccHeld(op, hadUsed) => op.Register? || op.Query? || CommitSafe(s, op, hadUsed)
    case AccReady(op, hadUsed, next) =>
      || (op.Register? && RegisterSpec(s.acc, op.p, op.key, op.balance) == Ok(next))
      || (CommitSafe(s, op, hadUsed) && ApplySpec(dig, s.acc, op.epoch, op.result) == Ok(next))
    case AccDone(op) => op.Register? || (op.Finalize? && Accepted(s, op) && op.epoch in s.acc.applied)
    case ResReady(op, next) =>
      || (op.Reserve? && Constructible(op) && R.ReserveSpec(s.res, op.rec, op.available) == Ok(next))
      || (op.Finalize? && Accepted(s, op) && op.epoch in s.acc.applied && next == R.Mark(s.res, op.nonces, R.Used))
      || (op.Release? && Accepted(s, op) && op.epoch !in s.acc.applied && next == R.Mark(s.res, op.nonces, R.Released))
    case ResDone(op) => UsesReservations(op)
  }

  ghost predicate Inv(dig: Digester, s: Sys) {
    && (forall h: nat :: LockInv(s, h))
    && (forall h: nat :: Knows(dig, s, Ph(s, h)))
    && Accounts.Fits(s.acc)
    && R.Fits(s.res)
  }

  /** The account file only gained accounts. */
  ghost predicate OnlyRegistered(a: AccountState, b: AccountState) {
    && a.applied == b.applied
    && a.records.Keys <= b.records.Keys
    && forall p | p in a.records :: a.records[p] == b.records[p]
  }

  /** A handle's knowledge survives what another handle may do meanwhile. */
  lemma KnowsStable(dig: Digester, s: Sys, t: Sys, ph: Phase)
    requires Knows(dig, s, ph)
    requires HoldsRes(ph) ==> s.res == t.res && OnlyRegistered(s.acc, t.acc)
    requires HoldsAcc(ph) ==> s.acc == t.acc
    ensures Knows(dig, t, ph)
  {
  }

  /** Only the holder of a file's lock changes it, and without the reservation lock the account file only grows. */
  ghost predicate FilesOwned(s: Sys, t: Sys, h: nat) {
    && (s.res != t.res ==> s.resLock == Some(h))
    && (s.acc != t.acc ==> s.accLock == Some(h))
    && (s.resLock != Some(h) ==> OnlyRegistered(s.acc, t.acc))
  }

  /** A step moves a lock only between free and its own handle. */
  ghost predicate LocksOwned(s: Sys, t: Sys, h: nat) {
    && (s.resLock != t.resLock
       ==> (s.resLock.None? && t.resLock == Some(h)) || (s.resLock == Some(h) && t.resLock.None?))
    && (s.accLock != t.accLock
       ==> (s.accLock.None? && t.accLock == Some(h)) || (s.accLock == Some(h) && t.accLock.None?))
  }

  lemma StepFilesOwned(dig: Digester, s: Sys, step: Step)
    requires Inv(dig, s)
    ensures FilesOwned(s, Exec(dig, s, step), step.h)
  {
    assert LockInv(s, step.h) && Knows(dig, s, Ph(s, step.h));
  }

  lemma StepLocksOwned(dig: Digester, s: Sys, step: Step)
    ensures LocksOwned(s, Exec(dig, s, step), step.h)
  {
  }

  lemma OthersStay(dig: Digester, s: Sys, step: Step, g: nat)
    requires g != step.h
    ensures Ph(Exec(dig, s, step), g) == Ph(s, g)
  {
  }

  /** The call a handle is in was handed to it by a `Begin`. */
  lemma CallFrom(dig: Digester, s: Sys, step: Step, g: nat)
    ensures var ph, ph2 := Ph(s, g), Ph(Exec(dig, s, step), g);
            || ph2.Idle?
            || (!ph.Idle? && ph2.op == ph.op)
            || (step.Begin? && ph2.op == step.op)
  {
    if g != step.h { OthersStay(dig, s, step, g); }
  }

  lemma OwnLocks(dig: Digester, s: Sys, step: Step)
    requires Inv(dig, s)
    ensures LockInv(Exec(dig, s, step), step.h)
  {
    assert LockInv(s, step.h) && Knows(dig, s, Ph(s, step.h));
  }

  lemma OwnKnows(dig: Digester, s: Sys, step: Step)
    requires Inv(dig, s)
    ensures var t := Exec(dig, s, step); Knows(dig, t, Ph(t, step.h))
  {
    assert LockInv(s, step.h) && Knows(dig, s, Ph(s, step.h));
  }

  /** The reservation file changes only when a handle writes the file it computed. */
  lemma ResMoves(dig: Digester, s: Sys, step: Step)
    requires Inv(dig, s)
    ensures Exec(dig, s, step).res == s.res ||
            (step.WriteRes? && Ph(s, step.h).ResReady? && Knows(dig, s, Ph(s, step.h)) &&
             Exec(dig, s, step).res == Ph(s, step.h).resNext && Exec(dig, s, step).acc == s.acc)
  {
  }

  /** So does the account file. */
  lemma AccMoves(dig: Digester, s: Sys, step: Step)
    requires Inv(dig, s)
    ensures Exec(dig, s, step).acc == s.acc ||
            (step.WriteAcc? && Ph(s, step.h).AccReady? && Knows(dig, s, Ph(s, step.h)) &&
             Exec(dig, s, step).acc == Ph(s, step.h).accNext)
  {
  }

  lemma WrittenResFits(dig: Digester, s: Sys, ph: Phase)
    requires ph.ResReady? && Knows(dig, s, ph) && R.Fits(s.res)
    ensures R.Fits(ph.resNext)
  {
    if !ph.op.Reserve? { R.MarkKeeps(s.res, ph.op.nonces, if ph.op.Finalize? then R.Used else R.Released); }
  }

  lemma StepFits(dig: Digester, s: Sys, step: Step)
    requires Inv(dig, s)
    ensures Accounts.Fits(Exec(dig, s, step).acc)
    ensures R.Fits(Exec(dig, s, step).res)
  {
    ResMoves(dig, s, step);
    AccMoves(dig, s, step);
    if Exec(dig, s, step).res != s.res { WrittenResFits(dig, s, Ph(s, step.h)); }
  }

  lemma StepInv(dig: Digester, s: Sys, step: Step)
    requires Inv(dig, s)
    ensures Inv(dig, Exec(dig, s, step))
  {
    var t := Exec(dig, s, step);
    StepFilesOwned(dig, s, step);
    StepLocksOwned(dig, s, step);
    OwnLocks(dig, s, step);
    OwnKnows(dig, s, step);
    StepFits(dig, s, step);
    forall g: nat ensures LockInv(t, g) && Knows(dig, t, Ph(t, g)) {
      if g != step.h {
        OthersStay(dig, s, step, g);
        assert LockInv(s, g) && Knows(dig, s, Ph(s, g));
        KnowsStable(dig, s, t, Ph(s, g));
      }
    }
  }

  lemma {:induction false} RunInv(dig: Digester, s: Sys, steps: seq<Step>)
    requires Inv(dig, s)
    ensures Inv(dig, Run(dig, s, steps))
    decreases |steps|
  {
    if steps != [] {
      StepInv(dig, s, steps[0]);
      RunInv(dig, Exec(dig, s, steps[0]), steps[1..]);
    }
  }
}
