/** Commit against release, exactly-once commits and recovery, over every run of the two journals. */
module Commits {
  import opened Bytes
  import Order
  import opened Ledger
  import opened Accounts
  import opened JournalRuns
  import R = Reservations

  /** This step writes the commit marker of `e` for the first time. */
  ghost predicate CommitsAt(s: Sys, step: Step, e: Bytes32) {
    step.WriteAcc? && Ph(s, step.h).AccReady? && Ph(s, step.h).op.Finalize? && Ph(s, step.h).op.epoch == e
      && e !in s.acc.applied
  }

  // ---- the files only move forward ----

  ghost predicate MarkersKept(a: AccountState, b: AccountState) {
    a.applied.Keys <= b.applied.Keys && forall e | e in a.applied :: a.applied[e] == b.applied[e]
  }

  ghost predicate RecordForward(a: R.Record, b: R.Record) {
    b == a.(status := b.status) && (a.status != R.Reserved ==> b.status == a.status)
  }

  ghost predicate ReservationsForward(a: R.File, b: R.File) {
    a.Keys <= b.Keys && forall n | n in a :: RecordForward(a[n], b[n])
  }

  lemma StepKeepsMarkers(dig: Digester, s: Sys, step: Step)
    requires Inv(dig, s)
    ensures MarkersKept(s.acc, Exec(dig, s, step).acc)
    ensures s.acc.records.Keys <= Exec(dig, s, step).acc.records.Keys
  {
    assert Knows(dig, s, Ph(s, step.h));
  }

  lemma MarkForward(file: R.File, nonces: seq<Bytes32>, to: R.Status)
    ensures ReservationsForward(file, R.Mark(file, nonces, to))
  {
  }

  lemma WrittenForward(dig: Digester, s: Sys, ph: Phase)
    requires ph.ResReady? && Knows(dig, s, ph)
    ensures ReservationsForward(s.res, ph.resNext)
  {
    if !ph.op.Reserve? {
      MarkForward(s.res, ph.op.nonces, if ph.op.Finalize? then R.Used else R.Released);
    }
  }

  lemma StepReservationsForward(dig: Digester, s: Sys, step: Step)
    requires Inv(dig, s)
    ensures ReservationsForward(s.res, Exec(dig, s, step).res)
  {
    ResMoves(dig, s, step);
    if Exec(dig, s, step).res != s.res { WrittenForward(dig, s, Ph(s, step.h)); }
  }

  lemma {:induction false} RunForward(dig: Digester, s: Sys, steps: seq<Step>)
    requires Inv(dig, s)
    ensures MarkersKept(s.acc, Run(dig, s, steps).acc)
    ensures ReservationsForward(s.res, Run(dig, s, steps).res)
    decreases |steps|
  {
    if steps != [] {
      var t := Exec(dig, s, steps[0]);
      StepKeepsMarkers(dig, s, steps[0]);
      StepReservationsForward(dig, s, steps[0]);
      StepInv(dig, s, steps[0]);
      RunForward(dig, t, steps[1..]);
      forall n | n in s.res ensures RecordForward(s.res[n], Run(dig, s, steps).res[n]) {
        assert RecordForward(s.res[n], t.res[n]);
      }
    }
  }

  lemma {:induction false} RunSplit(dig: Digester, s: Sys, a: seq<Step>, b: seq<Step>)
    ensures Run(dig, s, a + b) == Run(dig, Run(dig, s, a), b)
    decreases |a|
  {
    if a == [] {
      assert a + b == b;
    } else {
      RunSplit(dig, Exec(dig, s, a[0]), a[1..], b);
      assert (a + b)[1..] == a[1..] + b;
    }
  }

  // ---- commit against release ----

  /** An epoch's first commit happens only while every nonce passed is a Reserved nonce of that epoch, one for each
      member of the result. */
  lemma FirstCommitIsReserved(dig: Digester, steps: seq<Step>, step: Step, e: Bytes32)
    requires CommitsAt(Run(dig, EMPTY, steps), step, e)
    ensures var s := Run(dig, EMPTY, steps);
            var op := Ph(s, step.h).op;
            && (forall n | n in op.nonces :: n in s.res && s.res[n].epoch == e && s.res[n].status == R.Reserved)
            && Order.Distinct(op.nonces) && |op.nonces| == |op.result.after.Keys|
            && R.Participants(s.res, op.nonces) == op.result.after.Keys
  {
    RunInv(dig, EMPTY, steps);
    var s := Run(dig, EMPTY, steps);
    var op := Ph(s, step.h).op;
    assert Knows(dig, s, Ph(s, step.h));
    R.FinalizeMeaning(s.res, e, op.nonces, op.result.after.Keys);
    R.CheckMeaning(s.res, e, op.nonces, R.Released);
    forall n | n in op.nonces ensures n in s.res && s.res[n].epoch == e && s.res[n].status == R.Reserved {
      assert R.Passes(s.res, e, n, R.Released);
    }
  }

  predicate IsReleased(res: R.File, n: Bytes32) {
    n in res && res[n].status == R.Released
  }

  /** Marking releases only what a release names. */
  lemma MarkReleases(file: R.File, nonces: seq<Bytes32>, to: R.Status, n: Bytes32)
    requires IsReleased(R.Mark(file, nonces, to), n) && !IsReleased(file, n)
    ensures to == R.Released && n in nonces && n in file && R.Mark(file, nonces, to)[n].epoch == file[n].epoch
  {
  }

  lemma MarkedByRelease(file: R.File, e: Bytes32, nonces: seq<Bytes32>, n: Bytes32)
    requires R.ReleaseCheck(file, e, nonces).Ok?
    requires IsReleased(R.Mark(file, nonces, R.Released), n) && !IsReleased(file, n)
    ensures R.Mark(file, nonces, R.Released)[n].epoch == e
  {
    MarkReleases(file, nonces, R.Released, n);
    R.CheckMeaning(file, e, nonces, R.Used);
    assert R.Passes(file, e, n, R.Used);
  }

  lemma ReserveReleasesNothing(file: R.File, rec: R.Record, available: Balance, n: Bytes32)
    requires rec.status == R.Reserved && R.ReserveSpec(file, rec, available).Ok?
    requires IsReleased(R.ReserveSpec(file, rec, available).value, n)
    ensures IsReleased(file, n)
  {
  }

  lemma WrittenReleases(dig: Digester, s: Sys, ph: Phase, n: Bytes32)
    requires ph.ResReady? && Knows(dig, s, ph)
    requires IsReleased(ph.resNext, n) && !IsReleased(s.res, n)
    ensures ph.op.Release? && ph.resNext[n].epoch == ph.op.epoch && ph.op.epoch !in s.acc.applied
  {
    var op := ph.op;
    if op.Reserve? {
      ReserveReleasesNothing(s.res, op.rec, op.available, n);
    } else if op.Finalize? {
      MarkReleases(s.res, op.nonces, R.Used, n);
    } else {
      MarkedByRelease(s.res, op.epoch, op.nonces, n);
    }
  }

  /** A nonce becomes Released only through a release of its own epoch, while that has no commit marker. */
  lemma StepReleases(dig: Digester, s: Sys, step: Step, n: Bytes32)
    requires Inv(dig, s)
    requires IsReleased(Exec(dig, s, step).res, n) && !IsReleased(s.res, n)
    ensures !Ph(s, step.h).Idle? && Ph(s, step.h).op.Release?
    ensures Exec(dig, s, step).res[n].epoch == Ph(s, step.h).op.epoch
    ensures Exec(dig, s, step).res[n].epoch !in Exec(dig, s, step).acc.applied
  {
    ResMoves(dig, s, step);
    WrittenReleases(dig, s, Ph(s, step.h), n);
  }

  /** After an epoch's commit no nonce of that epoch ever becomes Released. */
  lemma {:induction false} CommittedNeverReleased(dig: Digester, s: Sys, steps: seq<Step>, e: Bytes32, n: Bytes32)
    requires Inv(dig, s) && e in s.acc.applied
    requires IsReleased(Run(dig, s, steps).res, n) && Run(dig, s, steps).res[n].epoch == e
    ensures IsReleased(s.res, n)
    decreases |steps|
  {
    if steps != [] {
      var t := Exec(dig, s, steps[0]);
      StepInv(dig, s, steps[0]);
      StepKeepsMarkers(dig, s, steps[0]);
      CommittedNeverReleased(dig, t, steps[1..], e, n);
      RunForward(dig, t, steps[1..]);
      assert RecordForward(t.res[n], Run(dig, t, steps[1..]).res[n]);
      if !IsReleased(s.res, n) { StepReleases(dig, s, steps[0], n); }
    }
  }

  /** The callers consult the chain: finalisation only for settled epochs, release only with a capability for an
      expired or aborted one. */
  ghost predicate ChainHonest(step: Step, settled: iset<Bytes32>, failed: iset<Bytes32>) {
    step.Begin? ==> (step.op.Finalize? ==> step.op.epoch in settled) && (step.op.Release? ==> step.op.epoch in failed)
  }

  ghost predicate ChainHonestRun(steps: seq<Step>, settled: iset<Bytes32>, failed: iset<Bytes32>) {
    forall i | 0 <= i < |steps| :: ChainHonest(steps[i], settled, failed)
  }

  ghost predicate FollowsChain(s: Sys, settled: iset<Bytes32>, failed: iset<Bytes32>) {
    && (forall e | e in s.acc.applied :: e in settled)
    && (forall n | IsReleased(s.res, n) :: s.res[n].epoch in failed)
    && (forall h: nat :: OpFollows(Ph(s, h), settled, failed))
  }

  ghost predicate OpFollows(ph: Phase, settled: iset<Bytes32>, failed: iset<Bytes32>) {
    ph.Idle? || ((ph.op.Finalize? ==> ph.op.epoch in settled) && (ph.op.Release? ==> ph.op.epoch in failed))
  }

  lemma StepOpFollows(dig: Digester, s: Sys, step: Step, settled: iset<Bytes32>, failed: iset<Bytes32>, g: nat)
    requires OpFollows(Ph(s, g), settled, failed) && ChainHonest(step, settled, failed)
    ensures OpFollows(Ph(Exec(dig, s, step), g), settled, failed)
  {
    CallFrom(dig, s, step, g);
  }

  lemma StepMarkers(dig: Digester, s: Sys, step: Step, e: Bytes32)
    requires Inv(dig, s) && e !in s.acc.applied && e in Exec(dig, s, step).acc.applied
    ensures CommitsAt(s, step, e)
  {
    assert Knows(dig, s, Ph(s, step.h));
  }

  lemma StepFollowsChain(dig: Digester, s: Sys, step: Step, settled: iset<Bytes32>, failed: iset<Bytes32>)
    requires Inv(dig, s) && FollowsChain(s, settled, failed) && ChainHonest(step, settled, failed)
    ensures FollowsChain(Exec(dig, s, step), settled, failed)
  {
    var t := Exec(dig, s, step);
    assert OpFollows(Ph(s, step.h), settled, failed);
    forall h: nat ensures OpFollows(Ph(t, h), settled, failed) { StepOpFollows(dig, s, step, settled, failed, h); }
    forall e | e in t.acc.applied ensures e in settled {
      if e !in s.acc.applied { StepMarkers(dig, s, step, e); }
    }
    forall n | IsReleased(t.res, n) ensures t.res[n].epoch in failed {
      if IsReleased(s.res, n) {
        StepReservationsForward(dig, s, step);
        assert RecordForward(s.res[n], t.res[n]);
      } else {
        StepReleases(dig, s, step, n);
      }
    }
  }

  lemma {:induction false} RunFollowsChain(dig: Digester, s: Sys, steps: seq<Step>, settled: iset<Bytes32>,
                                           failed: iset<Bytes32>)
    requires Inv(dig, s) && FollowsChain(s, settled, failed)
    requires ChainHonestRun(steps, settled, failed)
    ensures FollowsChain(Run(dig, s, steps), settled, failed)
    decreases |steps|
  {
    if steps != [] {
      StepFollowsChain(dig, s, steps[0], settled, failed);
      StepInv(dig, s, steps[0]);
      RunFollowsChain(dig, Exec(dig, s, steps[0]), steps[1..], settled, failed);
    }
  }

  /** When the callers follow the chain, no epoch ever has both a commit and a Released nonce. */
  lemma NeverCommittedAndReleased(dig: Digester, steps: seq<Step>, settled: iset<Bytes32>, failed: iset<Bytes32>,
                                  n: Bytes32)
    requires settled !! failed
    requires ChainHonestRun(steps, settled, failed)
    requires IsReleased(Run(dig, EMPTY, steps).res, n)
    ensures Run(dig, EMPTY, steps).res[n].epoch !in Run(dig, EMPTY, steps).acc.applied
  {
    assert FollowsChain(EMPTY, settled, failed);
    RunFollowsChain(dig, EMPTY, steps, settled, failed);
    var s := Run(dig, EMPTY, steps);
    assert s.res[n].epoch in failed;
  }

  // ---- exactly when an epoch gets both ----

  ghost predicate BothWays(s: Sys) {
    exists n :: IsReleased(s.res, n) && s.res[n].epoch in s.acc.applied
  }

  ghost predicate NoneReleased(res: R.File, e: Bytes32) {
    forall n | IsReleased(res, n) :: res[n].epoch != e
  }

  /** If this step is an epoch's first commit, no nonce of that epoch is Released in the file. */
  ghost predicate CleanCommit(s: Sys, step: Step) {
    forall e | CommitsAt(s, step, e) :: NoneReleased(s.res, e)
  }

  ghost predicate CleanCommits(dig: Digester, s: Sys, steps: seq<Step>)
    decreases |steps|
  {
    steps == [] || (CleanCommit(s, steps[0]) && CleanCommits(dig, Exec(dig, s, steps[0]), steps[1..]))
  }

  lemma StaysReleased(dig: Digester, s: Sys, step: Step, n: Bytes32)
    requires Inv(dig, s) && IsReleased(s.res, n)
    ensures IsReleased(Exec(dig, s, step).res, n) && Exec(dig, s, step).res[n].epoch == s.res[n].epoch
  {
    StepReservationsForward(dig, s, step);
    assert RecordForward(s.res[n], Exec(dig, s, step).res[n]);
  }

  /** A step that commits over a Released nonce leaves both. */
  lemma UncleanStep(dig: Digester, s: Sys, step: Step)
    requires Inv(dig, s) && (BothWays(s) || !CleanCommit(s, step))
    ensures BothWays(Exec(dig, s, step))
  {
    var t := Exec(dig, s, step);
    StepKeepsMarkers(dig, s, step);
    if BothWays(s) {
      var n :| IsReleased(s.res, n) && s.res[n].epoch in s.acc.applied;
      StaysReleased(dig, s, step, n);
    } else {
      var e :| CommitsAt(s, step, e) && !NoneReleased(s.res, e);
      var n :| IsReleased(s.res, n) && s.res[n].epoch == e;
      StaysReleased(dig, s, step, n);
      CommitMarks(dig, s, step, e);
    }
  }

  lemma CommitMarks(dig: Digester, s: Sys, step: Step, e: Bytes32)
    requires Inv(dig, s) && CommitsAt(s, step, e)
    ensures e in Exec(dig, s, step).acc.applied
  {
    assert Knows(dig, s, Ph(s, step.h));
  }

  lemma CleanStep(dig: Digester, s: Sys, step: Step)
    requires Inv(dig, s) && !BothWays(s) && CleanCommit(s, step)
    ensures !BothWays(Exec(dig, s, step))
  {
    var t := Exec(dig, s, step);
    forall n | IsReleased(t.res, n) ensures t.res[n].epoch !in t.acc.applied {
      if !IsReleased(s.res, n) {
        StepReleases(dig, s, step, n);
      } else {
        StaysReleased(dig, s, step, n);
        var e := s.res[n].epoch;
        if e in t.acc.applied { StepMarkers(dig, s, step, e); }
      }
    }
  }

  lemma {:induction false} StaysBothWays(dig: Digester, s: Sys, steps: seq<Step>)
    requires Inv(dig, s) && BothWays(s)
    ensures BothWays(Run(dig, s, steps))
    decreases |steps|
  {
    if steps != [] {
      UncleanStep(dig, s, steps[0]);
      StepInv(dig, s, steps[0]);
      StaysBothWays(dig, Exec(dig, s, steps[0]), steps[1..]);
    }
  }

  /** A run leaves an epoch with both a commit and a Released nonce if and only if one of its first commits was written
      while the file already held a Released nonce of that epoch. */
  lemma {:induction false} BothWaysIff(dig: Digester, s: Sys, steps: seq<Step>)
    requires Inv(dig, s) && !BothWays(s)
    ensures BothWays(Run(dig, s, steps)) <==> !CleanCommits(dig, s, steps)
    decreases |steps|
  {
    if steps != [] {
      StepInv(dig, s, steps[0]);
      if CleanCommit(s, steps[0]) {
        CleanStep(dig, s, steps[0]);
        BothWaysIff(dig, Exec(dig, s, steps[0]), steps[1..]);
      } else {
        UncleanStep(dig, s, steps[0]);
        StaysBothWays(dig, Exec(dig, s, steps[0]), steps[1..]);
      }
    }
  }

  lemma RecheckAfterRelease(res: R.File, e: Bytes32, nonces: seq<Bytes32>, members: set<Bytes32>, m: Bytes32)
    requires R.FinalizeCheck(res, e, nonces, members).Ok? && m !in nonces
    ensures R.FinalizeCheck(R.Mark(res, [m], R.Released), e, nonces, members).Ok?
    ensures R.AnyUsed(R.Mark(res, [m], R.Released), nonces) == R.AnyUsed(res, nonces)
  {
    R.FinalizeMeaning(res, e, nonces, members);
    var later := R.Mark(res, [m], R.Released);
    forall n | n in nonces ensures n in res && later[n] == res[n] && res[n].status != R.Released {
      assert R.Passes(res, e, n, R.Released);
    }
    R.FinalizeRecheck(res, later, e, nonces, members);
  }

  /** Without that discipline the claim fails: whenever a first commit would succeed and the epoch has one more Reserved
      nonce, releasing that nonce and then finalising both succeed, leaving the epoch with a commit and a Released
      nonce. */
  lemma ReleasedThenCommitted(dig: Digester, acc: AccountState, res: R.File, e: Bytes32, result: BatchResult,
                              nonces: seq<Bytes32>, m: Bytes32)
    requires e !in acc.applied && FinalizeSpec(dig, acc, res, e, result, nonces).0.Ok?
    requires m !in nonces && m in res && res[m].epoch == e && res[m].status == R.Reserved
    ensures var (first, released) := ReleaseSpec(acc, res, e, [m]);
            var (second, acc', res') := FinalizeSpec(dig, acc, released, e, result, nonces);
            && first.Ok? && second.Ok? && e in acc'.applied && m in res' && res'[m].epoch == e
               && res'[m].status == R.Released
  {
    R.CheckMeaning(res, e, [m], R.Used);
    RecheckAfterRelease(res, e, nonces, result.after.Keys, m);
  }

  // ---- exactly once ----

  /** A stored record changes only in the first commit of an epoch whose result names its participant. */
  lemma RecordChangeIsCommit(dig: Digester, s: Sys, step: Step, p: Bytes32)
    requires Inv(dig, s) && p in s.acc.records
    requires p !in Exec(dig, s, step).acc.records || Exec(dig, s, step).acc.records[p] != s.acc.records[p]
    ensures !Ph(s, step.h).Idle? && Ph(s, step.h).op.Finalize?
    ensures CommitsAt(s, step, Ph(s, step.h).op.epoch)
    ensures p in Ph(s, step.h).op.result.after
    ensures p in Exec(dig, s, step).acc.records
    ensures Exec(dig, s, step).acc.records[p].lastEpoch == Ph(s, step.h).op.epoch
  {
    assert Knows(dig, s, Ph(s, step.h));
  }

  lemma StaysCommitted(dig: Digester, steps: seq<Step>, i: nat, j: nat, e: Bytes32)
    requires i < j <= |steps|
    requires CommitsAt(Run(dig, EMPTY, steps[..i]), steps[i], e)
    ensures e in Run(dig, EMPTY, steps[..j]).acc.applied
  {
    var s := Run(dig, EMPTY, steps[..i]);
    RunInv(dig, EMPTY, steps[..i]);
    CommitIsPending(dig, s, steps[i], e);
    StepInv(dig, s, steps[i]);
    RunForward(dig, Exec(dig, s, steps[i]), steps[i + 1..j]);
    RunSplit(dig, EMPTY, steps[..i], steps[i..j]);
    assert steps[..i] + steps[i..j] == steps[..j];
    assert steps[i..j][1..] == steps[i + 1..j];
  }

  /** In any run an epoch is committed at most once, so it changes stored balances at most once. */
  lemma CommittedOnce(dig: Digester, steps: seq<Step>, i: nat, j: nat, e: Bytes32)
    requires i <= j < |steps|
    requires CommitsAt(Run(dig, EMPTY, steps[..i]), steps[i], e)
    requires CommitsAt(Run(dig, EMPTY, steps[..j]), steps[j], e)
    ensures i == j
  {
    if i < j { StaysCommitted(dig, steps, i, j, e); }
  }

  /** Once an epoch carries a marker, finalising it with a result of another digest is refused and writes nothing. */
  lemma OtherResultRefused(dig: Digester, acc: AccountState, res: R.File, e: Bytes32, result: BatchResult,
                           nonces: seq<Bytes32>)
    requires e in acc.applied && acc.applied[e] != dig(result)
    ensures FinalizeSpec(dig, acc, res, e, result, nonces).0.Err?
    ensures FinalizeSpec(dig, acc, res, e, result, nonces).1 == acc
    ensures FinalizeSpec(dig, acc, res, e, result, nonces).2 == res
  {
  }

  // ---- recovery ----

  /** The call's marker is on disk and its nonces would still be accepted. */
  ghost predicate Pending(dig: Digester, s: Sys, op: Op) {
    && op.Finalize? && op.epoch != ZERO
    && op.epoch in s.acc.applied && s.acc.applied[op.epoch] == dig(op.result)
    && op.result.after.Keys <= s.acc.records.Keys
    && R.FinalizeCheck(s.res, op.epoch, op.nonces, op.result.after.Keys).Ok?
  }

  /** Some member was since settled by another epoch. */
  ghost predicate Overtaken(s: Sys, op: Op)
    requires op.Finalize?
  {
    exists p | p in op.result.after :: p in s.acc.records && s.acc.records[p].lastEpoch != op.epoch
  }

  /** This step commits another result to one of `members`. */
  ghost predicate CommitTouches(s: Sys, step: Step, members: set<Bytes32>) {
    && !Ph(s, step.h).Idle? && Ph(s, step.h).op.Finalize? && CommitsAt(s, step, Ph(s, step.h).op.epoch)
    && exists p | p in members :: p in Ph(s, step.h).op.result.after
  }

  ghost predicate Touched(dig: Digester, s: Sys, steps: seq<Step>, members: set<Bytes32>)
    decreases |steps|
  {
    steps != [] && (CommitTouches(s, steps[0], members) || Touched(dig, Exec(dig, s, steps[0]), steps[1..], members))
  }

  lemma StepPending(dig: Digester, s: Sys, step: Step, op: Op)
    requires Inv(dig, s) && Pending(dig, s, op)
    ensures Pending(dig, Exec(dig, s, step), op)
  {
    var t := Exec(dig, s, step);
    StepKeepsMarkers(dig, s, step);
    StepReservationsForward(dig, s, step);
    R.CheckMeaning(s.res, op.epoch, op.nonces, R.Released);
    forall n | n in op.nonces && n in t.res ensures t.res[n].status != R.Released {
      assert R.Passes(s.res, op.epoch, n, R.Released);
      assert RecordForward(s.res[n], t.res[n]);
      if IsReleased(t.res, n) { StepReleases(dig, s, step, n); }
    }
    forall n | n in s.res ensures s.res[n].(status := t.res[n].status) == t.res[n] {
      assert RecordForward(s.res[n], t.res[n]);
    }
    R.FinalizeRecheck(s.res, t.res, op.epoch, op.nonces, op.result.after.Keys);
  }

  lemma StepMatches(dig: Digester, s: Sys, step: Step, op: Op)
    requires Inv(dig, s) && Pending(dig, s, op) && Matches(s.acc.records, op.epoch, op.result)
    requires !CommitTouches(s, step, op.result.after.Keys)
    ensures Matches(Exec(dig, s, step).acc.records, op.epoch, op.result)
  {
    var t := Exec(dig, s, step);
    forall p | p in op.result.after ensures p in t.acc.records && t.acc.records[p] == s.acc.records[p] {
      if p !in t.acc.records || t.acc.records[p] != s.acc.records[p] { RecordChangeIsCommit(dig, s, step, p); }
    }
  }

  lemma TouchOvertakes(dig: Digester, s: Sys, step: Step, op: Op)
    requires Inv(dig, s) && Pending(dig, s, op)
    requires CommitTouches(s, step, op.result.after.Keys)
    ensures Overtaken(Exec(dig, s, step), op)
  {
    var t, other := Exec(dig, s, step), Ph(s, step.h).op;
    assert Knows(dig, s, Ph(s, step.h));
    var p :| p in op.result.after && p in other.result.after;
    assert t.acc.records[p].lastEpoch == other.epoch;
  }

  lemma StepOvertaken(dig: Digester, s: Sys, step: Step, op: Op)
    requires Inv(dig, s) && Pending(dig, s, op) && Overtaken(s, op)
    ensures Overtaken(Exec(dig, s, step), op)
  {
    var t := Exec(dig, s, step);
    var p :| p in op.result.after && p in s.acc.records && s.acc.records[p].lastEpoch != op.epoch;
    if p !in t.acc.records || t.acc.records[p] != s.acc.records[p] { RecordChangeIsCommit(dig, s, step, p); }
    assert p in t.acc.records && t.acc.records[p].lastEpoch != op.epoch;
  }

  lemma {:induction false} RunOvertaken(dig: Digester, s: Sys, steps: seq<Step>, op: Op)
    requires Inv(dig, s) && Pending(dig, s, op) && Overtaken(s, op)
    ensures Pending(dig, Run(dig, s, steps), op) && Overtaken(Run(dig, s, steps), op)
    decreases |steps|
  {
    if steps != [] {
      StepInv(dig, s, steps[0]);
      StepPending(dig, s, steps[0], op);
      StepOvertaken(dig, s, steps[0], op);
      RunOvertaken(dig, Exec(dig, s, steps[0]), steps[1..], op);
    }
  }

  lemma {:induction false} RunPending(dig: Digester, s: Sys, steps: seq<Step>, op: Op)
    requires Inv(dig, s) && Pending(dig, s, op) && Matches(s.acc.records, op.epoch, op.result)
    ensures Pending(dig, Run(dig, s, steps), op)
    ensures Matches(Run(dig, s, steps).acc.records, op.epoch, op.result)
            <==> !Touched(dig, s, steps, op.result.after.Keys)
    decreases |steps|
  {
    if steps != [] {
      var t := Exec(dig, s, steps[0]);
      StepInv(dig, s, steps[0]);
      StepPending(dig, s, steps[0], op);
      if CommitTouches(s, steps[0], op.result.after.Keys) {
        TouchOvertakes(dig, s, steps[0], op);
        RunOvertaken(dig, t, steps[1..], op);
      } else {
        StepMatches(dig, s, steps[0], op);
        RunPending(dig, t, steps[1..], op);
      }
    }
  }

  lemma CommitIsPending(dig: Digester, s: Sys, step: Step, e: Bytes32)
    requires Inv(dig, s) && CommitsAt(s, step, e)
    ensures Pending(dig, Exec(dig, s, step), Ph(s, step.h).op)
    ensures Matches(Exec(dig, s, step).acc.records, e, Ph(s, step.h).op.result)
  {
    assert Knows(dig, s, Ph(s, step.h));
  }

  lemma MarkUses(file: R.File, epoch: Bytes32, nonces: seq<Bytes32>, members: set<Bytes32>)
    requires R.FinalizeCheck(file, epoch, nonces, members).Ok?
    ensures forall n | n in nonces :: n in file && R.Mark(file, nonces, R.Used)[n].status == R.Used
  {
    R.FinalizeMeaning(file, epoch, nonces, members);
    forall n | n in nonces ensures n in file && R.Mark(file, nonces, R.Used)[n].status == R.Used {
      assert R.Passes(file, epoch, n, R.Released);
    }
  }

  /** A finalisation whose marker is pending succeeds exactly when the stored balances still match its result; it then
      leaves the account file alone and all its nonces are Used. */
  lemma RetryOutcome(dig: Digester, s: Sys, op: Op)
    requires Accounts.Fits(s.acc) && Pending(dig, s, op)
    ensures var (r, acc, res) := FinalizeSpec(dig, s.acc, s.res, op.epoch, op.result, op.nonces);
            && (r.Ok? <==> Matches(s.acc.records, op.epoch, op.result))
            && acc == s.acc
            && (r.Ok? ==> forall n | n in op.nonces :: n in res && res[n].status == R.Used)
            && (r.Err? ==> res == s.res)
  {
    MarkUses(s.res, op.epoch, op.nonces, op.result.after.Keys);
  }

  /** Recovery. Take any commit in any run, and let anything happen after the account file was replaced: the process
      stopping, other handles working. Repeating the call then succeeds, changing no balance and making all its nonces
      Used, if and only if no other epoch has meanwhile been committed to one of its members. */
  lemma RecoveryIff(dig: Digester, before: seq<Step>, step: Step, e: Bytes32, after: seq<Step>)
    requires CommitsAt(Run(dig, EMPTY, before), step, e)
    ensures var s := Run(dig, EMPTY, before);
            var op := Ph(s, step.h).op;
            var t := Run(dig, Exec(dig, s, step), after);
            var (r, acc, res) := FinalizeSpec(dig, t.acc, t.res, op.epoch, op.result, op.nonces);
            && (r.Ok? <==> !Touched(dig, Exec(dig, s, step), after, op.result.after.Keys))
            && acc == t.acc
            && (r.Ok? ==> forall n | n in op.nonces :: n in res && res[n].status == R.Used)
  {
    var s := Run(dig, EMPTY, before);
    var op := Ph(s, step.h).op;
    RunInv(dig, EMPTY, before);
    CommitIsPending(dig, s, step, e);
    StepInv(dig, s, step);
    RunPending(dig, Exec(dig, s, step), after, op);
    RunInv(dig, Exec(dig, s, step), after);
    RetryOutcome(dig, Run(dig, Exec(dig, s, step), after), op);
  }

  // ---- a call that runs alone is its specification ----

  function HoldPart(h: nat): seq<Step> { [LockAcc(h), Confirm(h), LockAcc(h)] }
  function CommitPart(h: nat): seq<Step> { [WriteAcc(h), UnlockAcc(h), WriteRes(h), Finish(h)] }

  /** The steps of one uninterrupted finalisation. When no nonce was Used, `Confirm` and the second `LockAcc` find
      nothing to do. */
  function FinalizeScript(h: nat, op: Op): seq<Step> {
    [Begin(h, op), Check(h)] + HoldPart(h) + [Compute(h)] + CommitPart(h)
  }

  /** A handle that has given up does nothing more. */
  lemma {:induction false} IdleFiles(dig: Digester, s: Sys, h: nat, steps: seq<Step>)
    requires Ph(s, h).Idle? && forall i | 0 <= i < |steps| :: steps[i].h == h && !steps[i].Begin?
    ensures Run(dig, s, steps).acc == s.acc && Run(dig, s, steps).res == s.res && Ph(Run(dig, s, steps), h).Idle?
    decreases |steps|
  {
    if steps != [] { IdleFiles(dig, Exec(dig, s, steps[0]), h, steps[1..]); }
  }

  lemma SoloCheck(dig: Digester, s: Sys, h: nat, op: Op)
    requires Ph(s, h).Idle? && s.resLock.None? && s.accLock.None? && op.Finalize?
    ensures var t := Run(dig, s, [Begin(h, op), Check(h)]);
            var checked := R.FinalizeCheck(s.res, op.epoch, op.nonces, op.result.after.Keys);
            && t.acc == s.acc && t.res == s.res && t.accLock.None?
            && Ph(t, h)
              == (if checked.Err? then Idle else if checked.value then Checked(op, true) else Confirmed(op, false))
  {
    var u := Exec(dig, s, Begin(h, op));
    assert [Begin(h, op), Check(h)][1..] == [Check(h)];
    assert Run(dig, u, [Check(h)]) == Exec(dig, u, Check(h));
    assert Ph(u, h) == ResHeld(op);
  }

  lemma SoloHold(dig: Digester, s: Sys, h: nat, op: Op, hadUsed: bool)
    requires op.Finalize? && s.accLock.None?
    requires Ph(s, h) == if hadUsed then Checked(op, true) else Confirmed(op, false)
    ensures var t := Run(dig, s, HoldPart(h));
            && t.acc == s.acc && t.res == s.res
            && Ph(t, h)
              == (if hadUsed && !MatchesApplied(dig, s.acc, op.epoch, op.result) then Idle else AccHeld(op, hadUsed))
  {
    var u := Exec(dig, s, LockAcc(h));
    var v := Exec(dig, u, Confirm(h));
    assert [LockAcc(h), Confirm(h), LockAcc(h)][1..] == [Confirm(h), LockAcc(h)];
    assert [Confirm(h), LockAcc(h)][1..] == [LockAcc(h)];
    assert Run(dig, v, [LockAcc(h)]) == Exec(dig, v, LockAcc(h));
    assert Run(dig, u, [Confirm(h), LockAcc(h)]) == Exec(dig, v, LockAcc(h));
  }

  lemma SoloCompute(dig: Digester, s: Sys, h: nat, op: Op, hadUsed: bool)
    requires op.Finalize? && Ph(s, h) == AccHeld(op, hadUsed)
    ensures var t := Run(dig, s, [Compute(h)]);
            var next := ApplySpec(dig, s.acc, op.epoch, op.result);
            && t.acc == s.acc && t.res == s.res
            && Ph(t, h) == (if next.Ok? then AccReady(op, hadUsed, next.value) else Idle)
  {
    assert Run(dig, s, [Compute(h)]) == Exec(dig, s, Compute(h));
  }

  lemma SoloWrite(dig: Digester, s: Sys, h: nat)
    requires Ph(s, h).AccReady? && Ph(s, h).op.Finalize?
    ensures var t := Run(dig, s, CommitPart(h));
            t.acc == Ph(s, h).accNext && t.res == R.Mark(s.res, Ph(s, h).op.nonces, R.Used)
  {
    var u := Exec(dig, s, WriteAcc(h));
    var v := Exec(dig, u, UnlockAcc(h));
    var w := Exec(dig, v, WriteRes(h));
    assert [WriteAcc(h), UnlockAcc(h), WriteRes(h), Finish(h)][1..] == [UnlockAcc(h), WriteRes(h), Finish(h)];
    assert [UnlockAcc(h), WriteRes(h), Finish(h)][1..] == [WriteRes(h), Finish(h)];
    assert [WriteRes(h), Finish(h)][1..] == [Finish(h)];
    assert Run(dig, w, [Finish(h)]) == Exec(dig, w, Finish(h));
    assert Run(dig, v, [WriteRes(h), Finish(h)]) == Exec(dig, w, Finish(h));
    assert Run(dig, u, [UnlockAcc(h), WriteRes(h), Finish(h)]) == Exec(dig, w, Finish(h));
  }

  lemma SoloCommit(dig: Digester, s: Sys, h: nat, op: Op, hadUsed: bool)
    requires op.Finalize? && Ph(s, h) == AccHeld(op, hadUsed)
    ensures var t := Run(dig, Run(dig, s, [Compute(h)]), CommitPart(h));
            var next := ApplySpec(dig, s.acc, op.epoch, op.result);
            && t.acc == (if next.Ok? then next.value else s.acc)
            && t.res == (if next.Ok? then R.Mark(s.res, op.nonces, R.Used) else s.res)
  {
    SoloCompute(dig, s, h, op, hadUsed);
    var t := Run(dig, s, [Compute(h)]);
    if Ph(t, h).Idle? { IdleFiles(dig, t, h, CommitPart(h)); } else { SoloWrite(dig, t, h); }
  }

  lemma RunSplit4(dig: Digester, s: Sys, a: seq<Step>, b: seq<Step>, c: seq<Step>, d: seq<Step>)
    ensures Run(dig, s, a + b + c + d) == Run(dig, Run(dig, Run(dig, Run(dig, s, a), b), c), d)
  {
    RunSplit(dig, s, a + b + c, d);
    RunSplit(dig, s, a + b, c);
    RunSplit(dig, s, a, b);
  }

  /** After the checks: lock, confirm, compute and write. */
  lemma SoloApply(dig: Digester, s: Sys, h: nat, op: Op, hadUsed: bool)
    requires op.Finalize? && s.accLock.None?
    requires Ph(s, h) == if hadUsed then Checked(op, true) else Confirmed(op, false)
    ensures var t := Run(dig, Run(dig, Run(dig, s, HoldPart(h)), [Compute(h)]), CommitPart(h));
            var next := ApplySpec(dig, s.acc, op.epoch, op.result);
            var done := next.Ok? && (hadUsed ==> MatchesApplied(dig, s.acc, op.epoch, op.result));
            && t.acc == (if done then next.value else s.acc)
            && t.res == (if done then R.Mark(s.res, op.nonces, R.Used) else s.res)
  {
    SoloHold(dig, s, h, op, hadUsed);
    var t := Run(dig, s, HoldPart(h));
    if Ph(t, h).Idle? { IdleCommit(dig, t, h); } else { SoloCommit(dig, t, h, op, hadUsed); }
  }

  lemma IdleCommit(dig: Digester, s: Sys, h: nat)
    requires Ph(s, h).Idle?
    ensures var t := Run(dig, Run(dig, s, [Compute(h)]), CommitPart(h)); t.acc == s.acc && t.res == s.res
  {
    IdleFiles(dig, s, h, [Compute(h)]);
    IdleFiles(dig, Run(dig, s, [Compute(h)]), h, CommitPart(h));
  }

  /** A finalisation that runs alone, step by step, leaves the files its specification says. */
  lemma SoloFinalize(dig: Digester, s: Sys, h: nat, op: Op)
    requires Ph(s, h).Idle? && s.resLock.None? && s.accLock.None? && op.Finalize?
    ensures var t := Run(dig, s, FinalizeScript(h, op));
            var (_, acc, res) := FinalizeSpec(dig, s.acc, s.res, op.epoch, op.result, op.nonces);
            t.acc == acc && t.res == res
  {
    var a := [Begin(h, op), Check(h)];
    RunSplit4(dig, s, a, HoldPart(h), [Compute(h)], CommitPart(h));
    var t := Run(dig, s, a);
    SoloCheck(dig, s, h, op);
    if Ph(t, h).Idle? {
      IdleFiles(dig, t, h, HoldPart(h));
      IdleCommit(dig, Run(dig, t, HoldPart(h)), h);
    } else {
      SoloApply(dig, t, h, op, Ph(t, h).hadUsed);
    }
  }
}
