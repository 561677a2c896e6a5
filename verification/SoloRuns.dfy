/** Calls that run alone, one after the other, and two short runs of them that reach what callers may not expect. */
module SoloRuns {
  import opened Bytes
  import opened Sums
  import opened Ledger
  import opened Accounts
  import opened JournalRuns
  import opened Commits
  import opened Retries
  import R = Reservations
  import Solvency

  function RegisterScript(h: nat, op: Op): seq<Step> { [Begin(h, op), Compute(h), WriteAcc(h), UnlockAcc(h)] }
  function ReserveScript(h: nat, op: Op): seq<Step> { [Begin(h, op), Check(h), WriteRes(h), Finish(h)] }
  function ReleaseScript(h: nat, op: Op): seq<Step> {
    [Begin(h, op), Check(h), LockAcc(h)] + [Confirm(h), WriteRes(h), Finish(h)]
  }

  /** Nobody holds a lock and `h` is free for a call. */
  ghost predicate Free(s: Sys, h: nat) { Ph(s, h).Idle? && s.resLock.None? && s.accLock.None? }

  ghost predicate Alone(s: Sys, h: nat) {
    (s.resLock.None? || s.resLock == Some(h)) && (s.accLock.None? || s.accLock == Some(h))
  }

  // ---- unrolling short scripts ----

  lemma RunOne(dig: Digester, s: Sys, a: Step)
    ensures Run(dig, s, [a]) == Exec(dig, s, a)
  {
  }

  lemma RunThree(dig: Digester, s: Sys, a: Step, b: Step, c: Step)
    ensures Run(dig, s, [a, b, c]) == Exec(dig, Exec(dig, Exec(dig, s, a), b), c)
  {
    RunOne(dig, Exec(dig, Exec(dig, s, a), b), c);
    assert [a, b, c][1..] == [b, c] && [b, c][1..] == [c];
    assert Run(dig, Exec(dig, s, a), [b, c]) == Run(dig, Exec(dig, Exec(dig, s, a), b), [c]);
  }

  lemma RunFour(dig: Digester, s: Sys, a: Step, b: Step, c: Step, d: Step)
    ensures Run(dig, s, [a, b, c, d]) == Exec(dig, Exec(dig, Exec(dig, Exec(dig, s, a), b), c), d)
  {
    assert [a, b, c, d][1..] == [b, c, d];
    RunThree(dig, Exec(dig, s, a), b, c, d);
  }

  lemma SoloRegister(dig: Digester, s: Sys, h: nat, op: Op)
    requires Free(s, h) && op.Register?
    ensures var t, next := Run(dig, s, RegisterScript(h, op)), RegisterSpec(s.acc, op.p, op.key, op.balance);
            t.res == s.res && t.acc == if next.Ok? then next.value else s.acc
  {
    RunFour(dig, s, Begin(h, op), Compute(h), WriteAcc(h), UnlockAcc(h));
    var u := Exec(dig, s, Begin(h, op));
    assert Ph(u, h) == AccHeld(op, false);
  }

  lemma SoloReserve(dig: Digester, s: Sys, h: nat, op: Op)
    requires Free(s, h) && op.Reserve? && Constructible(op)
    ensures var t, next := Run(dig, s, ReserveScript(h, op)), R.ReserveSpec(s.res, op.rec, op.available);
            t.acc == s.acc && t.res == if next.Ok? then next.value else s.res
  {
    RunFour(dig, s, Begin(h, op), Check(h), WriteRes(h), Finish(h));
    var u := Exec(dig, s, Begin(h, op));
    assert Ph(u, h) == ResHeld(op);
  }

  lemma SoloReleaseChecked(dig: Digester, s: Sys, h: nat, op: Op)
    requires Free(s, h) && op.Release?
    ensures var t := Run(dig, s, [Begin(h, op), Check(h), LockAcc(h)]);
            && t.acc == s.acc && t.res == s.res
            && Ph(t, h) == if R.ReleaseCheck(s.res, op.epoch, op.nonces).Ok? then Confirming(op, false) else Idle
  {
    RunThree(dig, s, Begin(h, op), Check(h), LockAcc(h));
    var u := Exec(dig, s, Begin(h, op));
    assert Ph(u, h) == ResHeld(op);
  }

  lemma SoloReleaseWritten(dig: Digester, s: Sys, h: nat, op: Op)
    requires op.Release? && Ph(s, h) == Confirming(op, false)
    ensures var t := Run(dig, s, [Confirm(h), WriteRes(h), Finish(h)]);
            t.acc == s.acc && t.res == if op.epoch in s.acc.applied then s.res else R.Mark(s.res, op.nonces, R.Released)
  {
    RunThree(dig, s, Confirm(h), WriteRes(h), Finish(h));
  }

  /** A release that runs alone leaves the files its specification says. */
  lemma SoloRelease(dig: Digester, s: Sys, h: nat, op: Op)
    requires Free(s, h) && op.Release?
    ensures var t := Run(dig, s, ReleaseScript(h, op));
            t.acc == s.acc && t.res == ReleaseSpec(s.acc, s.res, op.epoch, op.nonces).1
  {
    var a, b := [Begin(h, op), Check(h), LockAcc(h)], [Confirm(h), WriteRes(h), Finish(h)];
    RunSplit(dig, s, a, b);
    SoloReleaseChecked(dig, s, h, op);
    var t := Run(dig, s, a);
    if Ph(t, h).Idle? { IdleFiles(dig, t, h, b); } else { SoloReleaseWritten(dig, t, h, op); }
  }

  // ---- one call after the other ----

  lemma {:induction false} StaysAlone(dig: Digester, s: Sys, h: nat, steps: seq<Step>)
    requires Alone(s, h) && forall i | 0 <= i < |steps| :: steps[i].h == h
    ensures Alone(Run(dig, s, steps), h)
    decreases |steps|
  {
    if steps != [] {
      StepLocksOwned(dig, s, steps[0]);
      StaysAlone(dig, Exec(dig, s, steps[0]), h, steps[1..]);
    }
  }

  lemma CrashFrees(dig: Digester, s: Sys, h: nat)
    requires Alone(s, h)
    ensures Free(Exec(dig, s, Crash(h)), h) && Exec(dig, s, Crash(h)).acc == s.acc
            && Exec(dig, s, Crash(h)).res == s.res
  {
  }

  /** After these steps the files are `acc` and `res`, and handle 0 is free. */
  ghost predicate Leads(dig: Digester, steps: seq<Step>, acc: AccountState, res: R.File) {
    Free(Run(dig, EMPTY, steps), 0) && Run(dig, EMPTY, steps).acc == acc && Run(dig, EMPTY, steps).res == res
  }

  ghost predicate OfHandle(script: seq<Step>, h: nat) { forall i | 0 <= i < |script| :: script[i].h == h }

  /** The steps of one more call, after which the process ends. */
  lemma CallEnds(dig: Digester, before: seq<Step>, script: seq<Step>) returns (steps: seq<Step>)
    requires Free(Run(dig, EMPTY, before), 0) && OfHandle(script, 0)
    ensures var t := Run(dig, Run(dig, EMPTY, before), script); Leads(dig, steps, t.acc, t.res)
  {
    var s := Run(dig, EMPTY, before);
    var t := Run(dig, s, script);
    steps := before + script + [Crash(0)];
    RunSplit(dig, EMPTY, before + script, [Crash(0)]);
    RunSplit(dig, EMPTY, before, script);
    RunOne(dig, t, Crash(0));
    StaysAlone(dig, s, 0, script);
    CrashFrees(dig, t, 0);
  }

  lemma ThenRegister(dig: Digester, before: seq<Step>, acc: AccountState, res: R.File, p: Bytes32, key: Bytes32,
                     b: Balance)
    returns (steps: seq<Step>)
    requires Leads(dig, before, acc, res) && RegisterSpec(acc, p, key, b).Ok?
    ensures Leads(dig, steps, RegisterSpec(acc, p, key, b).value, res)
  {
    var op := Register(p, key, b);
    SoloRegister(dig, Run(dig, EMPTY, before), 0, op);
    steps := CallEnds(dig, before, RegisterScript(0, op));
  }

  lemma ThenReserve(dig: Digester, before: seq<Step>, acc: AccountState, res: R.File, rec: R.Record, available: Balance)
    returns (steps: seq<Step>)
    requires Leads(dig, before, acc, res) && Constructible(Reserve(rec, available))
             && R.ReserveSpec(res, rec, available).Ok?
    ensures Leads(dig, steps, acc, R.ReserveSpec(res, rec, available).value)
  {
    var op := Reserve(rec, available);
    SoloReserve(dig, Run(dig, EMPTY, before), 0, op);
    steps := CallEnds(dig, before, ReserveScript(0, op));
  }

  lemma ThenRelease(dig: Digester, before: seq<Step>, acc: AccountState, res: R.File, e: Bytes32, nonces: seq<Bytes32>)
    returns (steps: seq<Step>)
    requires Leads(dig, before, acc, res)
    ensures Leads(dig, steps, acc, ReleaseSpec(acc, res, e, nonces).1)
  {
    var op := Release(e, nonces);
    SoloRelease(dig, Run(dig, EMPTY, before), 0, op);
    steps := CallEnds(dig, before, ReleaseScript(0, op));
  }

  lemma ThenFinalize(dig: Digester, before: seq<Step>, acc: AccountState, res: R.File, e: Bytes32, cfg: BatchConfig,
                     r: BatchResult, nonces: seq<Bytes32>)
    returns (steps: seq<Step>)
    requires Leads(dig, before, acc, res)
    ensures var after := FinalizeSpec(dig, acc, res, e, r, nonces); Leads(dig, steps, after.1, after.2)
  {
    var op := Finalize(e, cfg, r, nonces);
    SoloFinalize(dig, Run(dig, EMPTY, before), 0, op);
    steps := CallEnds(dig, before, FinalizeScript(0, op));
  }

  // ---- a participant with two reservations for one epoch ----

  function Rec(p: Bytes32, e: Bytes32, n: Bytes32): R.Record { R.Record(n, e, p, 1, 1, R.Reserved) }

  /** One lot bought out of a deposit of four of each. */
  function Bought(p: Bytes32): BatchResult {
    BatchResult(map[p := Balance(4, 4)], map[p := Balance(5, 3)], BuyLots(1), VaultDelta(1, -1))
  }

  /** It is what netting a single buy order of one atom for one atom gives. */
  lemma BoughtIsNetted(p: Bytes32)
    ensures Solvency.Netted(BatchConfig(1, 1), Bought(p))
  {
    var orders, cfg := [FundedOrder(p, Buy, 1)], BatchConfig(1, 1);
    var book := Bought(p).before;
    NetSucceedsIff(cfg, book, orders);
    assert OnSide(orders, Buy) == {orders[0]} && OnSide(orders, Sell) == {};
    assert After(cfg, book, orders) == Bought(p).after;
    TimesIsProduct(1, 1);
    assert NetSpec(cfg, book, orders) == Ok(Bought(p));
  }

  function Deposited(p: Bytes32, key: Bytes32): AccountState {
    AccountState(map[p := AccountRecord(p, key, Balance(4, 4), ZERO)], map[])
  }

  function Two(p: Bytes32, e: Bytes32, n: Bytes32, m: Bytes32): R.File { map[n := Rec(p, e, n), m := Rec(p, e, m)] }

  ghost predicate Names(p: Bytes32, e: Bytes32, n: Bytes32, m: Bytes32) {
    p != ZERO && e != ZERO && n != ZERO && m != ZERO && n != m
  }

  lemma FirstReserve(p: Bytes32, e: Bytes32, n: Bytes32)
    ensures R.ReserveSpec(map[], Rec(p, e, n), Balance(4, 4)) == Ok(map[n := Rec(p, e, n)])
  {
  }

  lemma SecondReserve(p: Bytes32, e: Bytes32, n: Bytes32, m: Bytes32)
    requires n != m
    ensures R.ReserveSpec(map[n := Rec(p, e, n)], Rec(p, e, m), Balance(4, 4)) == Ok(Two(p, e, n, m))
  {
    var file: R.File := map[n := Rec(p, e, n)];
    SumSplit(file.Keys, R.BaseHeld(file, p), n);
    SumSplit(file.Keys, R.QuoteHeld(file, p), n);
    assert file.Keys - {n} == {};
    assert file[m := Rec(p, e, m)] == Two(p, e, n, m);
  }

  lemma FirstRegister(p: Bytes32, key: Bytes32)
    requires p != ZERO
    ensures RegisterSpec(EMPTY.acc, p, key, Balance(4, 4)) == Ok(Deposited(p, key))
  {
  }

  /** Register, reserve, reserve. */
  lemma Prepared(dig: Digester, p: Bytes32, key: Bytes32, e: Bytes32, n: Bytes32, m: Bytes32) returns (steps: seq<Step>)
    requires Names(p, e, n, m)
    ensures Leads(dig, steps, Deposited(p, key), Two(p, e, n, m))
  {
    FirstRegister(p, key);
    FirstReserve(p, e, n);
    SecondReserve(p, e, n, m);
    steps := ThenRegister(dig, [], EMPTY.acc, EMPTY.res, p, key, Balance(4, 4));
    steps := ThenReserve(dig, steps, Deposited(p, key), map[], Rec(p, e, n), Balance(4, 4));
    steps := ThenReserve(dig, steps, Deposited(p, key), map[n := Rec(p, e, n)], Rec(p, e, m), Balance(4, 4));
  }

  /** Finalising one nonce of `p`, Reserved in the file, is accepted. */
  lemma OneNonceAccepted(file: R.File, p: Bytes32, e: Bytes32, n: Bytes32)
    requires n in file && file[n].epoch == e && file[n].participant == p && file[n].status == R.Reserved
    ensures R.FinalizeCheck(file, e, [n], {p}) == Ok(false)
  {
    R.CheckMeaning(file, e, [n], R.Released);
    assert R.Participants(file, [n]) == {p};
  }

  function Settled(dig: Digester, p: Bytes32, key: Bytes32, e: Bytes32): AccountState {
    AccountState(map[p := AccountRecord(p, key, Balance(5, 3), e)], map[e := dig(Bought(p))])
  }

  lemma FirstApply(dig: Digester, p: Bytes32, key: Bytes32, e: Bytes32)
    requires e != ZERO
    ensures ApplySpec(dig, Deposited(p, key), e, Bought(p)) == Ok(Settled(dig, p, key, e))
  {
    assert Settle(Deposited(p, key).records, e, Bought(p)) == Settled(dig, p, key, e).records;
  }

  lemma SecondApply(dig: Digester, p: Bytes32, key: Bytes32, e: Bytes32)
    requires e != ZERO
    ensures ApplySpec(dig, Settled(dig, p, key, e), e, Bought(p)) == Ok(Settled(dig, p, key, e))
  {
  }

  /** Finalising with one Reserved nonce of `p`, the first time or again. */
  lemma FinalizeOne(dig: Digester, acc: AccountState, p: Bytes32, key: Bytes32, e: Bytes32, file: R.File, n: Bytes32)
    requires e != ZERO && (acc == Deposited(p, key) || acc == Settled(dig, p, key, e))
    requires n in file && file[n].epoch == e && file[n].participant == p && file[n].status == R.Reserved
    ensures FinalizeSpec(dig, acc, file, e, Bought(p), [n])
            == (Ok(()), Settled(dig, p, key, e), R.Mark(file, [n], R.Used))
  {
    OneNonceAccepted(file, p, e, n);
    assert Bought(p).after.Keys == {p};
    FirstApply(dig, p, key, e);
    SecondApply(dig, p, key, e);
  }

  lemma ReleaseOne(acc: AccountState, p: Bytes32, e: Bytes32, n: Bytes32, m: Bytes32)
    requires e !in acc.applied
    ensures ReleaseSpec(acc, Two(p, e, n, m), e, [m]).1 == R.Mark(Two(p, e, n, m), [m], R.Released)
  {
    R.CheckMeaning(Two(p, e, n, m), e, [m], R.Used);
  }

  /** Releasing one reservation of an epoch and then finalising the other reaches an epoch with both fates. */
  lemma BothWaysReached(dig: Digester, p: Bytes32, key: Bytes32, e: Bytes32, n: Bytes32, m: Bytes32)
    returns (steps: seq<Step>)
    requires Names(p, e, n, m)
    ensures BothWays(Run(dig, EMPTY, steps))
  {
    var file := R.Mark(Two(p, e, n, m), [m], R.Released);
    steps := Prepared(dig, p, key, e, n, m);
    ReleaseOne(Deposited(p, key), p, e, n, m);
    steps := ThenRelease(dig, steps, Deposited(p, key), Two(p, e, n, m), e, [m]);
    FinalizeOne(dig, Deposited(p, key), p, key, e, file, n);
    steps := ThenFinalize(dig, steps, Deposited(p, key), file, e, BatchConfig(1, 1), Bought(p), [n]);
    var s := Run(dig, EMPTY, steps);
    assert IsReleased(s.res, m) && s.res[m].epoch in s.acc.applied;
  }

  /** Finalising an epoch with one reservation of a participant and again with the other leaves both Used. */
  lemma TwiceUsedReached(dig: Digester, p: Bytes32, key: Bytes32, e: Bytes32, n: Bytes32, m: Bytes32)
    returns (steps: seq<Step>)
    requires Names(p, e, n, m)
    ensures TwiceUsed(Run(dig, EMPTY, steps).res, e, p)
  {
    var file := R.Mark(Two(p, e, n, m), [n], R.Used);
    steps := Prepared(dig, p, key, e, n, m);
    FinalizeOne(dig, Deposited(p, key), p, key, e, Two(p, e, n, m), n);
    steps := ThenFinalize(dig, steps, Deposited(p, key), Two(p, e, n, m), e, BatchConfig(1, 1), Bought(p), [n]);
    FinalizeOne(dig, Settled(dig, p, key, e), p, key, e, file, m);
    steps := ThenFinalize(dig, steps, Settled(dig, p, key, e), file, e, BatchConfig(1, 1), Bought(p), [m]);
    MarkAnother(file, [m], m, n, e, p);
  }
}
