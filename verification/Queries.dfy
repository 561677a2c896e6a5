/** What a query answers: over every run, the outcome of the last commit that named the participant. */
module Queries {
  import opened Bytes
  import opened Ledger
  import opened Accounts
  import opened JournalRuns
  import opened Commits

  /** The state in which step `i` of a run is taken. */
  ghost function Seen(dig: Digester, steps: seq<Step>, i: nat): Sys
    requires i <= |steps|
  {
    Run(dig, EMPTY, steps[..i])
  }

  /** Step `i` writes the registration of `p` with trading key `key`. */
  ghost predicate RegistersAt(dig: Digester, steps: seq<Step>, i: nat, p: Bytes32, key: Bytes32)
    requires i < |steps|
  {
    Registers(Seen(dig, steps, i), steps[i], p, key)
  }

  ghost predicate Registers(s: Sys, step: Step, p: Bytes32, key: Bytes32) {
    step.WriteAcc? && Ph(s, step.h).AccReady? && Ph(s, step.h).op.Register? && Ph(s, step.h).op.p == p
      && Ph(s, step.h).op.key == key
  }

  /** Step `i` is the first commit of an epoch whose result names `p`. */
  ghost predicate NamesAt(dig: Digester, steps: seq<Step>, i: nat, p: Bytes32)
    requires i < |steps|
  {
    CommitTouches(Seen(dig, steps, i), steps[i], {p})
  }

  ghost predicate LastNaming(dig: Digester, steps: seq<Step>, i: nat, p: Bytes32) {
    i < |steps| && NamesAt(dig, steps, i, p) && forall j | i < j < |steps| :: !NamesAt(dig, steps, j, p)
  }

  /** The epoch committed by step `i`, and the balance its result gives `p`. */
  ghost function Outcome(dig: Digester, steps: seq<Step>, i: nat, p: Bytes32): AccountResult
    requires i < |steps| && NamesAt(dig, steps, i, p)
  {
    var op := Ph(Seen(dig, steps, i), steps[i].h).op;
    AccountResult(op.epoch, op.result.after[p])
  }

  // ---- one step ----

  /** A commit that names `p` overwrites its record. */
  lemma NamingWrites(dig: Digester, s: Sys, step: Step, p: Bytes32)
    requires Inv(dig, s) && CommitTouches(s, step, {p})
    ensures var op := Ph(s, step.h).op;
            && op.epoch != ZERO && p in s.acc.records && p in op.result.after && p in Exec(dig, s, step).acc.records
            && Exec(dig, s, step).acc.records[p]
              == s.acc.records[p].(balance := op.result.after[p], lastEpoch := op.epoch)
  {
    assert Knows(dig, s, Ph(s, step.h));
  }

  /** Any other step leaves it. */
  lemma OthersLeave(dig: Digester, s: Sys, step: Step, p: Bytes32)
    requires Inv(dig, s) && !CommitTouches(s, step, {p}) && p in s.acc.records
    ensures p in Exec(dig, s, step).acc.records && Exec(dig, s, step).acc.records[p] == s.acc.records[p]
  {
    if p !in Exec(dig, s, step).acc.records || Exec(dig, s, step).acc.records[p] != s.acc.records[p] {
      RecordChangeIsCommit(dig, s, step, p);
    }
  }

  /** A record appears only by a registration, pending, under the key registered. */
  lemma AppearsRegistered(dig: Digester, s: Sys, step: Step, p: Bytes32)
    requires Inv(dig, s) && p !in s.acc.records && p in Exec(dig, s, step).acc.records
    ensures Registers(s, step, p, Exec(dig, s, step).acc.records[p].tradingKey)
    ensures Exec(dig, s, step).acc.records[p].lastEpoch == ZERO
  {
    AccMoves(dig, s, step);
  }

  lemma RegistrationAppears(dig: Digester, s: Sys, step: Step, p: Bytes32, key: Bytes32)
    requires Inv(dig, s) && Registers(s, step, p, key)
    ensures p !in s.acc.records && p in Exec(dig, s, step).acc.records
            && Exec(dig, s, step).acc.records[p].tradingKey == key
  {
    assert Knows(dig, s, Ph(s, step.h));
  }

  // ---- every run ----

  /** The record of `p` after `steps` tells its registration and its last commit. */
  ghost predicate Told(dig: Digester, steps: seq<Step>, p: Bytes32) {
    var records := Run(dig, EMPTY, steps).acc.records;
    && (p in records ==> exists i | 0 <= i < |steps| :: RegistersAt(dig, steps, i, p, records[p].tradingKey))
    && (forall i, key | 0 <= i < |steps| && RegistersAt(dig, steps, i, p, key) ::
        p in records && records[p].tradingKey == key)
    && (p in records && records[p].lastEpoch != ZERO ==>
          exists i :: LastNaming(dig, steps, i, p)
                      && Outcome(dig, steps, i, p) == AccountResult(records[p].lastEpoch, records[p].balance))
    && (p !in records || records[p].lastEpoch == ZERO ==> forall i | 0 <= i < |steps| :: !NamesAt(dig, steps, i, p))
  }

  lemma SamePast(dig: Digester, past: seq<Step>, step: Step, i: nat)
    requires i <= |past|
    ensures Seen(dig, past + [step], i) == Seen(dig, past, i) && (i < |past| ==> (past + [step])[i] == past[i])
    ensures Run(dig, EMPTY, past + [step]) == Exec(dig, Run(dig, EMPTY, past), step)
    ensures Seen(dig, past, |past|) == Run(dig, EMPTY, past) && (past + [step])[|past|] == step
  {
    assert (past + [step])[..i] == past[..i] && past[..|past|] == past;
    RunSplit(dig, EMPTY, past, [step]);
    assert Run(dig, Run(dig, EMPTY, past), [step]) == Exec(dig, Run(dig, EMPTY, past), step);
  }

  lemma SameEvents(dig: Digester, past: seq<Step>, step: Step, p: Bytes32)
    ensures forall i, key | 0 <= i < |past|
            :: RegistersAt(dig, past + [step], i, p, key) == RegistersAt(dig, past, i, p, key)
    ensures forall i | 0 <= i < |past| :: NamesAt(dig, past + [step], i, p) == NamesAt(dig, past, i, p)
    ensures forall i | 0 <= i < |past|
            && NamesAt(dig, past, i, p) :: Outcome(dig, past + [step], i, p) == Outcome(dig, past, i, p)
    ensures forall key
            :: RegistersAt(dig, past + [step], |past|, p, key) == Registers(Run(dig, EMPTY, past), step, p, key)
    ensures NamesAt(dig, past + [step], |past|, p) == CommitTouches(Run(dig, EMPTY, past), step, {p})
  {
    SamePast(dig, past, step, |past|);
    forall i | 0 <= i < |past| { SamePast(dig, past, step, i); }
  }

  lemma KeyTold(dig: Digester, past: seq<Step>, step: Step, p: Bytes32)
    requires Told(dig, past, p) && Inv(dig, Run(dig, EMPTY, past))
    ensures var steps := past + [step];
            var records := Run(dig, EMPTY, steps).acc.records;
            && (p in records ==> exists i | 0 <= i < |steps| :: RegistersAt(dig, steps, i, p, records[p].tradingKey))
            && (forall i, key | 0 <= i < |steps| && RegistersAt(dig, steps, i, p, key) ::
                p in records && records[p].tradingKey == key)
  {
    var s, steps := Run(dig, EMPTY, past), past + [step];
    SamePast(dig, past, step, |past|);
    SameEvents(dig, past, step, p);
    KeyStays(dig, s, step, p);
    var records := Run(dig, EMPTY, steps).acc.records;
    if p in records {
      if p in s.acc.records {
        var i :| 0 <= i < |past| && RegistersAt(dig, past, i, p, s.acc.records[p].tradingKey);
        assert RegistersAt(dig, steps, i, p, records[p].tradingKey);
      } else {
        AppearsRegistered(dig, s, step, p);
        assert RegistersAt(dig, steps, |past|, p, records[p].tradingKey);
      }
    }
    forall i, key | 0 <= i < |steps| && RegistersAt(dig, steps, i, p, key) ensures p in records
        && records[p].tradingKey == key {
      if i == |past| { RegistrationAppears(dig, s, step, p, key); } else { assert RegistersAt(dig, past, i, p, key); }
    }
  }

  lemma KeyStays(dig: Digester, s: Sys, step: Step, p: Bytes32)
    requires Inv(dig, s)
    ensures p in s.acc.records
            ==> p in Exec(dig, s, step).acc.records
                && Exec(dig, s, step).acc.records[p].tradingKey == s.acc.records[p].tradingKey
  {
    if p in s.acc.records {
      if CommitTouches(s, step, {p}) { NamingWrites(dig, s, step, p); } else { OthersLeave(dig, s, step, p); }
    }
  }

  lemma CommitTold(dig: Digester, past: seq<Step>, step: Step, p: Bytes32)
    requires Told(dig, past, p) && Inv(dig, Run(dig, EMPTY, past))
    ensures var steps := past + [step];
            var records := Run(dig, EMPTY, steps).acc.records;
            && (p in records && records[p].lastEpoch != ZERO ==>
                  exists i :: LastNaming(dig, steps, i, p)
                              && Outcome(dig, steps, i, p) == AccountResult(records[p].lastEpoch, records[p].balance))
            && (p !in records || records[p].lastEpoch == ZERO
               ==> forall i | 0 <= i < |steps| :: !NamesAt(dig, steps, i, p))
  {
    var s, steps := Run(dig, EMPTY, past), past + [step];
    SamePast(dig, past, step, |past|);
    SameEvents(dig, past, step, p);
    var records := Run(dig, EMPTY, steps).acc.records;
    if CommitTouches(s, step, {p}) {
      NamingWrites(dig, s, step, p);
      assert LastNaming(dig, steps, |past|, p);
    } else if p in s.acc.records {
      OthersLeave(dig, s, step, p);
      if s.acc.records[p].lastEpoch != ZERO {
        var i :| LastNaming(dig, past, i, p)
          && Outcome(dig, past, i, p) == AccountResult(s.acc.records[p].lastEpoch, s.acc.records[p].balance);
        assert LastNaming(dig, steps, i, p);
      }
    } else if p in records {
      AppearsRegistered(dig, s, step, p);
    }
  }

  lemma {:induction false} TellAll(dig: Digester, steps: seq<Step>, p: Bytes32)
    ensures Told(dig, steps, p)
    decreases |steps|
  {
    if steps != [] {
      var past, step := steps[..|steps| - 1], steps[|steps| - 1];
      assert steps == past + [step];
      TellAll(dig, past, p);
      RunInv(dig, EMPTY, past);
      KeyTold(dig, past, step, p);
      CommitTold(dig, past, step, p);
    }
  }

  lemma OneLast(dig: Digester, steps: seq<Step>, p: Bytes32, i: nat, j: nat)
    requires LastNaming(dig, steps, i, p) && LastNaming(dig, steps, j, p)
    ensures i == j
  {
  }

  ghost predicate EverRegistered(dig: Digester, steps: seq<Step>, p: Bytes32, key: Bytes32) {
    exists i | 0 <= i < |steps| :: RegistersAt(dig, steps, i, p, key)
  }

  /** After any run a query of `p` under `key` is answered if and only if `p` was registered under exactly that key and
      some commit named it; and the answer is the epoch and the balance of the last such commit. */
  lemma QueryAnswers(dig: Digester, steps: seq<Step>, p: Bytes32, key: Bytes32)
    ensures var answer := QuerySpec(Run(dig, EMPTY, steps).acc, p, key);
            && (answer.Ok? <==> EverRegistered(dig, steps, p, key) && exists i :: LastNaming(dig, steps, i, p))
            && (answer.Ok? ==> forall i | LastNaming(dig, steps, i, p) :: answer.value == Outcome(dig, steps, i, p))
  {
    TellAll(dig, steps, p);
    var st := Run(dig, EMPTY, steps).acc;
    if p in st.records && st.records[p].lastEpoch != ZERO {
      var i :| LastNaming(dig, steps, i, p)
        && Outcome(dig, steps, i, p) == AccountResult(st.records[p].lastEpoch, st.records[p].balance);
      forall j | LastNaming(dig, steps, j, p) ensures j == i { OneLast(dig, steps, p, i, j); }
    }
  }

  /** The three refusals: never registered, registered under another key, not yet named by a commit. */
  lemma QueryRefusals(dig: Digester, steps: seq<Step>, p: Bytes32, key: Bytes32)
    ensures var answer := QuerySpec(Run(dig, EMPTY, steps).acc, p, key);
            && (answer == Err(UnknownAccount) <==> forall k :: !EverRegistered(dig, steps, p, k))
            && (answer == Err(Unauthorized) <==> exists k | k != key :: EverRegistered(dig, steps, p, k))
            && (answer == Err(ResultPending)
               <==> EverRegistered(dig, steps, p, key) && forall i | 0 <= i < |steps| :: !NamesAt(dig, steps, i, p))
  {
    TellAll(dig, steps, p);
    var st := Run(dig, EMPTY, steps).acc;
    if p in st.records {
      assert EverRegistered(dig, steps, p, st.records[p].tradingKey);
      if st.records[p].lastEpoch != ZERO {
        var i :| LastNaming(dig, steps, i, p);
        assert NamesAt(dig, steps, i, p);
      }
    }
  }
}
