/** The commit marker of an epoch: a digest that determines the committed result. */
module SettlementMark {
  import opened Bytes
  import opened Order
  import opened Ledger
  import opened Accounts
  import opened JournalRuns
  import opened Commits
  import Solvency
  import R = Reservations

  // "kageb-account-settlement-v1"
  const TAG: seq<byte> := [107, 97, 103, 101, 98, 45, 97, 99, 99, 111, 117, 110, 116, 45, 115, 101, 116, 116, 108, 101,
                           109, 101, 110, 116, 45, 118, 49]

  function Count(book: Book): seq<byte> { Le32(if |book| <= U32_MAX then |book| else U32_MAX) }

  function BookBytes(book: Book): seq<byte> { Count(book) + EncodeAll(Entries(book), PUT_BALANCE) }

  function Message(result: BatchResult): seq<byte> { TAG + BookBytes(result.before) + BookBytes(result.after) }

  function MarkOf(sha: Sha): Digester { result => sha(Message(result)) }

  method FeedBook(start: seq<byte>, book: Book) returns (fed: seq<byte>)
    ensures fed == start + BookBytes(book)
  {
    Assoc(start, Count(book), EncodeAll(Entries(book), PUT_BALANCE));
    fed := WriteAll(start + Count(book), Entries(book), PUT_BALANCE);
  }

  /** `settlement_digest`, feeding the hasher book by book. */
  method SettlementDigest(sha: Sha, result: BatchResult) returns (d: Bytes32)
    ensures d == sha(Message(result))
  {
    var fed := FeedBook(TAG, result.before);
    fed := FeedBook(fed, result.after);
    return sha(fed);
  }

  lemma EntriesPrefix(a: Book, b: Book, x: seq<byte>, y: seq<byte>)
    requires |a| == |b|
    requires EncodeAll(Entries(a), PUT_BALANCE) + x == EncodeAll(Entries(b), PUT_BALANCE) + y
    ensures a == b
  {
    forall k | k in a ensures |PUT_BALANCE((k, a[k]))| == 48 && GET_BALANCE(PUT_BALANCE((k, a[k]))) == Some((k, a[k])) {
      BalanceRoundTrip(k, a[k]);
    }
    forall k | k in b ensures |PUT_BALANCE((k, b[k]))| == 48 && GET_BALANCE(PUT_BALANCE((k, b[k]))) == Some((k, b[k])) {
      BalanceRoundTrip(k, b[k]);
    }
    ReadBack(a, 48, PUT_BALANCE, GET_BALANCE, map[], x);
    ReadBack(b, 48, PUT_BALANCE, GET_BALANCE, map[], y);
    EmptyPlus(a);
    EmptyPlus(b);
  }

  lemma Cut(c: seq<byte>, u: seq<byte>, x: seq<byte>, d: seq<byte>, v: seq<byte>, y: seq<byte>)
    requires c + u + x == d + v + y && |c| == |d|
    ensures c == d && u + x == v + y
  {
    var s := c + u + x;
    assert c == s[..|c|] && d == s[..|c|];
    assert u + x == s[|c|..] && v + y == s[|c|..];
  }

  /** A book's bytes can be told apart from what follows them. */
  lemma BookPrefix(a: Book, b: Book, x: seq<byte>, y: seq<byte>)
    requires |a| <= U32_MAX && |b| <= U32_MAX
    requires BookBytes(a) + x == BookBytes(b) + y
    ensures a == b && x == y
  {
    Cut(Count(a), EncodeAll(Entries(a), PUT_BALANCE), x, Count(b), EncodeAll(Entries(b), PUT_BALANCE), y);
    assert FromLe(Count(a)) == |a| && FromLe(Count(b)) == |b|;
    EntriesPrefix(a, b, x, y);
    assert x == (BookBytes(a) + x)[|BookBytes(a)|..];
    assert y == (BookBytes(b) + y)[|BookBytes(b)|..];
  }

  lemma BookInjective(a: Book, b: Book)
    requires |a| <= U32_MAX && |b| <= U32_MAX && BookBytes(a) == BookBytes(b)
    ensures a == b
  {
    assert BookBytes(a) + [] == BookBytes(b) + [];
    BookPrefix(a, b, [], []);
  }

  /** Both books can be recovered from the bytes that are hashed. */
  lemma MessageInjective(r: BatchResult, q: BatchResult)
    requires |r.before| <= U32_MAX && |r.after| <= U32_MAX && |q.before| <= U32_MAX && |q.after| <= U32_MAX
    requires Message(r) == Message(q)
    ensures r.before == q.before && r.after == q.after
  {
    Cut(TAG, BookBytes(r.before), BookBytes(r.after), TAG, BookBytes(q.before), BookBytes(q.after));
    BookPrefix(r.before, q.before, BookBytes(r.after), BookBytes(q.after));
    BookInjective(r.after, q.after);
  }

  lemma {:induction false} RepeatMonotone(a: nat, b: nat, m: int)
    requires a < b && m > 0
    ensures Repeat(a, m) < Repeat(b, m)
  {
    if a + 1 < b { RepeatMonotone(a, b - 1, m); }
  }

  lemma TimesMonotone(a: int, b: int, m: int)
    requires a < b && m > 0
    ensures Times(a, m) < Times(b, m)
  {
    if a >= 0 {
      RepeatMonotone(a, b, m);
    } else if b <= 0 {
      RepeatMonotone(-b, -a, m);
    } else {
      RepeatMonotone(0, -a, m);
      RepeatMonotone(0, b, m);
    }
  }

  lemma NettedShape(cfg: BatchConfig, r: BatchResult) returns (lots: int)
    requires Solvency.Netted(cfg, r)
    ensures -U32_MAX <= lots <= U32_MAX && r == Close(cfg, r.before, r.after, lots)
    ensures Times(lots, cfg.baseLot) == TotalBase(r.after) - TotalBase(r.before)
  {
    var a: seq<FundedOrder> :| |a| <= U32_MAX && NetSpec(cfg, r.before, a) == Ok(r);
    NettedResult(cfg, r.before, a);
    LotsBound(a);
    lots := Lots(a);
  }

  /** Some member of a netting trades: it gives one lot of one asset for one lot of the other. */
  lemma SomebodyTrades(cfg: BatchConfig, r: BatchResult) returns (p: Bytes32)
    requires ValidConfig(cfg) && Solvency.Netted(cfg, r)
    ensures p in r.before && p in r.after
    ensures || (r.after[p].base == r.before[p].base + cfg.baseLot
            && r.before[p].quote == r.after[p].quote + cfg.quotePerLot)
            || (r.before[p].base == r.after[p].base + cfg.baseLot
               && r.after[p].quote == r.before[p].quote + cfg.quotePerLot)
  {
    var orders: seq<FundedOrder> :| |orders| <= U32_MAX && NetSpec(cfg, r.before, orders) == Ok(r);
    NetSucceedsIff(cfg, r.before, orders);
    NettedFrame(cfg, r.before, orders);
    p := orders[0].participant;
    FindMember(orders, orders[0]);
    FillMove(cfg, r.before, orders[0]);
    assert r.after == Ledger.After(cfg, r.before, orders);
  }

  /** The two books of a netting determine the lot sizes it was netted at. */
  lemma BooksDetermineLots(c: BatchConfig, r: BatchResult, d: BatchConfig, q: BatchResult)
    requires ValidConfig(c) && Solvency.Netted(c, r) && ValidConfig(d) && Solvency.Netted(d, q)
    requires r.before == q.before && r.after == q.after
    ensures c == d
  {
    var p := SomebodyTrades(c, r);
    Solvency.NettedMovesOneLot(d, q);
    assert OneLotMove(d, q.before[p], q.after[p]);
  }

  /** The two books of a netting determine everything: its lot sizes, residual and vault delta. */
  lemma BooksDetermineResult(c: BatchConfig, r: BatchResult, d: BatchConfig, q: BatchResult)
    requires ValidConfig(c) && Solvency.Netted(c, r) && ValidConfig(d) && Solvency.Netted(d, q)
    requires r.before == q.before && r.after == q.after
    ensures c == d && r == q
  {
    BooksDetermineLots(c, r, d, q);
    var a := NettedShape(c, r);
    var b := NettedShape(c, q);
    if a < b { TimesMonotone(a, b, c.baseLot); } else if b < a { TimesMonotone(b, a, c.baseLot); }
  }

  lemma NettedSize(cfg: BatchConfig, r: BatchResult, records: Records)
    requires Solvency.Netted(cfg, r) && r.after.Keys <= records.Keys && |records| <= U32_MAX
    ensures |r.before| <= U32_MAX && |r.after| <= U32_MAX
  {
    Solvency.NettedMovesOneLot(cfg, r);
    SubsetSize(r.after.Keys, records.Keys);
    assert |r.before| == |r.before.Keys| && |r.after| == |r.after.Keys| && |records| == |records.Keys|;
  }

  lemma SameMark(sha: Sha, c: BatchConfig, r: BatchResult, d: BatchConfig, q: BatchResult, records: Records)
    requires ValidConfig(c) && Solvency.Netted(c, r) && ValidConfig(d) && Solvency.Netted(d, q)
    requires r.after.Keys <= records.Keys && q.after.Keys <= records.Keys && |records| <= U32_MAX
    requires Sound(sha, iset{Message(r), Message(q)}) && MarkOf(sha)(r) == MarkOf(sha)(q)
    ensures r == q
  {
    NettedSize(c, r, records);
    NettedSize(d, q, records);
    MessageInjective(r, q);
    BooksDetermineResult(c, r, d, q);
  }

  /** Finalising an epoch that carries a marker succeeds only with a result of that digest. */
  lemma FinalizeNeedsMark(dig: Digester, acc: AccountState, res: map<Bytes32, R.Record>, e: Bytes32,
                          result: BatchResult, nonces: seq<Bytes32>)
    requires e in acc.applied && FinalizeSpec(dig, acc, res, e, result, nonces).0.Ok?
    ensures acc.applied[e] == dig(result) && result.after.Keys <= acc.records.Keys
  {
  }

  /** Once an epoch's result is committed, whatever happens after, finalising that epoch succeeds only with that very
      result. */
  lemma CommittedResultIsFinal(sha: Sha, before: seq<Step>, step: Step, e: Bytes32, after: seq<Step>,
                               result: BatchResult, nonces: seq<Bytes32>)
    requires CommitsAt(Run(MarkOf(sha), EMPTY, before), step, e)
    requires var op := Ph(Run(MarkOf(sha), EMPTY, before), step.h).op;
             && ValidConfig(op.cfg) && Solvency.Netted(op.cfg, op.result)
             && (exists d :: ValidConfig(d) && Solvency.Netted(d, result))
             && Sound(sha, iset{Message(op.result), Message(result)})
    requires var t := Run(MarkOf(sha), Exec(MarkOf(sha), Run(MarkOf(sha), EMPTY, before), step), after);
             FinalizeSpec(MarkOf(sha), t.acc, t.res, e, result, nonces).0.Ok?
    ensures result == Ph(Run(MarkOf(sha), EMPTY, before), step.h).op.result
  {
    var dig := MarkOf(sha);
    var s := Run(dig, EMPTY, before);
    var op := Ph(s, step.h).op;
    var t := Run(dig, Exec(dig, s, step), after);
    FirstMarker(dig, before, step, e, after);
    FinalizeNeedsMark(dig, t.acc, t.res, e, result, nonces);
    var d :| ValidConfig(d) && Solvency.Netted(d, result);
    SameMark(sha, op.cfg, op.result, d, result, t.acc.records);
  }

  /** The marker a commit left is still there at any later time. */
  lemma FirstMarker(dig: Digester, before: seq<Step>, step: Step, e: Bytes32, after: seq<Step>)
    requires CommitsAt(Run(dig, EMPTY, before), step, e)
    ensures var s := Run(dig, EMPTY, before);
            var op := Ph(s, step.h).op;
            var t := Run(dig, Exec(dig, s, step), after);
            && e in t.acc.applied && t.acc.applied[e] == dig(op.result)
            && op.result.after.Keys <= t.acc.records.Keys && Accounts.Fits(t.acc)
  {
    var s := Run(dig, EMPTY, before);
    RunInv(dig, EMPTY, before);
    CommitIsPending(dig, s, step, e);
    StepInv(dig, s, step);
    RunPending(dig, Exec(dig, s, step), after, Ph(s, step.h).op);
    RunInv(dig, Exec(dig, s, step), after);
  }
}
