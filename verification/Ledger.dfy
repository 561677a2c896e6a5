/** The netting ledger: fixed-size orders are filled against per-participant balances and only
    the difference between buys and sells leaves the pool. */
module Ledger {
  import opened Bytes
  import Order
  import opened Sums

  datatype Side = Buy | Sell
  datatype BatchConfig = BatchConfig(baseLot: u64, quotePerLot: u64)
  datatype Balance = Balance(base: u64, quote: u64)
  type Book = map<Bytes32, Balance>
  datatype FundedOrder = FundedOrder(participant: Bytes32, side: Side, limit: u64)
  datatype Residual = NoResidual | BuyLots(lots: u32) | SellLots(lots: u32)
  datatype VaultDelta = VaultDelta(base: int, quote: int)
  datatype BatchResult = BatchResult(before: Book, after: Book, residual: Residual, delta: VaultDelta)

  /** One participant's balance as the 48 bytes that digests and roots are taken over. */
  const PUT_BALANCE: ((Bytes32, Balance)) -> seq<byte> := (e: (Bytes32, Balance)) =>
      Raw(e.0) + Le64(e.1.base) + Le64(e.1.quote)

  function ReadBalance(s: seq<byte>): Option<(Bytes32, Balance)> {
    if |s| != 48 then None
    else Some((ReadBytes32(s[..32]), Balance(ReadU64(s[32..40]), ReadU64(s[40..48]))))
  }

  const GET_BALANCE: seq<byte> -> Option<(Bytes32, Balance)> := s => ReadBalance(s)

  lemma BalanceRoundTrip(p: Bytes32, b: Balance)
    ensures |PUT_BALANCE((p, b))| == 48 && GET_BALANCE(PUT_BALANCE((p, b))) == Some((p, b))
  {
    var s := PUT_BALANCE((p, b));
    assert s[..32] == Raw(p) && s[32..40] == Le64(b.base) && s[40..48] == Le64(b.quote);
  }

  datatype LedgerError =
    | InvalidConfig
    | InvalidLimit
    | EmptyBatch
    | UnknownParticipant(p: Bytes32)
    | DuplicateParticipant(p: Bytes32)
    | InsufficientReservation(p: Bytes32)
    | LimitViolated(p: Bytes32)
    | ArithmeticOverflow
    | ConservationFailed

  ghost predicate ValidConfig(cfg: BatchConfig) {
    cfg.baseLot > 0 && cfg.quotePerLot > 0
  }

  function NewConfig(baseLot: u64, quotePerLot: u64): Result<BatchConfig, LedgerError> {
    if baseLot == 0 || quotePerLot == 0 then Err(InvalidConfig) else Ok(BatchConfig(baseLot, quotePerLot))
  }

  // ---- specification: what one participant's order does to that participant ----

  /** One fill against the participant's opening balance. */
  function FillOrder(cfg: BatchConfig, book: Book, o: FundedOrder): Result<Balance, LedgerError> {
    if o.participant !in book then Err(UnknownParticipant(o.participant))
    else
      var b := book[o.participant];
      if b.base < cfg.baseLot || b.quote < cfg.quotePerLot then Err(InsufficientReservation(o.participant))
      else
        match o.side
        case Buy =>
          if cfg.quotePerLot > o.limit then Err(LimitViolated(o.participant))
          else if b.base + cfg.baseLot > U64_MAX then Err(ArithmeticOverflow)
          else Ok(Balance(b.base + cfg.baseLot, b.quote - cfg.quotePerLot))
        case Sell =>
          if cfg.quotePerLot < o.limit then Err(LimitViolated(o.participant))
          else if b.quote + cfg.quotePerLot > U64_MAX then Err(ArithmeticOverflow)
          else Ok(Balance(b.base - cfg.baseLot, b.quote + cfg.quotePerLot))
  }

  /** The order of `p`, if `p` trades. */
  function Find(orders: seq<FundedOrder>, p: Bytes32): (r: Option<FundedOrder>)
    ensures r.Some? ==> r.value in orders && r.value.participant == p
    ensures r.None? ==> forall o | o in orders :: o.participant != p
  {
    if orders == [] then None
    else if orders[0].participant == p then Some(orders[0])
    else Find(orders[1..], p)
  }

  ghost predicate Distinct(orders: seq<FundedOrder>) {
    forall i, j | 0 <= i < j < |orders| :: orders[i].participant != orders[j].participant
  }

  /** Every order can be filled on its own. */
  ghost predicate Acceptable(cfg: BatchConfig, before: Book, orders: seq<FundedOrder>) {
    && orders != []
    && Distinct(orders)
    && forall o | o in orders :: FillOrder(cfg, before, o).Ok?
  }

  /** Closing balances, participant by participant. */
  function After(cfg: BatchConfig, before: Book, orders: seq<FundedOrder>): Book {
    map p | p in before ::
      var o := Find(orders, p);
      if o.None? then before[p]
      else
        var filled := FillOrder(cfg, before, o.value);
        if filled.Ok? then filled.value else before[p]
  }

  function OnSide(orders: seq<FundedOrder>, side: Side): set<FundedOrder> {
    set o | o in orders && o.side == side
  }

  function Lots(orders: seq<FundedOrder>): int {
    |OnSide(orders, Buy)| - |OnSide(orders, Sell)|
  }

  function ResidualOf(lots: int): Residual
    requires -U32_MAX <= lots <= U32_MAX
  {
    if lots > 0 then BuyLots(lots) else if lots < 0 then SellLots(-lots) else NoResidual
  }

  /** Signed lots: what the pool buys from the venue. */
  function SignedLots(r: Residual): int {
    if r.BuyLots? then r.lots else if r.SellLots? then -(r.lots as int) else 0
  }

  /** A residual as the side byte and lot count of the settlement payload. */
  function ResidualSide(r: Residual): byte { if r.NoResidual? then 0 else if r.BuyLots? then 1 else 2 }
  function ResidualLots(r: Residual): u32 { if r.NoResidual? then 0 else r.lots }

  /** The result for closing balances `after` and `lots` net lots bought. */
  function Close(cfg: BatchConfig, before: Book, after: Book, lots: int): BatchResult
    requires -U32_MAX <= lots <= U32_MAX
  {
    BatchResult(before, after, ResidualOf(lots), VaultDelta(Times(lots, cfg.baseLot), -Times(lots, cfg.quotePerLot)))
  }

  function NetResult(cfg: BatchConfig, before: Book, orders: seq<FundedOrder>): BatchResult
    requires -U32_MAX <= Lots(orders) <= U32_MAX
  {
    Close(cfg, before, After(cfg, before, orders), Lots(orders))
  }

  // ---- specification of the error reported ----

  function FirstDuplicate(orders: seq<FundedOrder>, i: nat): Option<Bytes32>
    requires i <= |orders|
    decreases |orders| - i
  {
    if i == |orders| then None
    else if Find(orders[..i], orders[i].participant).Some? then Some(orders[i].participant)
    else FirstDuplicate(orders, i + 1)
  }

  function FirstFailure(cfg: BatchConfig, before: Book, orders: seq<FundedOrder>, i: nat): Option<LedgerError>
    requires i <= |orders|
    decreases |orders| - i
  {
    if i == |orders| then None
    else
      var filled := FillOrder(cfg, before, orders[i]);
      if filled.Err? then Some(filled.error) else FirstFailure(cfg, before, orders, i + 1)
  }

  function NetSpec(cfg: BatchConfig, before: Book, orders: seq<FundedOrder>): Result<BatchResult, LedgerError>
    requires |orders| <= U32_MAX
  {
    LotsBound(orders);
    if orders == [] then Err(EmptyBatch)
    else
      var d := FirstDuplicate(orders, 0);
      if d.Some? then Err(DuplicateParticipant(d.value))
      else
        var f := FirstFailure(cfg, before, orders, 0);
        if f.Some? then Err(f.value) else Ok(NetResult(cfg, before, orders))
  }

  lemma {:induction false} OnSideBound(orders: seq<FundedOrder>, side: Side)
    ensures |OnSide(orders, side)| <= |orders|
  {
    if orders != [] {
      var n := |orders| - 1;
      OnSideBound(orders[..n], side);
      assert orders == orders[..n] + [orders[n]];
      var more: set<FundedOrder> := if orders[n].side == side then {orders[n]} else {};
      assert OnSide(orders, side) == OnSide(orders[..n], side) + more;
    }
  }

  lemma LotsBound(orders: seq<FundedOrder>)
    ensures -|orders| <= Lots(orders) <= |orders|
  {
    OnSideBound(orders, Buy);
    OnSideBound(orders, Sell);
  }

  lemma {:induction false} FirstDuplicateNone(orders: seq<FundedOrder>, i: nat)
    requires i <= |orders|
    ensures FirstDuplicate(orders, i).None? <==>
            forall j, k | 0 <= j < k < |orders| && i <= k :: orders[j].participant != orders[k].participant
    decreases |orders| - i
  {
    if i < |orders| {
      FirstDuplicateNone(orders, i + 1);
      var f := Find(orders[..i], orders[i].participant);
      if f.Some? {
        var j :| 0 <= j < i && orders[..i][j] == f.value;
        assert orders[j].participant == orders[i].participant;
      } else {
        forall j | 0 <= j < i ensures orders[j].participant != orders[i].participant {
          assert orders[..i][j] in orders[..i];
        }
      }
    }
  }

  lemma {:induction false} FirstFailureNone(cfg: BatchConfig, before: Book, orders: seq<FundedOrder>, i: nat)
    requires i <= |orders|
    ensures FirstFailure(cfg, before, orders, i).None? <==>
            forall k | i <= k < |orders| :: FillOrder(cfg, before, orders[k]).Ok?
    decreases |orders| - i
  {
    if i < |orders| {
      FirstFailureNone(cfg, before, orders, i + 1);
    }
  }

  /** Netting succeeds exactly when every order is fillable on its own and no participant trades twice. */
  lemma NetSucceedsIff(cfg: BatchConfig, before: Book, orders: seq<FundedOrder>)
    requires |orders| <= U32_MAX
    ensures NetSpec(cfg, before, orders).Ok? <==> Acceptable(cfg, before, orders)
  {
    FirstDuplicateNone(orders, 0);
    FirstFailureNone(cfg, before, orders, 0);
  }

  // ---- order independence ----

  lemma FindMember(orders: seq<FundedOrder>, o: FundedOrder)
    requires Distinct(orders) && o in orders
    ensures Find(orders, o.participant) == Some(o)
  {
    var r := Find(orders, o.participant);
    var i :| 0 <= i < |orders| && orders[i] == o;
    var j :| 0 <= j < |orders| && orders[j] == r.value;
    assert i == j;
  }

  lemma {:induction false} DistinctByMultiset(a: seq<FundedOrder>, b: seq<FundedOrder>)
    requires multiset(a) == multiset(b) && Distinct(a)
    ensures Distinct(b)
  {
    forall i, j | 0 <= i < j < |b| ensures b[i].participant != b[j].participant {
      if b[i].participant == b[j].participant {
        assert b[i] in multiset(a) && b[j] in multiset(a);
        FindMember(a, b[i]);
        FindMember(a, b[j]);
        Order.CountTwice(b, i, j);
        OnceInDistinct(a, b[i]);
        assert false;
      }
    }
  }

  lemma OnceInDistinct(a: seq<FundedOrder>, o: FundedOrder)
    requires Distinct(a) && o in a
    ensures multiset(a)[o] == 1
  {
    var i :| 0 <= i < |a| && a[i] == o;
    assert a == a[..i] + [a[i]] + a[i + 1..];
    assert o !in a[..i] && o !in a[i + 1..];
  }

  lemma SameOrders(a: seq<FundedOrder>, b: seq<FundedOrder>)
    requires multiset(a) == multiset(b)
    ensures forall o :: o in a <==> o in b
    ensures |a| == |b|
    ensures Lots(a) == Lots(b)
  {
    forall o ensures o in a <==> o in b {
      assert o in multiset(a) <==> o in multiset(b);
    }
    assert |multiset(a)| == |a| && |multiset(b)| == |b|;
    assert OnSide(a, Buy) == OnSide(b, Buy) && OnSide(a, Sell) == OnSide(b, Sell);
  }

  lemma AfterSame(cfg: BatchConfig, before: Book, a: seq<FundedOrder>, b: seq<FundedOrder>)
    requires Distinct(a) && Distinct(b)
    requires forall o :: o in a <==> o in b
    ensures After(cfg, before, a) == After(cfg, before, b)
  {
    forall p | p in before ensures Find(a, p) == Find(b, p) {
      var o := Find(a, p);
      if o.Some? { FindMember(b, o.value); }
    }
  }

  lemma AcceptableSame(cfg: BatchConfig, before: Book, a: seq<FundedOrder>, b: seq<FundedOrder>)
    requires multiset(a) == multiset(b) && Acceptable(cfg, before, a)
    ensures Acceptable(cfg, before, b)
    ensures After(cfg, before, a) == After(cfg, before, b) && Lots(a) == Lots(b)
  {
    SameOrders(a, b);
    DistinctByMultiset(a, b);
    AfterSame(cfg, before, a, b);
  }

  lemma NetResultSame(cfg: BatchConfig, before: Book, a: seq<FundedOrder>, b: seq<FundedOrder>)
    requires |a| <= U32_MAX && |b| <= U32_MAX
    requires Acceptable(cfg, before, a) && Acceptable(cfg, before, b)
    requires After(cfg, before, a) == After(cfg, before, b) && Lots(a) == Lots(b)
    ensures NetSpec(cfg, before, a) == NetSpec(cfg, before, b)
  {
    var ra, rb := NetSpec(cfg, before, a), NetSpec(cfg, before, b);
    NetSucceedsIff(cfg, before, a);
    NetSucceedsIff(cfg, before, b);
    assert ra.value.residual == rb.value.residual && ra.value.after == rb.value.after;
    assert ra.value.delta == rb.value.delta;
  }

  /** Success and result do not depend on the order of the orders. */
  lemma NettingIsOrderIndependent(cfg: BatchConfig, before: Book, a: seq<FundedOrder>, b: seq<FundedOrder>)
    requires |a| <= U32_MAX && |b| <= U32_MAX
    requires multiset(a) == multiset(b)
    ensures NetSpec(cfg, before, a).Ok? <==> NetSpec(cfg, before, b).Ok?
    ensures NetSpec(cfg, before, a).Ok? ==> NetSpec(cfg, before, a) == NetSpec(cfg, before, b)
  {
    NetSucceedsIff(cfg, before, a);
    NetSucceedsIff(cfg, before, b);
    if Acceptable(cfg, before, a) {
      AcceptableSame(cfg, before, a, b);
      NetResultSame(cfg, before, a, b);
    }
    if Acceptable(cfg, before, b) { AcceptableSame(cfg, before, b, a); }
  }

  // ---- conservation ----

  function BaseOf(book: Book): Bytes32 -> int {
    p => if p in book then book[p].base else 0
  }

  function QuoteOf(book: Book): Bytes32 -> int {
    p => if p in book then book[p].quote else 0
  }

  ghost function TotalBase(book: Book): int { Sum(book.Keys, BaseOf(book)) }
  ghost function TotalQuote(book: Book): int { Sum(book.Keys, QuoteOf(book)) }

  lemma TotalUpdate(book: Book, p: Bytes32, b: Balance)
    requires p in book
    ensures TotalBase(book[p := b]) == TotalBase(book) - book[p].base + b.base
    ensures TotalQuote(book[p := b]) == TotalQuote(book) - book[p].quote + b.quote
  {
    assert book[p := b].Keys == book.Keys;
    SumUpdate(book.Keys, BaseOf(book), BaseOf(book[p := b]), p);
    SumUpdate(book.Keys, QuoteOf(book), QuoteOf(book[p := b]), p);
  }

  lemma {:induction false} FindExtend(orders: seq<FundedOrder>, o: FundedOrder, p: Bytes32)
    ensures Find(orders + [o], p) ==
            if Find(orders, p).Some? then Find(orders, p)
            else if o.participant == p then Some(o) else None
  {
    if orders != [] {
      FindExtend(orders[1..], o, p);
      assert (orders + [o])[1..] == orders[1..] + [o];
    }
  }

  /** One more order moves exactly one balance. */
  lemma AfterExtend(cfg: BatchConfig, before: Book, orders: seq<FundedOrder>, o: FundedOrder)
    requires Find(orders, o.participant).None?
    requires FillOrder(cfg, before, o).Ok?
    ensures o.participant in After(cfg, before, orders)
    ensures After(cfg, before, orders)[o.participant] == before[o.participant]
    ensures After(cfg, before, orders + [o]) ==
            After(cfg, before, orders)[o.participant := FillOrder(cfg, before, o).value]
  {
    forall p | p in before { FindExtend(orders, o, p); }
  }

  /** An order sees its participant's opening balance, whatever was filled before it. */
  lemma FillUntouched(cfg: BatchConfig, before: Book, orders: seq<FundedOrder>, o: FundedOrder)
    requires Find(orders, o.participant).None?
    ensures FillOrder(cfg, After(cfg, before, orders), o) == FillOrder(cfg, before, o)
  {
    var p := o.participant;
    assert p in After(cfg, before, orders) <==> p in before;
    if p in before { assert After(cfg, before, orders)[p] == before[p]; }
  }

  lemma LotsExtend(orders: seq<FundedOrder>, o: FundedOrder)
    requires o !in orders
    ensures OnSide(orders + [o], o.side) == OnSide(orders, o.side) + {o}
    ensures |OnSide(orders + [o], o.side)| == |OnSide(orders, o.side)| + 1
    ensures forall side | side != o.side :: OnSide(orders + [o], side) == OnSide(orders, side)
    ensures Lots(orders + [o]) == Lots(orders) + (if o.side.Buy? then 1 else -1)
  {
    assert OnSide(orders + [o], o.side) == OnSide(orders, o.side) + {o};
    forall side | side != o.side ensures OnSide(orders + [o], side) == OnSide(orders, side) {
    }
  }

  lemma FillMove(cfg: BatchConfig, before: Book, o: FundedOrder)
    requires FillOrder(cfg, before, o).Ok?
    ensures o.participant in before
    ensures FillOrder(cfg, before, o).value.base
            == before[o.participant].base + (if o.side.Buy? then cfg.baseLot else 0 - cfg.baseLot)
    ensures FillOrder(cfg, before, o).value.quote
            == before[o.participant].quote + (if o.side.Buy? then 0 - cfg.quotePerLot else cfg.quotePerLot)
  {
  }

  lemma BaseConservedExtend(cfg: BatchConfig, before: Book, orders: seq<FundedOrder>, o: FundedOrder)
    requires TotalBase(After(cfg, before, orders)) == TotalBase(before) + Times(Lots(orders), cfg.baseLot)
    requires Find(orders, o.participant).None?
    requires FillOrder(cfg, before, o).Ok?
    ensures TotalBase(After(cfg, before, orders + [o])) == TotalBase(before) + Times(Lots(orders + [o]), cfg.baseLot)
  {
    AfterExtend(cfg, before, orders, o);
    FillMove(cfg, before, o);
    TotalUpdate(After(cfg, before, orders), o.participant, FillOrder(cfg, before, o).value);
    LotsExtend(orders, o);
    TimesStep(Lots(orders), cfg.baseLot);
  }

  lemma QuoteConservedExtend(cfg: BatchConfig, before: Book, orders: seq<FundedOrder>, o: FundedOrder)
    requires TotalQuote(After(cfg, before, orders)) == TotalQuote(before) - Times(Lots(orders), cfg.quotePerLot)
    requires Find(orders, o.participant).None?
    requires FillOrder(cfg, before, o).Ok?
    ensures TotalQuote(After(cfg, before, orders + [o]))
            == TotalQuote(before) - Times(Lots(orders + [o]), cfg.quotePerLot)
  {
    AfterExtend(cfg, before, orders, o);
    FillMove(cfg, before, o);
    TotalUpdate(After(cfg, before, orders), o.participant, FillOrder(cfg, before, o).value);
    LotsExtend(orders, o);
    TimesStep(Lots(orders), cfg.quotePerLot);
  }

  /** Both assets are conserved: the book changes in total by exactly what crosses the vault. */
  lemma {:induction false} Conservation(cfg: BatchConfig, before: Book, orders: seq<FundedOrder>)
    requires Distinct(orders)
    requires forall o | o in orders :: FillOrder(cfg, before, o).Ok?
    ensures TotalBase(After(cfg, before, orders)) == TotalBase(before) + Times(Lots(orders), cfg.baseLot)
    ensures TotalQuote(After(cfg, before, orders)) == TotalQuote(before) - Times(Lots(orders), cfg.quotePerLot)
  {
    if orders == [] {
      assert After(cfg, before, orders) == before;
      assert OnSide(orders, Buy) == {} && OnSide(orders, Sell) == {};
    } else {
      var n := |orders| - 1;
      assert orders == orders[..n] + [orders[n]];
      Conservation(cfg, before, orders[..n]);
      NotYetSeen(orders, n);
      BaseConservedExtend(cfg, before, orders[..n], orders[n]);
      QuoteConservedExtend(cfg, before, orders[..n], orders[n]);
    }
  }

  lemma NotYetSeen(orders: seq<FundedOrder>, i: nat)
    requires i < |orders| && Distinct(orders)
    ensures Find(orders[..i], orders[i].participant).None?
    ensures orders[i] !in orders[..i]
  {
    forall o | o in orders[..i] ensures o.participant != orders[i].participant {
      var j :| 0 <= j < i && orders[..i][j] == o;
      assert orders[j] == o;
    }
  }

  /** What every successful netting guarantees to the rest of the system. */
  lemma NettedResult(cfg: BatchConfig, before: Book, orders: seq<FundedOrder>)
    requires |orders| <= U32_MAX && NetSpec(cfg, before, orders).Ok?
    ensures var r := NetSpec(cfg, before, orders).value;
            && r.before == before && r.after.Keys == before.Keys
            && TotalBase(r.after) == TotalBase(before) + r.delta.base
            && TotalQuote(r.after) == TotalQuote(before) + r.delta.quote
            && r.delta
              == VaultDelta(Times(SignedLots(r.residual), cfg.baseLot), -Times(SignedLots(r.residual), cfg.quotePerLot))
            && SignedLots(r.residual) == Lots(orders)
  {
    LotsBound(orders);
    NetSucceedsIff(cfg, before, orders);
    ResultConserves(cfg, before, orders);
  }

  /** Each participant keeps the balance, or pays exactly one lot of one asset for one lot of the other. */
  ghost predicate OneLotMove(cfg: BatchConfig, b: Balance, a: Balance) {
    || a == b
    || (a.base == b.base + cfg.baseLot && a.quote == b.quote - cfg.quotePerLot)
    || (a.base == b.base - cfg.baseLot && a.quote == b.quote + cfg.quotePerLot)
  }

  lemma NettedMoves(cfg: BatchConfig, before: Book, orders: seq<FundedOrder>)
    requires |orders| <= U32_MAX && NetSpec(cfg, before, orders).Ok?
    ensures var after := NetSpec(cfg, before, orders).value.after;
            forall p | p in before :: OneLotMove(cfg, before[p], after[p])
  {
    NetSucceedsIff(cfg, before, orders);
    LotsBound(orders);
  }

  lemma NettedFrame(cfg: BatchConfig, before: Book, orders: seq<FundedOrder>)
    requires |orders| <= U32_MAX && NetSpec(cfg, before, orders).Ok?
    ensures -U32_MAX <= Lots(orders) <= U32_MAX
    ensures var r := NetSpec(cfg, before, orders).value;
            r.before == before && r.after.Keys == before.Keys && r.residual == ResidualOf(Lots(orders))
  {
    LotsBound(orders);
  }

  // ---- the loops ----

  /** `totals`: fails only when a running sum leaves `i128`. */
  method Totals(book: Book) returns (r: Option<(int, int)>)
    ensures r.Some? ==> r.value == (TotalBase(book), TotalQuote(book))
    ensures |book| < 0x8000_0000_0000_0000 ==> r.Some?
  {
    var base, quote := 0, 0;
    var rest := book.Keys;
    while rest != {}
      invariant rest <= book.Keys
      invariant base == TotalBase(book) - Sum(rest, BaseOf(book))
      invariant quote == TotalQuote(book) - Sum(rest, QuoteOf(book))
    {
      var p :| p in rest;
      SumSplit(rest, BaseOf(book), p);
      SumSplit(rest, QuoteOf(book), p);
      rest := rest - {p};
      base, quote := base + book[p].base, quote + book[p].quote;
      SumBounds(book.Keys, BaseOf(book), U64_MAX);
      SumBounds(book.Keys, QuoteOf(book), U64_MAX);
      SumSubset(rest, book.Keys, BaseOf(book));
      SumSubset(rest, book.Keys, QuoteOf(book));
      SumBounds(rest, BaseOf(book), U64_MAX);
      SumBounds(rest, QuoteOf(book), U64_MAX);
      if base > I128_MAX || quote > I128_MAX {
        return None;
      }
    }
    return Some((base, quote));
  }

  /** `BatchResult::conserves`. */
  method Conserves(result: BatchResult, before: Book) returns (ok: bool)
    ensures ok ==> TotalBase(result.after) == TotalBase(before) + result.delta.base
                   && TotalQuote(result.after) == TotalQuote(before) + result.delta.quote
    ensures |before| < 0x8000_0000_0000_0000 && |result.after| < 0x8000_0000_0000_0000
            && TotalBase(result.after) == TotalBase(before) + result.delta.base
            && TotalQuote(result.after) == TotalQuote(before) + result.delta.quote
            ==> ok
  {
    var b := Totals(before);
    if b.None? { return false; }
    var a := Totals(result.after);
    if a.None? { return false; }
    return b.value.0 + result.delta.base == a.value.0 && b.value.1 + result.delta.quote == a.value.1;
  }

  /** The first pass of `net_batch`. */
  method CheckDistinct(orders: seq<FundedOrder>) returns (r: Option<Bytes32>)
    ensures r == FirstDuplicate(orders, 0)
    ensures r.None? <==> Distinct(orders)
  {
    FirstDuplicateNone(orders, 0);
    var seen: set<Bytes32> := {};
    for i := 0 to |orders|
      invariant seen == set o | o in orders[..i] :: o.participant
      invariant FirstDuplicate(orders, 0) == FirstDuplicate(orders, i)
    {
      if orders[i].participant in seen { return Some(orders[i].participant); }
      assert orders[..i + 1] == orders[..i] + [orders[i]];
      seen := seen + {orders[i].participant};
    }
    return None;
  }

  ghost predicate Filled(cfg: BatchConfig, before: Book, orders: seq<FundedOrder>, balances: Book, buys: int,
                         sells: int) {
    && balances == After(cfg, before, orders)
    && buys == |OnSide(orders, Buy)| && sells == |OnSide(orders, Sell)|
  }

  lemma FilledExtend(cfg: BatchConfig, before: Book, orders: seq<FundedOrder>, i: nat, balances: Book, buys: int,
                     sells: int)
    requires i < |orders| && Distinct(orders)
    requires Filled(cfg, before, orders[..i], balances, buys, sells)
    ensures FillOrder(cfg, balances, orders[i]) == FillOrder(cfg, before, orders[i])
    ensures var f := FillOrder(cfg, before, orders[i]);
            f.Ok? ==> Filled(cfg, before, orders[..i + 1], balances[orders[i].participant := f.value],
                             buys + (if orders[i].side.Buy? then 1 else 0),
                             sells + (if orders[i].side.Buy? then 0 else 1))
  {
    assert orders[..i + 1] == orders[..i] + [orders[i]];
    NotYetSeen(orders, i);
    FillUntouched(cfg, before, orders[..i], orders[i]);
    if FillOrder(cfg, before, orders[i]).Ok? {
      AfterExtend(cfg, before, orders[..i], orders[i]);
      LotsExtend(orders[..i], orders[i]);
    }
  }

  /** One turn of the second pass: fills in place and counts the side, both checked. */
  method FillOne(cfg: BatchConfig, balances: Book, buys: u32, sells: u32, o: FundedOrder)
    returns (r: Result<(Book, u32, u32), LedgerError>)
    ensures r.Ok? ==> FillOrder(cfg, balances, o).Ok?
                      && r.value.0 == balances[o.participant := FillOrder(cfg, balances, o).value]
                      && r.value.1 == buys + (if o.side.Buy? then 1 else 0)
                      && r.value.2 == sells + (if o.side.Buy? then 0 else 1)
    ensures buys < U32_MAX && sells < U32_MAX && r.Err? ==> FillOrder(cfg, balances, o) == Err(r.error)
  {
    var filled := FillOrder(cfg, balances, o);
    if filled.Err? { return Err(filled.error); }
    var now := balances[o.participant := filled.value];
    match o.side {
      case Buy =>
        if buys == U32_MAX { return Err(ArithmeticOverflow); }
        return Ok((now, buys + 1, sells));
      case Sell =>
        if sells == U32_MAX { return Err(ArithmeticOverflow); }
        return Ok((now, buys, sells + 1));
    }
  }

  /** The second pass. */
  method FillAll(cfg: BatchConfig, before: Book, orders: seq<FundedOrder>)
    returns (r: Result<(Book, u32, u32), LedgerError>)
    requires Distinct(orders)
    ensures |orders| <= U32_MAX && r.Err? ==> FirstFailure(cfg, before, orders, 0) == Some(r.error)
    ensures r.Ok? ==> FirstFailure(cfg, before, orders, 0) == None
    ensures r.Ok? ==> Filled(cfg, before, orders, r.value.0, r.value.1, r.value.2)
  {
    var balances: Book, buys: u32, sells: u32 := before, 0, 0;
    for i := 0 to |orders|
      invariant FirstFailure(cfg, before, orders, 0) == FirstFailure(cfg, before, orders, i)
      invariant Filled(cfg, before, orders[..i], balances, buys, sells)
      invariant buys <= i && sells <= i
    {
      FilledExtend(cfg, before, orders, i, balances, buys, sells);
      var filled := FillOne(cfg, balances, buys, sells, orders[i]);
      if filled.Err? { return Err(filled.error); }
      balances, buys, sells := filled.value.0, filled.value.1, filled.value.2;
    }
    assert orders[..|orders|] == orders;
    return Ok((balances, buys, sells));
  }

  lemma FilledIsResult(cfg: BatchConfig, before: Book, orders: seq<FundedOrder>, balances: Book, buys: u32, sells: u32)
    requires Filled(cfg, before, orders, balances, buys, sells)
    ensures balances.Keys == before.Keys
    ensures -U32_MAX <= Lots(orders) <= U32_MAX
    ensures Close(cfg, before, balances, buys as int - sells as int) == NetResult(cfg, before, orders)
  {
  }

  lemma ResultConserves(cfg: BatchConfig, before: Book, orders: seq<FundedOrder>)
    requires Acceptable(cfg, before, orders)
    requires -U32_MAX <= Lots(orders) <= U32_MAX
    ensures var r := NetResult(cfg, before, orders);
            && TotalBase(r.after) == TotalBase(before) + r.delta.base
            && TotalQuote(r.after) == TotalQuote(before) + r.delta.quote
  {
    Conservation(cfg, before, orders);
  }

  /** A checked `i128` operation: `None` when the exact result does not fit. */
  function CheckedI128(n: int): Option<int> { if I128_MIN <= n <= I128_MAX then Some(n) else None }

  /** The signed products of netting stay far inside `i128`. */
  lemma DeltaFitsI128(lots: int, atoms: u64)
    requires -U32_MAX <= lots <= U32_MAX
    ensures I128_MIN < Times(lots, atoms) < I128_MAX
  {
    TimesIsProduct(lots, atoms);
    if lots >= 0 {
      assert 0 <= lots * atoms <= U32_MAX * U64_MAX by { MulMono(lots, U32_MAX, atoms, U64_MAX); }
    } else {
      assert 0 <= -lots * atoms <= U32_MAX * U64_MAX by { MulMono(-lots, U32_MAX, atoms, U64_MAX); }
      assert lots * atoms == -(-lots * atoms);
    }
  }

  lemma MulMono(a: nat, b: nat, c: nat, d: nat)
    requires a <= b && c <= d
    ensures 0 <= a * c <= b * d
  {
    assert a * c <= b * c;
    assert b * c <= b * d;
  }

  /** The checked products of `net_batch`; no overflow is ever reported. */
  method CheckedDelta(cfg: BatchConfig, lots: int) returns (r: Option<VaultDelta>)
    requires -U32_MAX <= lots <= U32_MAX
    ensures r == Some(VaultDelta(Times(lots, cfg.baseLot), -Times(lots, cfg.quotePerLot)))
  {
    DeltaFitsI128(lots, cfg.baseLot);
    DeltaFitsI128(lots, cfg.quotePerLot);
    var base := CheckedI128(Times(lots, cfg.baseLot));
    if base.None? { return None; }
    var product := CheckedI128(Times(lots, cfg.quotePerLot));
    if product.None? { return None; }
    var quote := CheckedI128(-product.value);
    if quote.None? { return None; }
    return Some(VaultDelta(base.value, quote.value));
  }

  /** The last part of `net_batch`: residual, checked products, conservation. */
  method CloseBatch(cfg: BatchConfig, before: Book, balances: Book, buys: u32, sells: u32)
    returns (r: Result<BatchResult, LedgerError>)
    ensures var result := Close(cfg, before, balances, buys as int - sells as int);
            && |before| < 0x8000_0000_0000_0000 && |balances| < 0x8000_0000_0000_0000
            && TotalBase(balances) == TotalBase(before) + result.delta.base
            && TotalQuote(balances) == TotalQuote(before) + result.delta.quote
            ==> r == Ok(result)
  {
    var lots := buys as int - sells as int;
    var delta := CheckedDelta(cfg, lots);
    if delta.None? { return Err(ArithmeticOverflow); }
    var result := BatchResult(before, balances, ResidualOf(lots), delta.value);
    var ok := Conserves(result, before);
    if !ok { return Err(ConservationFailed); }
    return Ok(result);
  }

  /** `net_batch`: two passes over the orders with checked arithmetic. Below 2^63 balances and 2^32
      orders it computes the per-participant specification, so no counter, product or negation overflows and
      `ConservationFailed` never occurs. */
  method NetBatch(cfg: BatchConfig, before: Book, orders: seq<FundedOrder>)
    returns (r: Result<BatchResult, LedgerError>)
    ensures |before| < 0x8000_0000_0000_0000 && |orders| <= U32_MAX ==> r == NetSpec(cfg, before, orders)
  {
    if orders == [] { return Err(EmptyBatch); }
    var twice := CheckDistinct(orders);
    if twice.Some? { return Err(DuplicateParticipant(twice.value)); }
    var filled := FillAll(cfg, before, orders);
    if filled.Err? { return Err(filled.error); }
    var (balances, buys, sells) := filled.value;
    FirstFailureNone(cfg, before, orders, 0);
    FilledIsResult(cfg, before, orders, balances, buys, sells);
    ResultConserves(cfg, before, orders);
    assert |balances| == |balances.Keys| && |before| == |before.Keys|;
    r := CloseBatch(cfg, before, balances, buys, sells);
  }
}
