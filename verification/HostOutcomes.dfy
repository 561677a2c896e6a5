/** When the host's operations succeed, said in terms of the files and the arguments alone. */
module HostOutcomes {
  import opened Bytes
  import Order
  import opened Ledger
  import opened Accounts
  import opened JournalRuns
  import opened Commits
  import opened SoloRuns
  import R = Reservations

  // ---- netting ----

  /** The participant holds a lot of each asset, the price is within the limit, and the credited balance fits. */
  ghost predicate Fillable(cfg: BatchConfig, book: Book, o: FundedOrder) {
    && o.participant in book && book[o.participant].base >= cfg.baseLot && book[o.participant].quote >= cfg.quotePerLot
    && (o.side == Buy ==> cfg.quotePerLot <= o.limit && book[o.participant].base + cfg.baseLot <= U64_MAX)
    && (o.side == Sell ==> o.limit <= cfg.quotePerLot && book[o.participant].quote + cfg.quotePerLot <= U64_MAX)
  }

  /** One lot for one price, in the direction of the order. */
  function Filled(cfg: BatchConfig, b: Balance, side: Side): (int, int) {
    if side == Buy then (b.base + cfg.baseLot, b.quote - cfg.quotePerLot)
    else (b.base - cfg.baseLot, b.quote + cfg.quotePerLot)
  }

  lemma FillIff(cfg: BatchConfig, book: Book, o: FundedOrder)
    ensures FillOrder(cfg, book, o).Ok? <==> Fillable(cfg, book, o)
    ensures var r := FillOrder(cfg, book, o);
            r.Ok? ==> o.participant in book
                      && (r.value.base as int, r.value.quote as int) == Filled(cfg, book[o.participant], o.side)
  {
  }

  /** Why an order is refused: nobody of that name, less than a lot of either asset, a price beyond the limit, or an
      overflow of what it would credit, in this order. */
  lemma FillRefusals(cfg: BatchConfig, book: Book, o: FundedOrder)
    ensures var r, p := FillOrder(cfg, book, o), o.participant;
            && (r == Err(UnknownParticipant(p)) <==> p !in book)
            && (r == Err(InsufficientReservation(p))
               <==> p in book && (book[p].base < cfg.baseLot || book[p].quote < cfg.quotePerLot))
            && (r == Err(LimitViolated(p)) <==>
                p in book && book[p].base >= cfg.baseLot && book[p].quote >= cfg.quotePerLot
                && (if o.side == Buy then cfg.quotePerLot > o.limit else cfg.quotePerLot < o.limit))
  {
  }

  /** A batch nets if and only if it has an order, nobody orders twice, and every order can be filled on its own. */
  lemma NetIff(cfg: BatchConfig, book: Book, orders: seq<FundedOrder>)
    requires |orders| <= U32_MAX
    ensures NetSpec(cfg, book, orders).Ok? <==>
            && orders != [] && (forall i, j | 0 <= i < j < |orders| :: orders[i].participant != orders[j].participant)
            && forall o | o in orders :: Fillable(cfg, book, o)
  {
    NetSucceedsIff(cfg, book, orders);
    forall o | o in orders { FillIff(cfg, book, o); }
  }

  /** Then every orderer's balance moves by exactly one lot in the direction ordered, and nobody else's moves. */
  lemma NetDoes(cfg: BatchConfig, book: Book, orders: seq<FundedOrder>)
    requires |orders| <= U32_MAX && NetSpec(cfg, book, orders).Ok?
    ensures var after := NetSpec(cfg, book, orders).value.after;
            && (forall o | o in orders :: && o.participant in book && o.participant in after
                  && (after[o.participant].base as int, after[o.participant].quote as int)
                    == Filled(cfg, book[o.participant], o.side))
            && (forall p | p in book && (forall o | o in orders :: o.participant != p) ::
                p in after && after[p] == book[p])
  {
    NetSucceedsIff(cfg, book, orders);
    LotsBound(orders);
    var after := NetSpec(cfg, book, orders).value.after;
    assert after == After(cfg, book, orders);
    forall o | o in orders ensures o.participant in book && o.participant in after
      && (after[o.participant].base as int, after[o.participant].quote as int)
        == Filled(cfg, book[o.participant], o.side)
    {
      FindMember(orders, o);
      FillIff(cfg, book, o);
    }
  }

  // ---- reservations ----

  /** A reservation is taken if and only if its nonce is new, the balance shown covers it beside everything the
      participant still has Reserved, to the last atom, and the file has room; the file then differs by that record
      alone. */
  lemma ReserveIff(file: R.File, rec: R.Record, available: Balance)
    ensures R.ReserveSpec(file, rec, available).Ok? <==>
            && rec.nonce !in file && |file| < U32_MAX
            && R.ReservedBase(file, rec.participant) + rec.base <= available.base
            && R.ReservedQuote(file, rec.participant) + rec.quote <= available.quote
    ensures R.ReserveSpec(file, rec, available).Ok?
            ==> R.ReserveSpec(file, rec, available).value == file[rec.nonce := rec]
  {
    if rec.nonce !in file { OneMore(file, rec.nonce, rec); }
  }

  lemma OneMore<V>(m: map<Bytes32, V>, k: Bytes32, v: V)
    ensures |m[k := v]| == |m| + if k in m then 0 else 1
  {
    assert m[k := v].Keys == m.Keys + {k};
    assert |m[k := v]| == |m[k := v].Keys| && |m| == |m.Keys|;
  }

  // ---- accounts ----

  /** An account is registered if and only if its name is new and not zero, it owns something and the file has room;
      nothing else changes. */
  lemma RegisterIff(st: AccountState, p: Bytes32, key: Bytes32, b: Balance)
    ensures RegisterSpec(st, p, key, b).Ok? <==>
            && p != ZERO && b != Balance(0, 0) && p !in st.records
            && |st.records| < U32_MAX && |st.applied| <= U32_MAX
    ensures var next := RegisterSpec(st, p, key, b);
            next.Ok? ==> && next.value.applied == st.applied && next.value.records.Keys == st.records.Keys + {p}
                         && p in next.value.records && next.value.records[p] == AccountRecord(p, key, b, ZERO)
                         && forall q | q in st.records :: next.value.records[q] == st.records[q]
  {
    OneMore(st.records, p, AccountRecord(p, key, b, ZERO));
  }

  // ---- finalisation and release ----

  /** Distinct nonces, one for each member, all still Reserved for this epoch. */
  ghost predicate OneReservedEach(file: R.File, e: Bytes32, nonces: seq<Bytes32>, members: set<Bytes32>) {
    && (forall i, j | 0 <= i < j < |nonces| :: nonces[i] != nonces[j])
    && |nonces| == |members|
    && (forall n | n in nonces :: n in file && file[n].epoch == e && file[n].status == R.Reserved)
    && (forall n | n in nonces :: n in file && file[n].participant in members)
    && (forall m | m in members :: exists n | n in nonces :: n in file && file[n].participant == m)
  }

  lemma ParticipantsAre(file: R.File, nonces: seq<Bytes32>, members: set<Bytes32>)
    requires forall n | n in nonces :: n in file
    ensures R.Participants(file, nonces) == members <==>
            && (forall n | n in nonces :: file[n].participant in members)
            && (forall m | m in members :: exists n | n in nonces :: n in file && file[n].participant == m)
  {
    var ps := R.Participants(file, nonces);
    if ps == members {
      forall n | n in nonces ensures file[n].participant in members { assert file[n].participant in ps; }
      forall m | m in members ensures exists n | n in nonces :: n in file && file[n].participant == m {
        assert m in ps;
      }
    }
  }

  lemma ChecksPassIff(file: R.File, e: Bytes32, nonces: seq<Bytes32>, members: set<Bytes32>)
    ensures R.FinalizeCheck(file, e, nonces, members) == Ok(false) <==> OneReservedEach(file, e, nonces, members)
  {
    R.CheckMeaning(file, e, nonces, R.Released);
    if forall n | n in nonces :: n in file { ParticipantsAre(file, nonces, members); }
    if R.FinalizeCheck(file, e, nonces, members) == Ok(false) {
      forall n | n in nonces ensures n in file && file[n].epoch == e && file[n].status == R.Reserved {
        assert R.Passes(file, e, n, R.Released);
      }
    }
    if OneReservedEach(file, e, nonces, members) {
      assert Order.Distinct(nonces);
      forall n | n in nonces ensures R.Passes(file, e, n, R.Released) {
      }
    }
  }

  /** The files a first commit of this result can be written to: every stored balance is the opening balance of the
      result, everyone it leaves a balance has a record, and there is room for one more marker. */
  ghost predicate Applicable(acc: AccountState, r: BatchResult) {
    && (forall p | p in r.before :: p in acc.records && acc.records[p].balance == r.before[p])
    && (forall p | p in r.after :: p in acc.records)
    && |acc.records| <= U32_MAX && |acc.applied| < U32_MAX
  }

  /** This very result was committed, and its members still stand as it left them. */
  ghost predicate Committed(dig: Digester, acc: AccountState, e: Bytes32, r: BatchResult) {
    && e in acc.applied && acc.applied[e] == dig(r)
    && (forall p | p in r.after :: p in acc.records && acc.records[p].balance == r.after[p]
                                   && acc.records[p].lastEpoch == e)
    && |acc.records| <= U32_MAX && |acc.applied| <= U32_MAX
  }

  /** A settlement is applied if and only if its epoch is not zero and either it is the first of that epoch and current,
      or it is the one already committed. */
  lemma ApplyIff(dig: Digester, acc: AccountState, e: Bytes32, r: BatchResult)
    ensures ApplySpec(dig, acc, e, r).Ok?
            <==> e != ZERO && if e in acc.applied then Committed(dig, acc, e, r) else Applicable(acc, r)
  {
    if forall p | p in r.after :: p in acc.records { assert r.after.Keys <= acc.records.Keys; }
    SettleSize(acc.records, e, r);
    OneMore(acc.applied, e, dig(r));
  }

  /** The first finalisation of an epoch succeeds if and only if it is given distinct nonces, one Reserved nonce of this
      epoch for each member and for nobody else, and the result is current. */
  lemma FirstFinalizeIff(dig: Digester, acc: AccountState, res: R.File, e: Bytes32, r: BatchResult,
                         nonces: seq<Bytes32>)
    requires e !in acc.applied
    ensures FinalizeSpec(dig, acc, res, e, r, nonces).0.Ok? <==>
            e != ZERO && OneReservedEach(res, e, nonces, r.after.Keys) && Applicable(acc, r)
  {
    ChecksPassIff(res, e, nonces, r.after.Keys);
    ApplyIff(dig, acc, e, r);
  }

  lemma SettleSize(records: Records, e: Bytes32, r: BatchResult)
    ensures |Settle(records, e, r)| == |records|
  {
    assert Settle(records, e, r).Keys == records.Keys;
    assert |Settle(records, e, r)| == |Settle(records, e, r).Keys| && |records| == |records.Keys|;
  }

  /** And this is all it does: members get their closing balance and the epoch, the epoch its marker, the nonces become
      Used; every other record, marker and reservation stays. */
  lemma FirstFinalizeDoes(dig: Digester, acc: AccountState, res: R.File, e: Bytes32, r: BatchResult,
                          nonces: seq<Bytes32>)
    requires e !in acc.applied && FinalizeSpec(dig, acc, res, e, r, nonces).0.Ok?
    ensures var (_, acc', res') := FinalizeSpec(dig, acc, res, e, r, nonces);
            && acc'.applied == acc.applied[e := dig(r)] && acc'.records.Keys == acc.records.Keys
            && (forall p | p in acc.records && p !in r.after :: acc'.records[p] == acc.records[p])
            && (forall p | p in r.after :: p in acc.records && p in acc'.records
                                           && acc'.records[p].participant == acc.records[p].participant
                                           && acc'.records[p].tradingKey == acc.records[p].tradingKey
                                           && acc'.records[p].balance == r.after[p] && acc'.records[p].lastEpoch == e)
            && res'.Keys == res.Keys && (forall n | n in res && n !in nonces :: res'[n] == res[n])
            && (forall n | n in nonces :: n in res && res'[n] == res[n].(status := R.Used))
  {
    R.FinalizeMeaning(res, e, nonces, r.after.Keys);
    forall n | n in nonces ensures n in res && res[n].status != R.Released { assert R.Passes(res, e, n, R.Released); }
  }

  /** A release succeeds if and only if its nonces are distinct nonces of the epoch, none of them Used, and the
      epoch has no commit; it moves exactly those still Reserved. */
  lemma ReleaseIff(acc: AccountState, res: R.File, e: Bytes32, nonces: seq<Bytes32>)
    ensures ReleaseSpec(acc, res, e, nonces).0.Ok? <==>
            && (forall i, j | 0 <= i < j < |nonces| :: nonces[i] != nonces[j])
            && (forall n | n in nonces :: n in res && res[n].epoch == e && res[n].status != R.Used)
            && e !in acc.applied
    ensures var (ok, next) := ReleaseSpec(acc, res, e, nonces);
            if ok.Err? then next == res
            else && next.Keys == res.Keys && (forall n | n in res && n !in nonces :: next[n] == res[n])
                 && (forall n | n in nonces :: n in res && next[n] == res[n].(status := R.Released))
  {
    R.CheckMeaning(res, e, nonces, R.Used);
    if ReleaseSpec(acc, res, e, nonces).0.Ok? {
      forall n | n in nonces ensures n in res && res[n].epoch == e && res[n].status != R.Used {
        assert R.Passes(res, e, n, R.Used);
      }
    }
    if (forall n | n in nonces :: n in res && res[n].epoch == e && res[n].status != R.Used) {
      forall n | n in nonces ensures R.Passes(res, e, n, R.Used) {
      }
    }
  }

  // ---- in runs ----

  /** Whatever happened before: a finalisation that then runs alone commits the epoch if and only if that condition
      holds of the files it finds. */
  lemma AloneCommitsIff(dig: Digester, before: seq<Step>, h: nat, op: Op)
    requires var s := Run(dig, EMPTY, before); Free(s, h) && op.Finalize? && op.epoch !in s.acc.applied
    ensures var s, t := Run(dig, EMPTY, before), Run(dig, EMPTY, before + FinalizeScript(h, op));
            op.epoch in t.acc.applied <==>
            && op.epoch != ZERO && OneReservedEach(s.res, op.epoch, op.nonces, op.result.after.Keys)
            && Applicable(s.acc, op.result)
  {
    var s := Run(dig, EMPTY, before);
    RunInv(dig, EMPTY, before);
    RunSplit(dig, EMPTY, before, FinalizeScript(h, op));
    SoloFinalize(dig, s, h, op);
    FirstFinalizeIff(dig, s.acc, s.res, op.epoch, op.result, op.nonces);
    CommitsOrNot(dig, s.acc, s.res, op.epoch, op.result, op.nonces);
  }

  lemma CommitsOrNot(dig: Digester, acc: AccountState, res: R.File, e: Bytes32, r: BatchResult, nonces: seq<Bytes32>)
    requires e !in acc.applied
    ensures e in FinalizeSpec(dig, acc, res, e, r, nonces).1.applied
            <==> FinalizeSpec(dig, acc, res, e, r, nonces).0.Ok?
  {
  }
}
