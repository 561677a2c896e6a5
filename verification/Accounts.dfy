/** The account journal and the two operations that span both journals. */
module Accounts {
  import opened Bytes
  import opened Ledger
  import R = Reservations

  datatype AccountRecord = AccountRecord(participant: Bytes32, tradingKey: Bytes32, balance: Balance,
                                         lastEpoch: Bytes32)
  type Records = map<Bytes32, AccountRecord>

  /** The account file: balances, and the commit marker of every applied epoch. */
  datatype AccountState = AccountState(records: Records, applied: map<Bytes32, Bytes32>)
  datatype AccountResult = AccountResult(epoch: Bytes32, balance: Balance)

  datatype AccountError =
    | InvalidAccount
    | DuplicateAccount
    | UnknownAccount
    | Unauthorized
    | ResultPending
    | StaleSettlement
    | AccountOverflow
    | Reservation(inner: R.JournalError)

  /** The digest stored as an epoch's commit marker. */
  type Digester = BatchResult -> Bytes32

  /** Both count fields of the file are `u32`; a larger state is not written. */
  predicate Fits(st: AccountState) { |st.records| <= U32_MAX && |st.applied| <= U32_MAX }

  /** `mutate`: the operation's outcome is kept only if the file can be written. */
  function Persisted(st: AccountState): Result<AccountState, AccountError> {
    if Fits(st) then Ok(st) else Err(AccountOverflow)
  }

  // ---- specification of the operations on one file ----

  function RegisterSpec(st: AccountState, p: Bytes32, key: Bytes32,
                        balance: Balance): Result<AccountState, AccountError> {
    if p == ZERO || (balance.base == 0 && balance.quote == 0) then Err(InvalidAccount)
    else if p in st.records then Err(DuplicateAccount)
    else Persisted(st.(records := st.records[p := AccountRecord(p, key, balance, ZERO)]))
  }

  function QuerySpec(st: AccountState, p: Bytes32, key: Bytes32): Result<AccountResult, AccountError> {
    if p !in st.records then Err(UnknownAccount)
    else if st.records[p].tradingKey != key then Err(Unauthorized)
    else if st.records[p].lastEpoch == ZERO then Err(ResultPending)
    else Ok(AccountResult(st.records[p].lastEpoch, st.records[p].balance))
  }

  /** The stored balances are the ones this result left behind for this epoch. */
  predicate Matches(records: Records, epoch: Bytes32, result: BatchResult) {
    forall p | p in result.after :: p in records && records[p].lastEpoch == epoch
                                    && records[p].balance == result.after[p]
  }

  predicate MatchesApplied(dig: Digester, st: AccountState, epoch: Bytes32, result: BatchResult) {
    epoch in st.applied && st.applied[epoch] == dig(result) && Matches(st.records, epoch, result)
  }

  predicate Current(records: Records, result: BatchResult) {
    forall p | p in result.before :: p in records && records[p].balance == result.before[p]
  }

  function Settle(records: Records, epoch: Bytes32, result: BatchResult): Records {
    map p | p in records ::
      if p in result.after then records[p].(balance := result.after[p], lastEpoch := epoch) else records[p]
  }

  function ApplySpec(dig: Digester, st: AccountState, epoch: Bytes32,
                     result: BatchResult): Result<AccountState, AccountError> {
    if epoch == ZERO then Err(StaleSettlement)
    else if !(result.after.Keys <= st.records.Keys) then Err(UnknownAccount)
    else if epoch in st.applied then
      if MatchesApplied(dig, st, epoch, result) then Persisted(st) else Err(StaleSettlement)
    else if !Current(st.records, result) then Err(StaleSettlement)
    else Persisted(AccountState(Settle(st.records, epoch, result), st.applied[epoch := dig(result)]))
  }

  // ---- specification of the operations on both files ----

  /** `finalize_settlement` run to completion: outcome, account file, reservation file. */
  function FinalizeSpec(dig: Digester, acc: AccountState, res: R.File, epoch: Bytes32, result: BatchResult,
                        nonces: seq<Bytes32>)
    : (Result<(), AccountError>, AccountState, R.File)
  {
    var checked := R.FinalizeCheck(res, epoch, nonces, result.after.Keys);
    if checked.Err? then (Err(Reservation(checked.error)), acc, res)
    else if checked.value && !MatchesApplied(dig, acc, epoch, result) then (Err(StaleSettlement), acc, res)
    else
      var next := ApplySpec(dig, acc, epoch, result);
      if next.Err? then (Err(next.error), acc, res)
      else (Ok(()), next.value, R.Mark(res, nonces, R.Used))
  }

  /** `release_reservations` run to completion. */
  function ReleaseSpec(acc: AccountState, res: R.File, epoch: Bytes32, nonces: seq<Bytes32>): (Result<(), AccountError>,
      R.File) {
    var checked := R.ReleaseCheck(res, epoch, nonces);
    if checked.Err? then (Err(Reservation(checked.error)), res)
    else if epoch in acc.applied then (Err(StaleSettlement), res)
    else (Ok(()), R.Mark(res, nonces, R.Released))
  }

  // ---- the journal object ----

  class Disk {
    var state: AccountState
    constructor ()
      ensures state == AccountState(map[], map[])
    { state := AccountState(map[], map[]); }
  }

  class AccountJournal {
    const disk: Disk
    const dig: Digester
    var records: Records
    var applied: map<Bytes32, Bytes32>

    constructor Open(disk: Disk, dig: Digester)
      ensures this.disk == disk && this.dig == dig
      ensures records == disk.state.records && applied == disk.state.applied
    {
      this.disk, this.dig := disk, dig;
      records, applied := disk.state.records, disk.state.applied;
    }

    /** The cached fields after a completed call. */
    ghost predicate Cached() reads this, disk {
      disk.state == AccountState(records, applied)
    }

    method Register(p: Bytes32, key: Bytes32, balance: Balance) returns (r: Result<(), AccountError>)
      modifies this, disk
      ensures match RegisterSpec(old(disk.state), p, key, balance)
              case Ok(next) => r == Ok(()) && disk.state == next && Cached()
              case Err(e) => r == Err(e) && disk.state == old(disk.state) && records == old(records)
                             && applied == old(applied)
    {
      if p == ZERO || (balance.base == 0 && balance.quote == 0) { return Err(InvalidAccount); }
      var current := disk.state.records;
      if p in current { return Err(DuplicateAccount); }
      current := current[p := AccountRecord(p, key, balance, ZERO)];
      if |current| > U32_MAX || |disk.state.applied| > U32_MAX { return Err(AccountOverflow); }
      disk.state := disk.state.(records := current);
      records, applied := current, disk.state.applied;
      return Ok(());
    }

    method QueryResult(p: Bytes32, key: Bytes32) returns (r: Result<AccountResult, AccountError>)
      modifies this
      ensures r == QuerySpec(disk.state, p, key)
      ensures Cached()
    {
      records, applied := disk.state.records, disk.state.applied;
      if p !in records { return Err(UnknownAccount); }
      if records[p].tradingKey != key { return Err(Unauthorized); }
      if records[p].lastEpoch == ZERO { return Err(ResultPending); }
      return Ok(AccountResult(records[p].lastEpoch, records[p].balance));
    }

    /** `settlement_matches`, as a loop over the result's members. */
    method AllMatch(current: Records, epoch: Bytes32, result: BatchResult) returns (ok: bool)
      ensures ok == Matches(current, epoch, result)
    {
      var rest := result.after.Keys;
      while rest != {}
        invariant rest <= result.after.Keys
        invariant forall p | p in result.after && p !in rest ::
                    p in current && current[p].lastEpoch == epoch && current[p].balance == result.after[p]
      {
        var p :| p in rest;
        if p !in current || current[p].lastEpoch != epoch || current[p].balance != result.after[p] { return false; }
        rest := rest - {p};
      }
      return true;
    }

    method SettlementMatches(epoch: Bytes32, result: BatchResult) returns (ok: bool)
      modifies this
      ensures ok == MatchesApplied(dig, disk.state, epoch, result)
    {
      records, applied := disk.state.records, disk.state.applied;
      var same := AllMatch(records, epoch, result);
      return epoch in applied && applied[epoch] == dig(result) && same;
    }

    method HasAppliedEpoch(epoch: Bytes32) returns (ok: bool)
      modifies this
      ensures ok == (epoch in disk.state.applied)
    {
      records, applied := disk.state.records, disk.state.applied;
      return epoch in applied;
    }

    /** The loop that overwrites the members' records. */
    method Overwrite(start: Records, epoch: Bytes32, result: BatchResult) returns (current: Records)
      requires result.after.Keys <= start.Keys
      ensures current == Settle(start, epoch, result)
    {
      current := start;
      var rest := result.after.Keys;
      while rest != {}
        invariant rest <= result.after.Keys
        invariant current.Keys == start.Keys
        invariant forall p | p in start ::
                    current[p] == if p in result.after && p !in rest
                                  then start[p].(balance := result.after[p], lastEpoch := epoch) else start[p]
      {
        var p :| p in rest;
        current := current[p := current[p].(balance := result.after[p], lastEpoch := epoch)];
        rest := rest - {p};
      }
    }

    method AllCurrent(current: Records, result: BatchResult) returns (ok: bool)
      ensures ok == Current(current, result)
    {
      var rest := result.before.Keys;
      while rest != {}
        invariant rest <= result.before.Keys
        invariant forall p | p in result.before && p !in rest :: p in current && current[p].balance == result.before[p]
      {
        var p :| p in rest;
        if p !in current || current[p].balance != result.before[p] { return false; }
        rest := rest - {p};
      }
      return true;
    }

    method ApplySettlement(epoch: Bytes32, result: BatchResult) returns (r: Result<(), AccountError>)
      modifies this, disk
      ensures match ApplySpec(dig, old(disk.state), epoch, result)
              case Ok(next) => r == Ok(()) && disk.state == next && Cached()
              case Err(e) => r == Err(e) && disk.state == old(disk.state)
    {
      if epoch == ZERO { return Err(StaleSettlement); }
      var current, marks := disk.state.records, disk.state.applied;
      if !(result.after.Keys <= current.Keys) { return Err(UnknownAccount); }
      if epoch in marks {
        var same := AllMatch(current, epoch, result);
        if marks[epoch] != dig(result) || !same { return Err(StaleSettlement); }
      } else {
        var upToDate := AllCurrent(current, result);
        if !upToDate { return Err(StaleSettlement); }
        current := Overwrite(current, epoch, result);
        marks := marks[epoch := dig(result)];
      }
      if |current| > U32_MAX || |marks| > U32_MAX { return Err(AccountOverflow); }
      disk.state := AccountState(current, marks);
      records, applied := current, marks;
      return Ok(());
    }
  }

  /** Takes the reservation lock first, commits to the account file, then consumes the reservations. */
  method FinalizeSettlement(accounts: AccountJournal, reservations: R.ReservationJournal,
                            epoch: Bytes32, result: BatchResult, nonces: seq<Bytes32>)
    returns (r: Result<(), AccountError>)
    modifies accounts, accounts.disk, reservations`records, reservations.disk
    ensures (r, accounts.disk.state, reservations.disk.records) ==
            FinalizeSpec(accounts.dig, old(accounts.disk.state), old(reservations.disk.records), epoch, result, nonces)
  {
    var checked := reservations.CheckFinalize(epoch, nonces, result.after.Keys);
    if checked.Err? { return Err(Reservation(checked.error)); }
    R.FinalizeMeaning(reservations.disk.records, epoch, nonces, result.after.Keys);
    if checked.value {
      var same := accounts.SettlementMatches(epoch, result);
      if !same { return Err(StaleSettlement); }
    }
    var applied := accounts.ApplySettlement(epoch, result);
    if applied.Err? { return Err(applied.error); }
    reservations.MoveAll(nonces, R.Used);
    return Ok(());
  }

  /** Consults the commit marker while holding the reservation lock. */
  method ReleaseReservations(accounts: AccountJournal, reservations: R.ReservationJournal,
                             terminalEpoch: Bytes32, nonces: seq<Bytes32>) returns (r: Result<(), AccountError>)
    modifies accounts, reservations`records, reservations.disk
    ensures (r, reservations.disk.records) ==
            ReleaseSpec(accounts.disk.state, old(reservations.disk.records), terminalEpoch, nonces)
  {
    var checked := reservations.CheckRelease(terminalEpoch, nonces);
    if checked.Err? { return Err(Reservation(checked.error)); }
    R.CheckMeaning(reservations.disk.records, terminalEpoch, nonces, R.Used);
    var committed := accounts.HasAppliedEpoch(terminalEpoch);
    if committed { return Err(StaleSettlement); }
    reservations.MoveAll(nonces, R.Released);
    return Ok(());
  }
}
