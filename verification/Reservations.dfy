/** The reservation journal: which participant's atoms are set aside for which epoch. */
module Reservations {
  import opened Bytes
  import Order
  import opened Sums
  import opened Ledger

  datatype Status = Reserved | Used | Released
  datatype Record = Record(nonce: Bytes32, epoch: Bytes32, participant: Bytes32, base: u64, quote: u64, status: Status)
  type File = map<Bytes32, Record>

  datatype JournalError =
    | DuplicateNonce
    | UnknownNonce
    | InvalidTransition
    | InvalidAmount
    | InsufficientBalance
    | JournalOverflow

  /** `ReservationRecord::new`. */
  function NewRecord(nonce: Bytes32, epoch: Bytes32, participant: Bytes32, base: u64,
                     quote: u64): Result<Record, JournalError> {
    if nonce == ZERO || epoch == ZERO || participant == ZERO || base == 0 || quote == 0 then Err(InvalidAmount)
    else Ok(Record(nonce, epoch, participant, base, quote, Reserved))
  }

  // ---- sums of reserved atoms ----

  function BaseHeld(file: File, p: Bytes32): Bytes32 -> int {
    n => if n in file && file[n].participant == p && file[n].status == Reserved then file[n].base else 0
  }

  function QuoteHeld(file: File, p: Bytes32): Bytes32 -> int {
    n => if n in file && file[n].participant == p && file[n].status == Reserved then file[n].quote else 0
  }

  ghost function ReservedBase(file: File, p: Bytes32): int { Sum(file.Keys, BaseHeld(file, p)) }
  ghost function ReservedQuote(file: File, p: Bytes32): int { Sum(file.Keys, QuoteHeld(file, p)) }

  /** The count field of the file is a `u32`; a larger journal is not written. */
  ghost predicate Fits(file: File) { |file| <= U32_MAX }

  // ---- specification of the operations ----

  /** `reserve`: the new reservation and everything still reserved must be covered by `available`. */
  ghost function ReserveSpec(file: File, rec: Record, available: Balance): Result<File, JournalError> {
    if rec.nonce in file then Err(DuplicateNonce)
    else
      var base := ReservedBase(file, rec.participant) + rec.base;
      var quote := ReservedQuote(file, rec.participant) + rec.quote;
      if base > U64_MAX || quote > U64_MAX then Err(JournalOverflow)
      else if available.base < base || available.quote < quote then Err(InsufficientBalance)
      else if !Fits(file[rec.nonce := rec]) then Err(JournalOverflow)
      else Ok(file[rec.nonce := rec])
  }

  /** The checking loop shared by finalisation (`bad` is Released) and release (`bad` is Used). */
  function CheckFrom(file: File, epoch: Bytes32, nonces: seq<Bytes32>, bad: Status, i: nat): Option<JournalError>
    requires i <= |nonces|
    decreases |nonces| - i
  {
    if i == |nonces| then None
    else if nonces[i] in nonces[..i] then Some(InvalidTransition)
    else if nonces[i] !in file then Some(UnknownNonce)
    else if file[nonces[i]].epoch != epoch || file[nonces[i]].status == bad then Some(InvalidTransition)
    else CheckFrom(file, epoch, nonces, bad, i + 1)
  }

  function Participants(file: File, nonces: seq<Bytes32>): set<Bytes32> {
    set n | n in nonces && n in file :: file[n].participant
  }

  predicate AnyUsed(file: File, nonces: seq<Bytes32>) {
    exists n | n in nonces :: n in file && file[n].status == Used
  }

  /** The checks of `finalize_epoch` before it applies the result; `Ok` carries `had_used`. */
  function FinalizeCheck(file: File, epoch: Bytes32, nonces: seq<Bytes32>,
                         members: set<Bytes32>): Result<bool, JournalError> {
    var bad := CheckFrom(file, epoch, nonces, Released, 0);
    if bad.Some? then Err(bad.value)
    else if |nonces| != |members| || Participants(file, nonces) != members then Err(InvalidTransition)
    else Ok(AnyUsed(file, nonces))
  }

  /** The checks of `release_epoch_checked` before it consults the commit marker. */
  function ReleaseCheck(file: File, epoch: Bytes32, nonces: seq<Bytes32>): Result<(), JournalError> {
    var bad := CheckFrom(file, epoch, nonces, Used, 0);
    if bad.Some? then Err(bad.value) else Ok(())
  }

  /** Every reservation of `nonces` still Reserved moves to `to`; the rest of the file stays. */
  function Mark(file: File, nonces: seq<Bytes32>, to: Status): File {
    map n | n in file :: if n in nonces && file[n].status == Reserved then file[n].(status := to) else file[n]
  }

  lemma MarkKeeps(file: File, nonces: seq<Bytes32>, to: Status)
    ensures Mark(file, nonces, to).Keys == file.Keys
    ensures |Mark(file, nonces, to)| == |file|
  {
    var m := Mark(file, nonces, to);
    assert m.Keys == file.Keys;
    assert |m| == |m.Keys| && |file| == |file.Keys|;
  }

  // ---- what the checks mean ----

  ghost predicate Passes(file: File, epoch: Bytes32, n: Bytes32, bad: Status) {
    n in file && file[n].epoch == epoch && file[n].status != bad
  }

  lemma {:induction false} CheckFromMeaning(file: File, epoch: Bytes32, nonces: seq<Bytes32>, bad: Status, i: nat)
    requires i <= |nonces|
    ensures CheckFrom(file, epoch, nonces, bad, i).None? <==>
            forall k | i <= k < |nonces| :: nonces[k] !in nonces[..k] && Passes(file, epoch, nonces[k], bad)
    decreases |nonces| - i
  {
    if i < |nonces| { CheckFromMeaning(file, epoch, nonces, bad, i + 1); }
  }

  /** The checking loop accepts exactly distinct nonces of this epoch, none of them in state `bad`. */
  lemma CheckMeaning(file: File, epoch: Bytes32, nonces: seq<Bytes32>, bad: Status)
    ensures CheckFrom(file, epoch, nonces, bad, 0).None? <==>
            Order.Distinct(nonces) && forall n | n in nonces :: Passes(file, epoch, n, bad)
  {
    CheckFromMeaning(file, epoch, nonces, bad, 0);
    if Order.Distinct(nonces) {
      forall k | 0 <= k < |nonces| ensures nonces[k] !in nonces[..k] {
      }
    } else {
      var i, j :| 0 <= i < j < |nonces| && nonces[i] == nonces[j];
      assert nonces[..j][i] == nonces[j];
    }
  }

  lemma {:induction false} ParticipantsSize(file: File, nonces: seq<Bytes32>)
    ensures |Participants(file, nonces)| <= |nonces|
  {
    if nonces != [] {
      ParticipantsSize(file, nonces[1..]);
      var first: set<Bytes32> := if nonces[0] in file then {file[nonces[0]].participant} else {};
      assert Participants(file, nonces) == first + Participants(file, nonces[1..]);
    }
  }

  /** Pigeonhole: as many participants as nonces, so no two nonces belong to one participant. */
  lemma OneNonceEach(file: File, nonces: seq<Bytes32>, i: nat, j: nat)
    requires i < j < |nonces| && nonces[i] in file && nonces[j] in file
    requires |Participants(file, nonces)| == |nonces|
    ensures file[nonces[i]].participant != file[nonces[j]].participant
  {
    var rest := Order.Drop(nonces, j);
    ParticipantsSize(file, rest);
    if file[nonces[i]].participant == file[nonces[j]].participant {
      assert rest[i] == nonces[i];
      forall n | n in nonces && n in file ensures file[n].participant in Participants(file, rest) {
        var k :| 0 <= k < |nonces| && nonces[k] == n;
        assert k < j ==> rest[k] == n;
        assert k > j ==> rest[k - 1] == n;
      }
      assert Participants(file, nonces) <= Participants(file, rest);
      Order.SubsetSize(Participants(file, nonces), Participants(file, rest));
    }
  }

  /** An accepted finalisation names exactly one nonce of every member, and only of members. */
  lemma FinalizeMeaning(file: File, epoch: Bytes32, nonces: seq<Bytes32>, members: set<Bytes32>)
    requires FinalizeCheck(file, epoch, nonces, members).Ok?
    ensures forall n | n in nonces :: Passes(file, epoch, n, Released) && file[n].participant in members
    ensures forall m | m in members :: exists n | n in nonces :: n in file && file[n].participant == m
    ensures forall n, m | n in nonces && m in nonces && n in file && m in file
            && file[n].participant == file[m].participant :: n == m
    ensures !FinalizeCheck(file, epoch, nonces, members).value ==>
              forall n | n in nonces :: n in file && file[n].status == Reserved
  {
    CheckMeaning(file, epoch, nonces, Released);
    forall n | n in nonces ensures n in file && file[n].participant in members {
      assert file[n].participant in Participants(file, nonces);
    }
    forall m | m in members ensures exists n | n in nonces :: n in file && file[n].participant == m {
      assert m in Participants(file, nonces);
    }
    forall n, m | n in nonces && m in nonces && n in file && m in file
        && file[n].participant == file[m].participant ensures n == m {
      var i :| 0 <= i < |nonces| && nonces[i] == n;
      var j :| 0 <= j < |nonces| && nonces[j] == m;
      if i < j { OneNonceEach(file, nonces, i, j); } else if j < i { OneNonceEach(file, nonces, j, i); }
    }
  }

  /** Re-checking the same finalisation after statuses moved forward still passes. */
  lemma FinalizeRecheck(file: File, later: File, epoch: Bytes32, nonces: seq<Bytes32>, members: set<Bytes32>)
    requires FinalizeCheck(file, epoch, nonces, members).Ok?
    requires file.Keys <= later.Keys
    requires forall n | n in file :: file[n].(status := later[n].status) == later[n]
    requires forall n | n in nonces && n in later :: later[n].status != Released
    ensures FinalizeCheck(later, epoch, nonces, members).Ok?
  {
    CheckMeaning(file, epoch, nonces, Released);
    CheckMeaning(later, epoch, nonces, Released);
    forall n | n in nonces ensures Passes(later, epoch, n, Released) {
      assert Passes(file, epoch, n, Released);
    }
    forall m ensures m in Participants(file, nonces) <==> m in Participants(later, nonces) {
      if m in Participants(file, nonces) {
        var n :| n in nonces && n in file && file[n].participant == m;
        assert later[n].participant == m;
      }
      if m in Participants(later, nonces) {
        var n :| n in nonces && n in later && later[n].participant == m;
        assert Passes(file, epoch, n, Released);
      }
    }
    assert Participants(file, nonces) == Participants(later, nonces);
  }

  // ---- the journal object ----

  /** The file behind a journal's path; several journal handles may share one. */
  class Disk {
    var records: File
    constructor ()
      ensures records == map[]
    { records := map[]; }
  }

  class ReservationJournal {
    const disk: Disk
    var records: File

    constructor Open(disk: Disk)
      ensures this.disk == disk && records == disk.records
    {
      this.disk := disk;
      records := disk.records;
    }

    /** The fold over reserved records; `None` is an overflow of either running sum. */
    method SumReserved(current: File, p: Bytes32) returns (r: Option<(int, int)>)
      ensures r.Some? <==> ReservedBase(current, p) <= U64_MAX && ReservedQuote(current, p) <= U64_MAX
      ensures r.Some? ==> r.value == (ReservedBase(current, p), ReservedQuote(current, p))
    {
      var base, quote := 0, 0;
      var rest := current.Keys;
      while rest != {}
        invariant rest <= current.Keys
        invariant base == ReservedBase(current, p) - Sum(rest, BaseHeld(current, p))
        invariant quote == ReservedQuote(current, p) - Sum(rest, QuoteHeld(current, p))
        invariant base <= U64_MAX && quote <= U64_MAX
      {
        var n :| n in rest;
        SumSplit(rest, BaseHeld(current, p), n);
        SumSplit(rest, QuoteHeld(current, p), n);
        rest := rest - {n};
        SumBounds(rest, BaseHeld(current, p), U64_MAX);
        SumBounds(rest, QuoteHeld(current, p), U64_MAX);
        if current[n].participant == p && current[n].status == Reserved {
          base, quote := base + current[n].base, quote + current[n].quote;
          if base > U64_MAX || quote > U64_MAX { return None; }
        }
      }
      return Some((base, quote));
    }

    method Reserve(rec: Record, available: Balance) returns (r: Result<(), JournalError>)
      modifies this`records, disk
      ensures match ReserveSpec(old(disk.records), rec, available)
              case Ok(next) => r == Ok(()) && disk.records == next && records == next
              case Err(e) => r == Err(e) && disk.records == old(disk.records) && records == old(records)
    {
      var current := disk.records;
      if rec.nonce in current { return Err(DuplicateNonce); }
      var held := SumReserved(current, rec.participant);
      if held.None? { return Err(JournalOverflow); }
      var base, quote := held.value.0 + rec.base, held.value.1 + rec.quote;
      if base > U64_MAX || quote > U64_MAX { return Err(JournalOverflow); }
      if available.base < base || available.quote < quote { return Err(InsufficientBalance); }
      current := current[rec.nonce := rec];
      if |current| > U32_MAX { return Err(JournalOverflow); }
      disk.records := current;
      records := current;
      return Ok(());
    }

    /** The first half of `finalize_epoch`. */
    method CheckFinalize(epoch: Bytes32, nonces: seq<Bytes32>, expected: set<Bytes32>)
      returns (r: Result<bool, JournalError>)
      ensures r == FinalizeCheck(disk.records, epoch, nonces, expected)
    {
      var current := disk.records;
      var seen: set<Bytes32>, members: set<Bytes32>, hadUsed := {}, {}, false;
      for i := 0 to |nonces|
        invariant CheckFrom(current, epoch, nonces, Released, 0) == CheckFrom(current, epoch, nonces, Released, i)
        invariant seen == set n | n in nonces[..i]
        invariant members == Participants(current, nonces[..i])
        invariant hadUsed == AnyUsed(current, nonces[..i])
      {
        var n := nonces[i];
        assert nonces[..i + 1] == nonces[..i] + [n];
        if n in seen { return Err(InvalidTransition); }
        seen := seen + {n};
        if n !in current { return Err(UnknownNonce); }
        if current[n].epoch != epoch || current[n].status == Released { return Err(InvalidTransition); }
        hadUsed := hadUsed || current[n].status == Used;
        members := members + {current[n].participant};
      }
      assert nonces[..|nonces|] == nonces;
      if |nonces| != |expected| || members != expected { return Err(InvalidTransition); }
      return Ok(hadUsed);
    }

    /** The checks of `release_epoch_checked`. */
    method CheckRelease(epoch: Bytes32, nonces: seq<Bytes32>) returns (r: Result<(), JournalError>)
      ensures r == ReleaseCheck(disk.records, epoch, nonces)
    {
      var current := disk.records;
      var seen: set<Bytes32> := {};
      for i := 0 to |nonces|
        invariant CheckFrom(current, epoch, nonces, Used, 0) == CheckFrom(current, epoch, nonces, Used, i)
        invariant seen == set n | n in nonces[..i]
      {
        var n := nonces[i];
        assert nonces[..i + 1] == nonces[..i] + [n];
        if n in seen { return Err(InvalidTransition); }
        seen := seen + {n};
        if n !in current { return Err(UnknownNonce); }
        if current[n].epoch != epoch || current[n].status == Used { return Err(InvalidTransition); }
      }
      return Ok(());
    }

    /** The second half of both: moves every still Reserved nonce and replaces the file if one moved. */
    method MoveAll(nonces: seq<Bytes32>, to: Status)
      requires forall n | n in nonces :: n in disk.records
      requires to != Reserved
      modifies this`records, disk
      ensures disk.records == Mark(old(disk.records), nonces, to)
      ensures records == disk.records
    {
      var current, changed := disk.records, false;
      ghost var start := current;
      for i := 0 to |nonces|
        invariant current == Mark(start, nonces[..i], to)
        invariant !changed ==> current == start
      {
        var n := nonces[i];
        assert nonces[..i + 1] == nonces[..i] + [n];
        if current[n].status == Reserved {
          current := current[n := current[n].(status := to)];
          changed := true;
        }
      }
      assert nonces[..|nonces|] == nonces;
      if changed { disk.records := current; }
      records := current;
    }
  }
}
