/** The bytes of the account file: what is written can be read back, for every state a run can reach. */
module AccountFile {
  import opened Bytes
  import opened Order
  import opened Ledger
  import opened Accounts
  import opened JournalRuns
  import Solvency

  const HEADER: seq<byte> := [0x4B, 0x47, 0x42, 0x41, 0x43, 0x43, 0x32, 0]

  /** Whether 32 bytes are an Ed25519 verifying key. */
  type KeyCheck = Bytes32 -> bool

  // ---- one record, one commit marker ----

  function RecordBytes(r: AccountRecord): (s: seq<byte>)
    ensures |s| == 112
  {
    Raw(r.participant) + Raw(r.tradingKey) + Le64(r.balance.base) + Le64(r.balance.quote) + Raw(r.lastEpoch)
  }

  function ReadRecord(valid: KeyCheck, s: seq<byte>): Option<(Bytes32, AccountRecord)> {
    if |s| != 112 then None
    else
      var r := AccountRecord(ReadBytes32(s[..32]), ReadBytes32(s[32..64]),
                             Balance(ReadU64(s[64..72]), ReadU64(s[72..80])), ReadBytes32(s[80..112]));
      if !valid(r.tradingKey) || r.participant == ZERO || (r.balance.base == 0 && r.balance.quote == 0) then None
      else Some((r.participant, r))
  }

  function MarkBytes(epoch: Bytes32, digest: Bytes32): (s: seq<byte>)
    ensures |s| == 64
  {
    Raw(epoch) + Raw(digest)
  }

  function ReadMark(s: seq<byte>): Option<(Bytes32, Bytes32)> {
    if |s| != 64 then None
    else
      var epoch, digest := ReadBytes32(s[..32]), ReadBytes32(s[32..]);
      if epoch == ZERO || digest == ZERO then None else Some((epoch, digest))
  }

  /** A record that can be stored: filed under its own name, with a usable key and something to own. */
  predicate GoodRecord(valid: KeyCheck, p: Bytes32, r: AccountRecord) {
    r.participant == p && p != ZERO && valid(r.tradingKey) && !(r.balance.base == 0 && r.balance.quote == 0)
  }

  ghost predicate Good(valid: KeyCheck, st: AccountState) {
    && (forall p | p in st.records :: GoodRecord(valid, p, st.records[p]))
    && (forall e | e in st.applied :: e != ZERO && st.applied[e] != ZERO)
  }

  lemma RecordRoundTrip(valid: KeyCheck, r: AccountRecord)
    ensures ReadRecord(valid, RecordBytes(r)) == if GoodRecord(valid, r.participant, r) then Some((r.participant, r))
            else None
  {
    var s := RecordBytes(r);
    assert s[..32] == Raw(r.participant) && s[32..64] == Raw(r.tradingKey) && s[80..112] == Raw(r.lastEpoch);
    assert s[64..72] == Le64(r.balance.base) && s[72..80] == Le64(r.balance.quote);
  }

  lemma MarkRoundTrip(epoch: Bytes32, digest: Bytes32)
    ensures ReadMark(MarkBytes(epoch, digest)) == if epoch == ZERO || digest == ZERO then None
            else Some((epoch, digest))
  {
    var s := MarkBytes(epoch, digest);
    assert s[..32] == Raw(epoch) && s[32..] == Raw(digest);
  }

  // ---- the file, for any encoding of its entries ----

  type Put<!V> = ((Bytes32, V)) -> seq<byte>
  type Get<!V> = seq<byte> -> Option<(Bytes32, V)>

  function Head(st: AccountState): (r: seq<byte>)
    requires Accounts.Fits(st)
    ensures |r| == 16
  {
    HEADER + Le32(|st.records|) + Le32(|st.applied|)
  }

  function Body(putRecord: Put<AccountRecord>, putMark: Put<Bytes32>, st: AccountState): seq<byte>
    requires Accounts.Fits(st)
  {
    Head(st) + (EncodeAll(Entries(st.records), putRecord) + EncodeAll(Entries(st.applied), putMark))
  }

  function Sealed(sha: Sha, body: seq<byte>): seq<byte> { body + Raw(sha(body)) }

  /** The checks before any record is read: header, checksum, and the length the two counts call for. */
  function Frame(sha: Sha, bytes: seq<byte>): (r: Option<(nat, nat)>)
    ensures r.Some? ==> |bytes| == 16 + 112 * r.value.0 + 64 * r.value.1 + 32
  {
    if |bytes| < 48 || bytes[..8] != HEADER then None
    else if Raw(sha(bytes[..|bytes| - 32])) != bytes[|bytes| - 32..] then None
    else
      var n: int, m: int := ReadU32(bytes[8..12]), ReadU32(bytes[12..16]);
      if |bytes| != 16 + 112 * n + 64 * m + 32 then None else Some((n, m))
  }

  function Parse(getRecord: Get<AccountRecord>, getMark: Get<Bytes32>, bytes: seq<byte>, n: nat,
                 m: nat): Option<AccountState>
    requires 16 + 112 * n <= |bytes|
  {
    match ReadEntries(bytes[16..], 112, n, getRecord, map[])
    case None => None
    case Some(records) =>
      match ReadEntries(bytes[16 + 112 * n..], 64, m, getMark, map[])
      case None => None
      case Some(applied) => Some(AccountState(records, applied))
  }

  lemma SealedParts(sha: Sha, body: seq<byte>)
    ensures var bytes := Sealed(sha, body);
            |bytes| == |body| + 32 && bytes[..|bytes| - 32] == body && bytes[|bytes| - 32..] == Raw(sha(body))
  {
  }

  lemma HeadParts(st: AccountState, rest: seq<byte>)
    requires Accounts.Fits(st)
    ensures var bytes := Head(st) + rest;
            bytes[..8] == HEADER && bytes[8..12] == Le32(|st.records|) && bytes[12..16] == Le32(|st.applied|)
  {
  }

  lemma Regroup(head: seq<byte>, a: seq<byte>, b: seq<byte>, sum: seq<byte>)
    ensures head + (a + b) == head + a + b
    ensures head + (a + b) + sum == head + a + b + sum
    ensures head + (a + b) + sum == head + a + (b + sum)
  {
  }

  lemma BodyLength(putRecord: Put<AccountRecord>, putMark: Put<Bytes32>, st: AccountState)
    requires Accounts.Fits(st)
    requires forall e | e in Entries(st.records) :: |putRecord(e)| == 112
    requires forall e | e in Entries(st.applied) :: |putMark(e)| == 64
    ensures |EncodeAll(Entries(st.records), putRecord)| == 112 * |st.records|
    ensures |Body(putRecord, putMark, st)| == 16 + 112 * |st.records| + 64 * |st.applied|
  {
    EncodeAllLength(Entries(st.records), 112, putRecord);
    EncodeAllLength(Entries(st.applied), 64, putMark);
  }

  lemma FrameOf(sha: Sha, st: AccountState, rest: seq<byte>)
    requires Accounts.Fits(st) && |rest| == 112 * |st.records| + 64 * |st.applied|
    ensures Frame(sha, Sealed(sha, Head(st) + rest)) == Some((|st.records|, |st.applied|))
  {
    var body := Head(st) + rest;
    SealedParts(sha, body);
    HeadParts(st, rest + Raw(sha(body)));
    assert Sealed(sha, body) == Head(st) + (rest + Raw(sha(body)));
  }

  lemma FrameOfFile(sha: Sha, putRecord: Put<AccountRecord>, putMark: Put<Bytes32>, st: AccountState)
    requires Accounts.Fits(st)
    requires forall e | e in Entries(st.records) :: |putRecord(e)| == 112
    requires forall e | e in Entries(st.applied) :: |putMark(e)| == 64
    ensures Frame(sha, Sealed(sha, Body(putRecord, putMark, st))) == Some((|st.records|, |st.applied|))
  {
    BodyLength(putRecord, putMark, st);
    FrameOf(sha, st, EncodeAll(Entries(st.records), putRecord) + EncodeAll(Entries(st.applied), putMark));
  }

  /** Records and marks, each read at its own place. */
  lemma ParseParts(getRecord: Get<AccountRecord>, getMark: Get<Bytes32>, head: seq<byte>, a: seq<byte>, b: seq<byte>,
                   sum: seq<byte>, st: AccountState)
    requires |head| == 16 && |a| == 112 * |st.records|
    requires ReadEntries(Order.After(head, a, b + sum), 112, |st.records|, getRecord, map[]) == Some(st.records)
    requires ReadEntries(Order.After(head + a, b, sum), 64, |st.applied|, getMark, map[]) == Some(st.applied)
    ensures 16 + 112 * |st.records| <= |head + (a + b) + sum|
    ensures Parse(getRecord, getMark, head + (a + b) + sum, |st.records|, |st.applied|) == Some(st)
  {
    Regroup(head, a, b, sum);
  }

  /** What was written is read back unchanged, if every entry is. */
  lemma ParseOfFile(sha: Sha, putRecord: Put<AccountRecord>, getRecord: Get<AccountRecord>, putMark: Put<Bytes32>,
                    getMark: Get<Bytes32>, st: AccountState)
    requires Accounts.Fits(st)
    requires forall p | p in st.records :: |putRecord((p, st.records[p]))| == 112
                                           && getRecord(putRecord((p, st.records[p]))) == Some((p, st.records[p]))
    requires forall e | e in st.applied :: |putMark((e, st.applied[e]))| == 64
                                           && getMark(putMark((e, st.applied[e]))) == Some((e, st.applied[e]))
    ensures 16 + 112 * |st.records| <= |Sealed(sha, Body(putRecord, putMark, st))|
    ensures Parse(getRecord, getMark, Sealed(sha, Body(putRecord, putMark, st)), |st.records|, |st.applied|) == Some(st)
  {
    var head, sum := Head(st), Raw(sha(Body(putRecord, putMark, st)));
    var a, b := EncodeAll(Entries(st.records), putRecord), EncodeAll(Entries(st.applied), putMark);
    BodyLength(putRecord, putMark, st);
    ReadBackAt(head, st.records, 112, putRecord, getRecord, b + sum);
    ReadBackAt(head + a, st.applied, 64, putMark, getMark, sum);
    ParseParts(getRecord, getMark, head, a, b, sum, st);
  }

  // ---- the file ----

  const PUT_RECORD: Put<AccountRecord> := (e: (Bytes32, AccountRecord)) => RecordBytes(e.1)
  const PUT_MARK: Put<Bytes32> := (e: (Bytes32, Bytes32)) => MarkBytes(e.0, e.1)
  const GET_MARK: Get<Bytes32> := s => ReadMark(s)

  function GetRecord(valid: KeyCheck): Get<AccountRecord> {
    s => ReadRecord(valid, s)
  }

  function FileBytes(sha: Sha, st: AccountState): seq<byte>
    requires Accounts.Fits(st)
  {
    Sealed(sha, Body(PUT_RECORD, PUT_MARK, st))
  }

  function LoadSpec(sha: Sha, valid: KeyCheck, bytes: seq<byte>): Option<AccountState> {
    match Frame(sha, bytes)
    case None => None
    case Some((n, m)) => Parse(GetRecord(valid), GET_MARK, bytes, n, m)
  }

  /** `persist`: the bytes are appended to a buffer in key order. */
  method Persist(sha: Sha, records: Records, applied: map<Bytes32, Bytes32>)
    returns (r: Result<seq<byte>, AccountError>)
    ensures r == if Accounts.Fits(AccountState(records, applied))
            then Ok(FileBytes(sha, AccountState(records, applied))) else Err(AccountOverflow)
  {
    if |records| > U32_MAX || |applied| > U32_MAX { return Err(AccountOverflow); }
    var bytes := WriteAll(HEADER + Le32(|records|) + Le32(|applied|), Entries(records), PUT_RECORD);
    bytes := WriteAll(bytes, Entries(applied), PUT_MARK);
    Regroup(Head(AccountState(records, applied)), EncodeAll(Entries(records), PUT_RECORD),
      EncodeAll(Entries(applied), PUT_MARK), []);
    return Ok(bytes + Raw(sha(bytes)));
  }

  method ParseEntries(getRecord: Get<AccountRecord>, getMark: Get<Bytes32>, bytes: seq<byte>, n: nat, m: nat)
    returns (r: Option<AccountState>)
    requires 16 + 112 * n + 64 * m <= |bytes|
    ensures r == Parse(getRecord, getMark, bytes, n, m)
  {
    var records := ReadMap(bytes, 16, 112, n, getRecord);
    if records.None? { return None; }
    var applied := ReadMap(bytes, 16 + 112 * n, 64, m, getMark);
    if applied.None? { return None; }
    return Some(AccountState(records.value, applied.value));
  }

  /** `load`, on any bytes at all. */
  method Load(sha: Sha, valid: KeyCheck, bytes: seq<byte>) returns (r: Option<AccountState>)
    ensures r == LoadSpec(sha, valid, bytes)
  {
    var frame := Frame(sha, bytes);
    if frame.None? { return None; }
    r := ParseEntries(GetRecord(valid), GET_MARK, bytes, frame.value.0, frame.value.1);
  }

  lemma EntryRoundTrips(valid: KeyCheck, st: AccountState)
    requires Good(valid, st)
    ensures forall p | p in st.records :: |PUT_RECORD((p, st.records[p]))| == 112
                                          && GetRecord(valid)(PUT_RECORD((p, st.records[p])))
                                            == Some((p, st.records[p]))
    ensures forall e | e in st.applied :: |PUT_MARK((e, st.applied[e]))| == 64
                                          && GET_MARK(PUT_MARK((e, st.applied[e]))) == Some((e, st.applied[e]))
  {
    forall p | p in st.records ensures GetRecord(valid)(PUT_RECORD((p, st.records[p]))) == Some((p, st.records[p])) {
      RecordRoundTrip(valid, st.records[p]);
    }
    forall e | e in st.applied ensures GET_MARK(PUT_MARK((e, st.applied[e]))) == Some((e, st.applied[e])) {
      MarkRoundTrip(e, st.applied[e]);
    }
  }

  lemma FileRoundTrip(sha: Sha, valid: KeyCheck, st: AccountState)
    requires Accounts.Fits(st) && Good(valid, st)
    ensures LoadSpec(sha, valid, FileBytes(sha, st)) == Some(st)
  {
    EntryRoundTrips(valid, st);
    FrameOfFile(sha, PUT_RECORD, PUT_MARK, st);
    ParseOfFile(sha, PUT_RECORD, GetRecord(valid), PUT_MARK, GET_MARK, st);
  }

  // ---- every reachable state can be stored ----

  /** The arguments are values the callers can have: a parsed key, the outcome of a netting, a digest that is not
      zero. */
  ghost predicate Storable(dig: Digester, valid: KeyCheck, op: Op) {
    && (op.Register? ==> valid(op.key))
    && (op.Finalize? ==> ValidConfig(op.cfg) && Solvency.Netted(op.cfg, op.result) && dig(op.result) != ZERO)
  }

  ghost predicate CallsStorable(dig: Digester, valid: KeyCheck, s: Sys) {
    forall h: nat :: Ph(s, h).Idle? || Storable(dig, valid, Ph(s, h).op)
  }

  ghost predicate GoodInv(dig: Digester, valid: KeyCheck, s: Sys) {
    Inv(dig, s) && Good(valid, s.acc) && CallsStorable(dig, valid, s)
  }

  /** Netting never empties an account that owned something. */
  lemma NettingLeavesSomething(cfg: BatchConfig, result: BatchResult, p: Bytes32)
    requires ValidConfig(cfg) && Solvency.Netted(cfg, result) && p in result.after
    ensures p in result.before
    ensures result.before[p].base != 0 || result.before[p].quote != 0
            ==> result.after[p].base != 0 || result.after[p].quote != 0
  {
    Solvency.NettedMovesOneLot(cfg, result);
    assert OneLotMove(cfg, result.before[p], result.after[p]);
  }

  lemma SettleGood(dig: Digester, valid: KeyCheck, st: AccountState, op: Op)
    requires Good(valid, st) && op.Finalize? && Storable(dig, valid, op) && ApplySpec(dig, st, op.epoch, op.result).Ok?
    ensures Good(valid, ApplySpec(dig, st, op.epoch, op.result).value)
  {
    var next := ApplySpec(dig, st, op.epoch, op.result).value;
    forall p | p in next.records ensures GoodRecord(valid, p, next.records[p]) {
      assert GoodRecord(valid, p, st.records[p]);
      if p in op.result.after { NettingLeavesSomething(op.cfg, op.result, p); }
    }
  }

  lemma StepKeepsFileGood(dig: Digester, valid: KeyCheck, s: Sys, step: Step)
    requires GoodInv(dig, valid, s)
    ensures Good(valid, Exec(dig, s, step).acc)
  {
    var ph := Ph(s, step.h);
    AccMoves(dig, s, step);
    if Exec(dig, s, step).acc != s.acc && ph.op.Finalize? { SettleGood(dig, valid, s.acc, ph.op); }
  }

  lemma StepCallsStorable(dig: Digester, valid: KeyCheck, s: Sys, step: Step)
    requires CallsStorable(dig, valid, s) && (step.Begin? ==> Storable(dig, valid, step.op))
    ensures CallsStorable(dig, valid, Exec(dig, s, step))
  {
    var t := Exec(dig, s, step);
    forall h: nat ensures Ph(t, h).Idle? || Storable(dig, valid, Ph(t, h).op) {
      CallFrom(dig, s, step, h);
    }
  }

  lemma StepGood(dig: Digester, valid: KeyCheck, s: Sys, step: Step)
    requires GoodInv(dig, valid, s) && (step.Begin? ==> Storable(dig, valid, step.op))
    ensures GoodInv(dig, valid, Exec(dig, s, step))
  {
    StepInv(dig, s, step);
    StepKeepsFileGood(dig, valid, s, step);
    StepCallsStorable(dig, valid, s, step);
  }

  lemma {:induction false} RunGood(dig: Digester, valid: KeyCheck, s: Sys, steps: seq<Step>)
    requires GoodInv(dig, valid, s) && forall i | 0 <= i < |steps|
             && steps[i].Begin? :: Storable(dig, valid, steps[i].op)
    ensures GoodInv(dig, valid, Run(dig, s, steps))
    decreases |steps|
  {
    if steps != [] {
      StepGood(dig, valid, s, steps[0]);
      RunGood(dig, valid, Exec(dig, s, steps[0]), steps[1..]);
    }
  }

  lemma ReachableGood(dig: Digester, valid: KeyCheck, steps: seq<Step>)
    requires forall i | 0 <= i < |steps| && steps[i].Begin? :: Storable(dig, valid, steps[i].op)
    ensures Accounts.Fits(Run(dig, EMPTY, steps).acc) && Good(valid, Run(dig, EMPTY, steps).acc)
  {
    RunGood(dig, valid, EMPTY, steps);
  }

  /** Whatever interleaving and stops led to it, an account file written by the journal always loads, and loads as the
      state that was written. */
  lemma ReachableFilesLoad(dig: Digester, sha: Sha, valid: KeyCheck, steps: seq<Step>)
    requires forall i | 0 <= i < |steps| && steps[i].Begin? :: Storable(dig, valid, steps[i].op)
    ensures var st := Run(dig, EMPTY, steps).acc;
            Accounts.Fits(st) && LoadSpec(sha, valid, FileBytes(sha, st)) == Some(st)
  {
    ReachableGood(dig, valid, steps);
    FileRoundTrip(sha, valid, Run(dig, EMPTY, steps).acc);
  }
}
