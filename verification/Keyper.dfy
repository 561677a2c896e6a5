/** A keyper: its lock journal, when it approves a lock and when it releases a share. */
module Keyper {
  import opened Bytes
  import opened Order
  import opened Wire
  import opened ChainState
  import opened HostChain
  import opened Submission
  import opened LockPackage

  type Digests = map<Bytes32, Bytes32>

  /** The two files of a journal path: the initialisation marker and the journal itself. */
  datatype Files = Files(marker: bool, journal: Option<Digests>)

  // ---- specification ----

  /** `LockJournal::open`: both files absent means a first start, both present a restart, anything else is corrupt. */
  function OpenSpec(files: Files): Result<(Files, Digests), LockError> {
    if !files.marker && files.journal.None? then Ok((Files(true, Some(map[])), map[]))
    else if files.marker && files.journal.Some? then Ok((files, files.journal.value))
    else Err(CorruptJournal)
  }

  /** `LockJournal::record`: the first digest of an epoch stays. */
  function RecordSpec(files: Files, epoch: Bytes32, digest: Bytes32): Result<Digests, LockError> {
    if files.journal.None? then Err(CorruptJournal)
    else
      var m := files.journal.value;
      if epoch in m then (if m[epoch] == digest then Ok(m) else Err(ConflictingLock))
      else if |m| >= U32_MAX then Err(CorruptJournal)
      else Ok(m[epoch := digest])
  }

  /** Recording keeps every earlier digest and holds the new one. */
  lemma RecordKeeps(files: Files, epoch: Bytes32, digest: Bytes32)
    requires RecordSpec(files, epoch, digest).Ok?
    ensures var m := RecordSpec(files, epoch, digest).value;
            && files.journal.Some? && epoch in m && m[epoch] == digest
            && forall e | e in files.journal.value :: e in m && m[e] == files.journal.value[e]
  {
  }

  function KeyOf(k: Keypers, i: nat): Option<Bytes32> {
    if i == 0 then Some(k.k0) else if i == 1 then Some(k.k1) else if i == 2 then Some(k.k2) else None
  }

  /** What `sign_lock` decides before it touches the journal. `secretFits` says that the keyper's secret share
      belongs to this keyper, this epoch and this key set. */
  ghost function ApproveSpec(c: Crypto, index: nat, key: Bytes32, p: Package, open: ConfirmedOpen,
                             secretFits: bool): Result<LockPayload, LockError> {
    if KeyOf(open.configuration.keypers, index) != Some(key) || !secretFits then Err(WrongKeyper)
    else
      var r := ValidateSpec(c, p, open);
      if r.Err? then Err(r.error) else Ok(PayloadOf(c, p))
  }

  function CipherHash(c: Crypto): EncryptedSubmission -> Bytes32 { (s: EncryptedSubmission) => c.sha(s.ciphertext) }

  /** What `release_share` decides; `Ok` is the ciphertext whose share goes out. */
  ghost function ReleaseSpec(c: Crypto, index: nat, key: Bytes32, known: Digests, p: Package, confirmed: ConfirmedLock,
                             secretFits: bool, member: nat): Result<seq<byte>, LockError> {
    var r := ValidateLockedSpec(c, p, confirmed);
    if r.Err? then Err(r.error)
    else if confirmed.pool.None? || KeyOf(confirmed.pool.value.keypers, index) != Some(key) then Err(WrongKeyper)
    else if !(p.epochAccount in known && known[p.epochAccount] == r.value) || !secretFits then Err(WrongKeyper)
    else ShareOf(c, p.submissions, member)
  }

  /** The share asked for, represented by the ciphertext it decrypts. */
  ghost function ShareOf(c: Crypto, subs: seq<EncryptedSubmission>, member: nat): Result<seq<byte>, LockError> {
    if member >= |subs| || !Distinct(Map(subs, CipherHash(c))) then Err(InvalidSubmission)
    else Ok(subs[member].ciphertext)
  }

  // ---- objects ----

  class Disk {
    var files: Files
    constructor ()
      ensures files == Files(false, None)
    { files := Files(false, None); }
  }

  class LockJournal {
    const disk: Disk
    var records: Digests

    constructor Attach(disk: Disk, records: Digests)
      ensures this.disk == disk && this.records == records
    { this.disk, this.records := disk, records; }

    static method Open(disk: Disk) returns (r: Result<LockJournal, LockError>)
      modifies disk
      ensures match OpenSpec(old(disk.files))
              case Ok((files, records)) => r.Ok? && fresh(r.value) && disk.files == files && r.value.disk == disk
                                           && r.value.records == records
              case Err(e) => r == Err(e) && disk.files == old(disk.files)
    {
      if !disk.files.marker && disk.files.journal.None? {
        disk.files := disk.files.(marker := true);
        disk.files := disk.files.(journal := Some(map[]));
      } else if !disk.files.marker || disk.files.journal.None? {
        return Err(CorruptJournal);
      }
      var journal := new LockJournal.Attach(disk, disk.files.journal.value);
      return Ok(journal);
    }

    function Digest(epoch: Bytes32): Option<Bytes32>
      reads this
    {
      if epoch in records then Some(records[epoch]) else None
    }

    method Record(epoch: Bytes32, digest: Bytes32) returns (r: Result<(), LockError>)
      modifies this, disk
      ensures match RecordSpec(old(disk.files), epoch, digest)
              case Ok(m) => r == Ok(()) && disk.files == old(disk.files).(journal := Some(m)) && records == m
              case Err(e) => r == Err(e) && disk.files == old(disk.files) && records == old(records)
    {
      if disk.files.journal.None? { return Err(CorruptJournal); }
      var current := disk.files.journal.value;
      if epoch in current {
        if current[epoch] != digest { return Err(ConflictingLock); }
        records := current;
        return Ok(());
      }
      if |current| >= U32_MAX { return Err(CorruptJournal); }
      current := current[epoch := digest];
      disk.files := disk.files.(journal := Some(current));
      records := current;
      return Ok(());
    }
  }

  class ReferenceKeyper {
    const index: nat
    const key: Bytes32
    const journal: LockJournal

    constructor (index: nat, key: Bytes32, journal: LockJournal)
      ensures this.index == index && this.key == key && this.journal == journal
    { this.index, this.key, this.journal := index, key, journal; }

    method Approve(c: Crypto, p: Package, open: ConfirmedOpen, secretFits: bool)
      returns (r: Result<LockPayload, LockError>)
      ensures r == ApproveSpec(c, index, key, p, open, secretFits)
    {
      if KeyOf(open.configuration.keypers, index) != Some(key) || !secretFits { return Err(WrongKeyper); }
      var valid := Validate(c, p, open);
      if valid.Err? { return Err(valid.error); }
      return Ok(PayloadOf(c, p));
    }

    /** The digest to sign: it is on disk before this returns. */
    method SignLock(c: Crypto, p: Package, open: ConfirmedOpen, secretFits: bool)
      returns (r: Result<Bytes32, LockError>)
      modifies journal, journal.disk
      ensures match ApproveSpec(c, index, key, p, open, secretFits)
              case Err(e) => r == Err(e) && journal.disk.files == old(journal.disk.files)
              case Ok(payload) =>
                var digest := LockDigest(c.sha, payload);
                match RecordSpec(old(journal.disk.files), p.epochAccount, digest)
                case Err(e) => r == Err(e) && journal.disk.files == old(journal.disk.files)
                case Ok(m) => r == Ok(digest) && journal.disk.files == old(journal.disk.files).(journal := Some(m))
    {
      var approved := Approve(c, p, open, secretFits);
      if approved.Err? { return Err(approved.error); }
      var digest := LockDigest(c.sha, approved.value);
      var recorded := journal.Record(p.epochAccount, digest);
      if recorded.Err? { return Err(recorded.error); }
      return Ok(digest);
    }

    method ReleaseShare(c: Crypto, p: Package, confirmed: ConfirmedLock, secretFits: bool, member: nat)
      returns (r: Result<seq<byte>, LockError>)
      ensures r == ReleaseSpec(c, index, key, journal.records, p, confirmed, secretFits, member)
    {
      var valid := ValidateLocked(c, p, confirmed);
      if valid.Err? { return Err(valid.error); }
      if confirmed.pool.None? || KeyOf(confirmed.pool.value.keypers, index) != Some(key) { return Err(WrongKeyper); }
      if journal.Digest(p.epochAccount) != Some(valid.value) || !secretFits { return Err(WrongKeyper); }
      r := FindShare(c, p.submissions, member);
    }
  }

  method FindShare(c: Crypto, subs: seq<EncryptedSubmission>, member: nat) returns (r: Result<seq<byte>, LockError>)
    ensures r == ShareOf(c, subs, member)
  {
    if member >= |subs| { return Err(InvalidSubmission); }
    var apart := AllCiphersApart(c, subs);
    if !apart { return Err(InvalidSubmission); }
    return Ok(subs[member].ciphertext);
  }

  method AllCiphersApart(c: Crypto, subs: seq<EncryptedSubmission>) returns (ok: bool)
    ensures ok == Distinct(Map(subs, CipherHash(c)))
  {
    var seen: set<Bytes32> := {};
    for i := 0 to |subs|
      invariant forall h :: h in seen <==> exists j | 0 <= j < i :: c.sha(subs[j].ciphertext) == h
      invariant forall j, k | 0 <= j < k < i :: c.sha(subs[j].ciphertext) != c.sha(subs[k].ciphertext)
    {
      var h := c.sha(subs[i].ciphertext);
      if h in seen {
        ghost var j :| 0 <= j < i && c.sha(subs[j].ciphertext) == h;
        assert Map(subs, CipherHash(c))[j] == Map(subs, CipherHash(c))[i];
        return false;
      }
      seen := seen + {h};
    }
    return true;
  }
}
