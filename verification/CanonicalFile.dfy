/** The account file is loaded exactly when it is the sealed listing of a state that can be stored. */
module CanonicalFile {
  import opened Bytes
  import opened Order
  import opened Accounts
  import opened AccountFile
  import opened Canonical
  import CanonicalWire

  // ---- entries inserted one by one ----

  /** `r` is `m` with the entries of `xs` added, each under a new key. */
  ghost predicate Adds<V(!new)>(m: map<Bytes32, V>, xs: seq<(Bytes32, V)>, r: map<Bytes32, V>) {
    && (forall i, j | 0 <= i < j < |xs| :: xs[i].0 != xs[j].0)
    && (forall i | 0 <= i < |xs| :: xs[i].0 !in m && xs[i].0 in r && r[xs[i].0] == xs[i].1)
    && (forall k | k in m :: k in r && r[k] == m[k])
    && (forall k | k in r :: k in m || exists i | 0 <= i < |xs| :: xs[i].0 == k)
  }

  /** `xs` is all of `m`, in some order. */
  ghost predicate Lists<V(!new)>(xs: seq<(Bytes32, V)>, m: map<Bytes32, V>) { Adds(map[], xs, m) }

  lemma AddsNone<V(!new)>(m: map<Bytes32, V>, r: map<Bytes32, V>)
    ensures Adds(m, [], r) <==> m == r
  {
  }

  lemma AddsFirst<V(!new)>(m: map<Bytes32, V>, x: (Bytes32, V), xs: seq<(Bytes32, V)>, r: map<Bytes32, V>)
    requires x.0 !in m && Adds(m[x.0 := x.1], xs, r)
    ensures Adds(m, [x] + xs, r)
  {
    var all := [x] + xs;
    forall i | 0 <= i < |all| ensures all[i].0 !in m && all[i].0 in r && r[all[i].0] == all[i].1 {
      if i > 0 { assert all[i] == xs[i - 1]; }
    }
    forall i, j | 0 <= i < j < |all| ensures all[i].0 != all[j].0 {
      assert all[j] == xs[j - 1];
      if i > 0 { assert all[i] == xs[i - 1]; }
    }
    forall k | k in r ensures k in m || exists i | 0 <= i < |all| :: all[i].0 == k {
      if k !in m && k != x.0 {
        var i :| 0 <= i < |xs| && xs[i].0 == k;
        assert all[i + 1].0 == k;
      } else if k == x.0 {
        assert all[0].0 == k;
      }
    }
  }

  lemma AddsRest<V(!new)>(m: map<Bytes32, V>, xs: seq<(Bytes32, V)>, r: map<Bytes32, V>)
    requires xs != [] && Adds(m, xs, r)
    ensures xs[0].0 !in m && Adds(m[xs[0].0 := xs[0].1], xs[1..], r)
  {
    var x, ys, m' := xs[0], xs[1..], m[xs[0].0 := xs[0].1];
    forall i | 0 <= i < |ys| ensures ys[i].0 !in m' && ys[i].0 in r && r[ys[i].0] == ys[i].1 {
      assert ys[i] == xs[i + 1];
    }
    forall i, j | 0 <= i < j < |ys| ensures ys[i].0 != ys[j].0 { assert ys[i] == xs[i + 1] && ys[j] == xs[j + 1]; }
    forall k | k in r ensures k in m' || exists i | 0 <= i < |ys| :: ys[i].0 == k {
      if k !in m' {
        var i :| 0 <= i < |xs| && xs[i].0 == k;
        assert ys[i - 1].0 == k;
      }
    }
  }

  /** What was read was written one entry after the other. */
  lemma {:induction false} EntriesRead<V(!new)>(s: seq<byte>, n: nat, count: nat, enc: ((Bytes32, V)) -> seq<byte>,
      dec: seq<byte> -> Option<(Bytes32, V)>, m: map<Bytes32, V>, r: map<Bytes32, V>)
    returns (xs: seq<(Bytes32, V)>, rest: seq<byte>)
    requires CanonicalWire.Inverts(n, enc, dec) && ReadEntries(s, n, count, dec, m) == Some(r)
    ensures |xs| == count && Adds(m, xs, r) && s == EncodeAll(xs, enc) + rest
    ensures forall x | x in xs :: |enc(x)| == n && dec(enc(x)) == Some(x)
    decreases count
  {
    if count == 0 {
      xs, rest := [], s;
    } else {
      var x := dec(s[..n]).value;
      assert enc(x) == s[..n] && s == s[..n] + s[n..];
      var ys;
      ys, rest := EntriesRead(s[n..], n, count - 1, enc, dec, m[x.0 := x.1], r);
      xs := [x] + ys;
      AddsFirst(m, x, ys, r);
      assert xs[1..] == ys;
      Assoc(enc(x), EncodeAll(ys, enc), rest);
    }
  }

  /** And whatever was written so, in any order, is read. */
  lemma {:induction false} EntriesWritten<V(!new)>(xs: seq<(Bytes32, V)>, n: nat, enc: ((Bytes32, V)) -> seq<byte>,
      dec: seq<byte> -> Option<(Bytes32, V)>, m: map<Bytes32, V>, r: map<Bytes32, V>, rest: seq<byte>)
    requires Adds(m, xs, r) && forall x | x in xs :: |enc(x)| == n && dec(enc(x)) == Some(x)
    ensures ReadEntries(EncodeAll(xs, enc) + rest, n, |xs|, dec, m) == Some(r)
    decreases |xs|
  {
    if xs == [] {
      AddsNone(m, r);
    } else {
      var x := xs[0];
      AddsRest(m, xs, r);
      EntriesWritten(xs[1..], n, enc, dec, m[x.0 := x.1], r, rest);
      ReadNext(enc(x), EncodeAll(xs[1..], enc) + rest, |xs|, dec, m);
      Assoc(enc(x), EncodeAll(xs[1..], enc), rest);
    }
  }

  // ---- the file ----

  lemma RecordCut(s: seq<byte>)
    requires |s| == 112
    ensures s == s[..32] + s[32..64] + s[64..72] + s[72..80] + s[80..112]
  {
  }

  lemma RecordsInvert(valid: KeyCheck)
    ensures CanonicalWire.Inverts(112, PUT_RECORD, GetRecord(valid))
  {
    forall s: seq<byte> | |s| == 112 && GetRecord(valid)(s).Some? ensures PUT_RECORD(GetRecord(valid)(s).value) == s {
      RawOf(s[..32]);
      RawOf(s[32..64]);
      LeOf(s[64..72]);
      LeOf(s[72..80]);
      RawOf(s[80..112]);
      RecordCut(s);
    }
  }

  lemma MarksInvert()
    ensures CanonicalWire.Inverts(64, PUT_MARK, GET_MARK)
  {
    forall s: seq<byte> | |s| == 64 && GET_MARK(s).Some? ensures PUT_MARK(GET_MARK(s).value) == s {
      RawOf(s[..32]);
      RawOf(s[32..]);
      assert s == s[..32] + s[32..];
    }
  }

  ghost predicate Listable(xs: seq<(Bytes32, AccountRecord)>, ys: seq<(Bytes32, Bytes32)>) {
    |xs| <= U32_MAX && |ys| <= U32_MAX
  }

  ghost function Counts(n: u32, m: u32): seq<byte> { HEADER + Le32(n) + Le32(m) }

  /** A file of these records and marks in this order, with its checksum. */
  ghost function FileOf(sha: Sha, xs: seq<(Bytes32, AccountRecord)>, ys: seq<(Bytes32, Bytes32)>): seq<byte>
    requires Listable(xs, ys)
  {
    Sealed(sha, Counts(|xs|, |ys|) + (EncodeAll(xs, PUT_RECORD) + EncodeAll(ys, PUT_MARK)))
  }

  /** Every entry could be read back. */
  ghost predicate Readable(valid: KeyCheck, xs: seq<(Bytes32, AccountRecord)>, ys: seq<(Bytes32, Bytes32)>) {
    && (forall x | x in xs :: GetRecord(valid)(PUT_RECORD(x)) == Some(x))
    && (forall y | y in ys :: GET_MARK(PUT_MARK(y)) == Some(y))
  }

  lemma ReadableIsGood(valid: KeyCheck, xs: seq<(Bytes32, AccountRecord)>, ys: seq<(Bytes32, Bytes32)>,
      st: AccountState)
    requires Lists(xs, st.records) && Lists(ys, st.applied) && Readable(valid, xs, ys)
    ensures Good(valid, st)
  {
    forall p | p in st.records ensures GoodRecord(valid, p, st.records[p]) {
      var i :| 0 <= i < |xs| && xs[i].0 == p;
      assert xs[i] in xs;
      RecordRoundTrip(valid, xs[i].1);
    }
    forall e | e in st.applied ensures e != ZERO && st.applied[e] != ZERO {
      var i :| 0 <= i < |ys| && ys[i].0 == e;
      assert ys[i] in ys;
      MarkRoundTrip(e, st.applied[e]);
    }
  }

  lemma GoodIsReadable(valid: KeyCheck, xs: seq<(Bytes32, AccountRecord)>, ys: seq<(Bytes32, Bytes32)>,
      st: AccountState)
    requires Lists(xs, st.records) && Lists(ys, st.applied) && Good(valid, st)
    ensures Readable(valid, xs, ys)
  {
    forall x | x in xs ensures GetRecord(valid)(PUT_RECORD(x)) == Some(x) { RecordRoundTrip(valid, x.1); }
    forall y | y in ys ensures GET_MARK(PUT_MARK(y)) == Some(y) { MarkRoundTrip(y.0, y.1); }
  }

  lemma FramePieces(sha: Sha, bytes: seq<byte>)
    requires Frame(sha, bytes).Some?
    ensures var (n, m) := Frame(sha, bytes).value;
            && n <= U32_MAX && m <= U32_MAX && bytes[..16] == Counts(n, m)
            && bytes == bytes[..|bytes| - 32] + Raw(sha(bytes[..|bytes| - 32]))
  {
    CanonicalWire.CountRead(bytes[8..12]);
    CanonicalWire.CountRead(bytes[12..16]);
    assert bytes[..16] == bytes[..8] + bytes[8..12] + bytes[12..16];
    assert bytes == bytes[..|bytes| - 32] + bytes[|bytes| - 32..];
  }

  lemma FrameWritten(sha: Sha, n: u32, m: u32, rest: seq<byte>)
    requires |rest| == 112 * n + 64 * m
    ensures Frame(sha, Sealed(sha, Counts(n, m) + rest)) == Some((n, m))
  {
    var body := Counts(n, m) + rest;
    var bytes := Sealed(sha, body);
    SealedParts(sha, body);
    assert bytes[..8] == HEADER && bytes[8..12] == Le32(n) && bytes[12..16] == Le32(m);
  }

  lemma EntrySizes(xs: seq<(Bytes32, AccountRecord)>, ys: seq<(Bytes32, Bytes32)>)
    ensures |EncodeAll(xs, PUT_RECORD)| == 112 * |xs| && |EncodeAll(ys, PUT_MARK)| == 64 * |ys|
  {
    EncodeAllLength(xs, 112, PUT_RECORD);
    EncodeAllLength(ys, 64, PUT_MARK);
  }

  /** Two stretches that follow one another up to the checksum. */
  lemma Stretches(bytes: seq<byte>, a: seq<byte>, b: seq<byte>, rest: seq<byte>, more: seq<byte>)
    requires |bytes| == 16 + |a| + |b| + 32
    requires bytes[16..] == a + rest && bytes[16 + |a|..] == b + more
    ensures bytes[..|bytes| - 32] == bytes[..16] + (a + b)
  {
    var body := bytes[..|bytes| - 32];
    assert bytes[16..][..|a|] == a && bytes[16 + |a|..][..|b|] == b;
    assert body == bytes[..16] + bytes[16..16 + |a|] + bytes[16 + |a|..16 + |a| + |b|];
  }

  lemma ParseRead(valid: KeyCheck, bytes: seq<byte>, n: nat, m: nat, st: AccountState)
    returns (xs: seq<(Bytes32, AccountRecord)>, ys: seq<(Bytes32, Bytes32)>)
    requires |bytes| == 16 + 112 * n + 64 * m + 32 && Parse(GetRecord(valid), GET_MARK, bytes, n, m) == Some(st)
    ensures |xs| == n && |ys| == m && Lists(xs, st.records) && Lists(ys, st.applied) && Readable(valid, xs, ys)
    ensures bytes[..|bytes| - 32] == bytes[..16] + (EncodeAll(xs, PUT_RECORD) + EncodeAll(ys, PUT_MARK))
  {
    RecordsInvert(valid);
    MarksInvert();
    var rest, more;
    xs, rest := EntriesRead(bytes[16..], 112, n, PUT_RECORD, GetRecord(valid), map[], st.records);
    ys, more := EntriesRead(bytes[16 + 112 * n..], 64, m, PUT_MARK, GET_MARK, map[], st.applied);
    EntrySizes(xs, ys);
    Stretches(bytes, EncodeAll(xs, PUT_RECORD), EncodeAll(ys, PUT_MARK), rest, more);
  }

  /** The file is some listing of this state. */
  ghost predicate Stores(sha: Sha, bytes: seq<byte>, st: AccountState) {
    exists xs, ys | Listable(xs, ys) && Lists(xs, st.records) && Lists(ys, st.applied) :: bytes == FileOf(sha, xs, ys)
  }

  lemma LoadRead(sha: Sha, valid: KeyCheck, bytes: seq<byte>, st: AccountState)
    requires LoadSpec(sha, valid, bytes) == Some(st)
    ensures Good(valid, st) && Stores(sha, bytes, st)
  {
    var (n, m) := Frame(sha, bytes).value;
    var xs, ys := ParseRead(valid, bytes, n, m, st);
    FramePieces(sha, bytes);
    ReadableIsGood(valid, xs, ys, st);
    assert bytes == FileOf(sha, xs, ys);
  }

  lemma Suffixes(head: seq<byte>, a: seq<byte>, b: seq<byte>, sum: seq<byte>)
    ensures var bytes := head + (a + b) + sum;
            bytes[|head|..] == a + (b + sum) && bytes[|head| + |a|..] == b + sum
  {
    var bytes := head + (a + b) + sum;
    assert bytes == head + (a + (b + sum));
  }

  lemma ParseWritten(valid: KeyCheck, a: seq<byte>, b: seq<byte>, n: nat, m: nat, st: AccountState, head: seq<byte>,
      sum: seq<byte>)
    requires |head| == 16 && |a| == 112 * n
    requires ReadEntries(a + (b + sum), 112, n, GetRecord(valid), map[]) == Some(st.records)
    requires ReadEntries(b + sum, 64, m, GET_MARK, map[]) == Some(st.applied)
    ensures var bytes := head + (a + b) + sum;
            16 + 112 * n <= |bytes| && Parse(GetRecord(valid), GET_MARK, bytes, n, m) == Some(st)
  {
    Suffixes(head, a, b, sum);
  }

  lemma LoadWritten(sha: Sha, valid: KeyCheck, xs: seq<(Bytes32, AccountRecord)>, ys: seq<(Bytes32, Bytes32)>,
      st: AccountState)
    requires Listable(xs, ys) && Lists(xs, st.records) && Lists(ys, st.applied) && Good(valid, st)
    ensures LoadSpec(sha, valid, FileOf(sha, xs, ys)) == Some(st)
  {
    var a, b, head := EncodeAll(xs, PUT_RECORD), EncodeAll(ys, PUT_MARK), Counts(|xs|, |ys|);
    var sum := Raw(sha(head + (a + b)));
    GoodIsReadable(valid, xs, ys, st);
    EntrySizes(xs, ys);
    FrameWritten(sha, |xs|, |ys|, a + b);
    EntriesWritten(xs, 112, PUT_RECORD, GetRecord(valid), map[], st.records, b + sum);
    EntriesWritten(ys, 64, PUT_MARK, GET_MARK, map[], st.applied, sum);
    ParseWritten(valid, a, b, |xs|, |ys|, st, head, sum);
  }

  /** The file is loaded as this state exactly when the state could be stored and the file is a sealed listing of
      it: the header, the two counts, every record and every commit marker once, in any order, and the checksum. */
  lemma LoadIff(sha: Sha, valid: KeyCheck, bytes: seq<byte>, st: AccountState)
    ensures LoadSpec(sha, valid, bytes) == Some(st) <==> Good(valid, st) && Stores(sha, bytes, st)
  {
    if LoadSpec(sha, valid, bytes) == Some(st) {
      LoadRead(sha, valid, bytes, st);
    } else if Good(valid, st) && Stores(sha, bytes, st) {
      var xs, ys :| Listable(xs, ys) && Lists(xs, st.records) && Lists(ys, st.applied) && bytes == FileOf(sha, xs, ys);
      LoadWritten(sha, valid, xs, ys, st);
    }
  }
}
