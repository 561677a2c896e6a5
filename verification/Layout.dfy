/** Fixed binary layouts: fields written and read through a moving offset. */
module Layout {
  import opened Bytes

  datatype Kind = KByte | KWord | KU32 | KU64 | KI64
  datatype Field = Byte(b: byte) | Word(w: Bytes32) | U32(u: u32) | U64(n: u64) | I64(i: i64)

  function KindOf(f: Field): Kind {
    match f
    case Byte(_) => KByte
    case Word(_) => KWord
    case U32(_) => KU32
    case U64(_) => KU64
    case I64(_) => KI64
  }

  function Width(k: Kind): nat {
    match k
    case KByte => 1
    case KWord => 32
    case KU32 => 4
    case KU64 => 8
    case KI64 => 8
  }

  function Put(f: Field): (r: seq<byte>)
    ensures |r| == Width(KindOf(f))
    ensures Take(KindOf(f), r) == f
  {
    match f
    case Byte(b) => [b]
    case Word(w) => Raw(w)
    case U32(n) => Le32(n)
    case U64(n) => Le64(n)
    case I64(n) => LeI64(n)
  }

  function Take(k: Kind, s: seq<byte>): (f: Field)
    requires |s| == Width(k)
    ensures KindOf(f) == k
  {
    match k
    case KByte => Byte(s[0])
    case KWord => Word(ReadBytes32(s))
    case KU32 => U32(ReadU32(s))
    case KU64 => U64(ReadU64(s))
    case KI64 => I64(ReadI64(s))
  }

  // A field read off as a given kind; the default is never used on what `TakeAll` returns.
  function B(f: Field): byte { if f.Byte? then f.b else 0 }
  function W(f: Field): Bytes32 { if f.Word? then f.w else ZERO }
  function N32(f: Field): u32 { if f.U32? then f.u else 0 }
  function N64(f: Field): u64 { if f.U64? then f.n else 0 }
  function Z64(f: Field): i64 { if f.I64? then f.i else 0 }

  function KindsOf(fs: seq<Field>): (r: seq<Kind>)
    ensures |r| == |fs| && forall i | 0 <= i < |fs| :: r[i] == KindOf(fs[i])
  {
    seq(|fs|, i requires 0 <= i < |fs| => KindOf(fs[i]))
  }

  function Size(kinds: seq<Kind>): nat {
    if kinds == [] then 0 else Width(kinds[0]) + Size(kinds[1..])
  }

  function PutAll(fs: seq<Field>): seq<byte> { EncodeAll(fs, Put) }

  /** The `take_*` helpers: fields read off at a moving cursor. */
  function TakeAll(kinds: seq<Kind>, s: seq<byte>): (fs: seq<Field>)
    requires Size(kinds) <= |s|
    ensures KindsOf(fs) == kinds
  {
    if kinds == [] then []
    else
      var n := Width(kinds[0]);
      [Take(kinds[0], s[..n])] + TakeAll(kinds[1..], s[n..])
  }

  lemma KindsFirst(fs: seq<Field>)
    requires fs != []
    ensures KindsOf(fs) == [KindOf(fs[0])] + KindsOf(fs[1..])
  {
  }

  lemma SizeFirst(k: Kind, kinds: seq<Kind>)
    ensures Size([k] + kinds) == Width(k) + Size(kinds)
  {
    assert ([k] + kinds)[1..] == kinds;
  }

  lemma SizeFive(a: Kind, b: Kind, c: Kind, d: Kind, e: Kind, rest: seq<Kind>)
    ensures Size([a, b, c, d, e] + rest) == Width(a) + Width(b) + Width(c) + Width(d) + Width(e) + Size(rest)
  {
    SizeFirst(e, rest);
    SizeFirst(d, [e] + rest);
    SizeFirst(c, [d] + ([e] + rest));
    SizeFirst(b, [c] + ([d] + ([e] + rest)));
    SizeFirst(a, [b] + ([c] + ([d] + ([e] + rest))));
    assert [a, b, c, d, e] + rest == [a] + ([b] + ([c] + ([d] + ([e] + rest))));
  }

  lemma {:induction false} PutSize(fs: seq<Field>)
    ensures |PutAll(fs)| == Size(KindsOf(fs))
  {
    if fs != [] {
      PutSize(fs[1..]);
      KindsFirst(fs);
      SizeFirst(KindOf(fs[0]), KindsOf(fs[1..]));
    }
  }

  lemma TakeNext(k: Kind, kinds: seq<Kind>, chunk: seq<byte>, rest: seq<byte>)
    requires |chunk| == Width(k) && Size(kinds) <= |rest|
    ensures Size([k] + kinds) <= |chunk + rest|
    ensures TakeAll([k] + kinds, chunk + rest) == [Take(k, chunk)] + TakeAll(kinds, rest)
  {
    SizeFirst(k, kinds);
    assert ([k] + kinds)[1..] == kinds;
    assert (chunk + rest)[..|chunk|] == chunk && (chunk + rest)[|chunk|..] == rest;
  }

  /** Reading back what was written, whatever follows it. */
  lemma {:induction false} RoundTrip(fs: seq<Field>, rest: seq<byte>)
    ensures Size(KindsOf(fs)) <= |PutAll(fs) + rest|
    ensures TakeAll(KindsOf(fs), PutAll(fs) + rest) == fs
  {
    PutSize(fs);
    if fs != [] {
      RoundTrip(fs[1..], rest);
      KindsFirst(fs);
      TakeNext(KindOf(fs[0]), KindsOf(fs[1..]), Put(fs[0]), PutAll(fs[1..]) + rest);
      Assoc(Put(fs[0]), PutAll(fs[1..]), rest);
    }
  }

  lemma PutAllInjective(a: seq<Field>, b: seq<Field>)
    requires KindsOf(a) == KindsOf(b) && PutAll(a) == PutAll(b)
    ensures a == b
  {
    RoundTrip(a, []);
    RoundTrip(b, []);
  }

  lemma PutPart(fs: seq<Field>, i: nat)
    requires i < |fs|
    ensures PutAll(fs[..i + 1]) == PutAll(fs[..i]) + Put(fs[i])
    ensures |PutAll(fs[..i])| + |Put(fs[i])| <= |PutAll(fs)|
  {
    assert fs[..i + 1] == fs[..i] + [fs[i]];
    EncodeAllSnoc(fs[..i], fs[i], Put);
    EncodeAllSplit(fs[..i + 1], fs[i + 1..], Put);
    assert fs == fs[..i + 1] + fs[i + 1..];
  }

  /** The `put_*` helpers: overwrite the array in place, field after field. */
  method PutFields(out: array<byte>, start: nat, fs: seq<Field>) returns (offset: nat)
    requires start + |PutAll(fs)| <= out.Length
    modifies out
    ensures offset == start + |PutAll(fs)|
    ensures out[..] == old(out[..start]) + PutAll(fs) + old(out[offset..])
  {
    offset := start;
    for i := 0 to |fs|
      invariant offset == start + |PutAll(fs[..i])| <= out.Length
      invariant out[..] == old(out[..start]) + PutAll(fs[..i]) + old(out[offset..])
    {
      PutPart(fs, i);
      ghost var was := out[..];
      var bytes := Put(fs[i]);
      WriteAt(out, offset, bytes);
      Spliced(old(out[..]), start, PutAll(fs[..i]), bytes, was, out[..]);
      offset := offset + |bytes|;
    }
    assert fs[..|fs|] == fs;
  }

  lemma Spliced(o: seq<byte>, start: nat, done: seq<byte>, bytes: seq<byte>, was: seq<byte>, now: seq<byte>)
    requires start + |done| + |bytes| <= |o|
    requires was == o[..start] + done + o[start + |done|..]
    requires now == was[..start + |done|] + bytes + was[start + |done| + |bytes|..]
    ensures now == o[..start] + (done + bytes) + o[start + |done| + |bytes|..]
  {
    assert was[..start + |done|] == o[..start] + done;
    assert was[start + |done| + |bytes|..] == o[start + |done| + |bytes|..];
  }

  method WriteAt(out: array<byte>, offset: nat, bytes: seq<byte>)
    requires offset + |bytes| <= out.Length
    modifies out
    ensures out[..] == old(out[..offset]) + bytes + old(out[offset + |bytes|..])
  {
    forall k | 0 <= k < |bytes| { out[offset + k] := bytes[k]; }
  }
}
