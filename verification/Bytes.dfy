/** Machine integers, byte strings and the little-endian encodings every codec of the system uses. */
module Bytes {

  datatype Option<+T> = None | Some(value: T)
  datatype Result<+T, +E> = Ok(value: T) | Err(error: E)

  const U32_MAX: int := 0xFFFF_FFFF
  const U64_MAX: int := 0xFFFF_FFFF_FFFF_FFFF
  const I64_MIN: int := -0x8000_0000_0000_0000
  const I64_MAX: int := 0x7FFF_FFFF_FFFF_FFFF
  const I128_MAX: int := 0x7FFF_FFFF_FFFF_FFFF_FFFF_FFFF_FFFF_FFFF
  const I128_MIN: int := -0x8000_0000_0000_0000_0000_0000_0000_0000

  newtype byte = x: int | 0 <= x < 256
  type u32 = x: int | 0 <= x <= U32_MAX
  type u64 = x: int | 0 <= x <= U64_MAX
  type i64 = x: int | I64_MIN <= x <= I64_MAX

  const TWO_256: int := 0x1_00000000_00000000_00000000_00000000_00000000_00000000_00000000_00000000

  /** A 32-byte array, identified with the number it spells most significant byte first, so that the
      byte-wise order of arrays is the order of numbers. */
  newtype Bytes32 = x: int | 0 <= x < TWO_256

  /** The all-zero array the source uses as "absent". */
  const ZERO: Bytes32 := 0

  /** A hash function. Nothing is known about it except what a lemma assumes of the messages it hashes. */
  type Sha = seq<byte> -> Bytes32

  /** No two messages of `msgs` collide and none hashes to zero. */
  ghost predicate Sound(sha: Sha, msgs: iset<seq<byte>>) {
    && (forall a, b | a in msgs && b in msgs && sha(a) == sha(b) :: a == b)
    && (forall a | a in msgs :: sha(a) != ZERO)
  }

  // ---- little-endian numbers ----

  function Pow256(k: nat): (r: nat)
    ensures r > 0
  {
    if k == 0 then 1 else 256 * Pow256(k - 1)
  }

  lemma Pow256Of32()
    ensures Pow256(32) == TWO_256
  {
    assert Pow256(8) == 0x1_00000000_00000000;
    assert Pow256(16) == 0x1_00000000_00000000_00000000_00000000;
    assert Pow256(24) == 0x1_00000000_00000000_00000000_00000000_00000000_00000000;
  }

  lemma Pow256Values()
    ensures Pow256(1) == 256
    ensures Pow256(2) == 0x1_0000
    ensures Pow256(4) == U32_MAX + 1
    ensures Pow256(8) == U64_MAX + 1
  {
    assert Pow256(2) == 0x1_0000;
    assert Pow256(4) == 0x1_0000_0000;
    assert Pow256(6) == 0x1_0000_0000_0000;
  }

  /** The low `k` bytes of `n`, least significant first. */
  function Le(n: nat, k: nat): (r: seq<byte>)
    ensures |r| == k
  {
    if k == 0 then [] else [(n % 256) as byte] + Le(n / 256, k - 1)
  }

  function FromLe(s: seq<byte>): (n: nat)
    ensures n < Pow256(|s|)
  {
    if s == [] then 0 else s[0] as int + 256 * FromLe(s[1..])
  }

  lemma {:induction false} LeRoundTrip(n: nat, k: nat)
    requires n < Pow256(k)
    ensures FromLe(Le(n, k)) == n
  {
    if k > 0 {
      LeRoundTrip(n / 256, k - 1);
      assert Le(n, k)[1..] == Le(n / 256, k - 1);
    }
  }

  lemma LeInjective(a: nat, b: nat, k: nat)
    requires a < Pow256(k) && b < Pow256(k)
    requires Le(a, k) == Le(b, k)
    ensures a == b
  {
    LeRoundTrip(a, k);
    LeRoundTrip(b, k);
  }

  /** The `k` bytes of `n`, most significant first. */
  function Be(n: nat, k: nat): (r: seq<byte>)
    ensures |r| == k
  {
    if k == 0 then [] else Be(n / 256, k - 1) + [(n % 256) as byte]
  }

  function FromBe(s: seq<byte>): (n: nat)
    ensures n < Pow256(|s|)
  {
    if s == [] then 0 else 256 * FromBe(s[..|s| - 1]) + s[|s| - 1] as int
  }

  lemma {:induction false} BeRoundTrip(n: nat, k: nat)
    requires n < Pow256(k)
    ensures FromBe(Be(n, k)) == n
  {
    if k > 0 {
      BeRoundTrip(n / 256, k - 1);
      assert Be(n, k)[..k - 1] == Be(n / 256, k - 1);
    }
  }

  /** The array itself. */
  function Raw(x: Bytes32): (r: seq<byte>)
    ensures |r| == 32 && FromBe(r) == x as int
  {
    Pow256Of32();
    BeRoundTrip(x as int, 32);
    Be(x as int, 32)
  }

  function ReadBytes32(s: seq<byte>): Bytes32
    requires |s| == 32
  {
    Pow256Of32();
    FromBe(s) as Bytes32
  }

  function Le32(n: u32): (r: seq<byte>)
    ensures |r| == 4 && FromLe(r) == n
  {
    Pow256Values();
    LeRoundTrip(n, 4);
    Le(n, 4)
  }

  function Le64(n: u64): (r: seq<byte>)
    ensures |r| == 8 && FromLe(r) == n
  {
    Pow256Values();
    LeRoundTrip(n, 8);
    Le(n, 8)
  }

  function ReadU32(s: seq<byte>): u32
    requires |s| == 4
  {
    Pow256Values();
    FromLe(s)
  }

  function ReadU64(s: seq<byte>): u64
    requires |s| == 8
  {
    Pow256Values();
    FromLe(s)
  }

  /** Two's complement, as `i64::to_le_bytes`. */
  function LeI64(n: i64): (r: seq<byte>)
    ensures |r| == 8 && ReadI64(r) == n
  {
    Le64(if n < 0 then n + U64_MAX + 1 else n)
  }

  function ReadI64(s: seq<byte>): i64
    requires |s| == 8
  {
    var n := ReadU64(s);
    if n > I64_MAX then n - U64_MAX - 1 else n
  }

  /** `n` copies of `m` added up: products written so that proofs about them stay linear. */
  function Repeat(n: nat, m: int): int {
    if n == 0 then 0 else Repeat(n - 1, m) + m
  }

  /** The product `n * m`. */
  function Times(n: int, m: int): int {
    if n < 0 then -Repeat(-n, m) else Repeat(n, m)
  }

  lemma {:induction false} RepeatIsProduct(n: nat, m: int)
    ensures Repeat(n, m) == n * m
  {
    if n > 0 {
      RepeatIsProduct(n - 1, m);
      assert n * m == (n - 1) * m + m;
    }
  }

  lemma TimesIsProduct(n: int, m: int)
    ensures Times(n, m) == n * m
  {
    RepeatIsProduct(if n < 0 then -n else n, m);
    if n < 0 { assert -(-n * m) == n * m; }
  }

  lemma {:induction false} RepeatNonNegative(n: nat, m: nat)
    ensures Repeat(n, m) >= 0
  {
    if n > 0 { RepeatNonNegative(n - 1, m); }
  }

  lemma TimesNonNegative(n: nat, m: nat)
    ensures Times(n, m) >= 0
  {
    RepeatNonNegative(n, m);
  }

  lemma TimesStep(n: int, m: int)
    ensures Times(n + 1, m) == Times(n, m) + m
    ensures Times(n - 1, m) == Times(n, m) - m
  {
  }

  // ---- sequences of equally long records ----

  function EncodeAll<T>(xs: seq<T>, enc: T -> seq<byte>): seq<byte> {
    if xs == [] then [] else enc(xs[0]) + EncodeAll(xs[1..], enc)
  }

  /** Splits `s` into `count` chunks of `n` bytes and decodes each of them in order. */
  function DecodeAll<T>(s: seq<byte>, n: nat, count: nat, dec: seq<byte> -> Option<T>): Option<seq<T>>
    requires |s| == n * count
    decreases count
  {
    if count == 0 then Some([])
    else
      assert n * count == n + n * (count - 1);
      match dec(s[..n])
      case None => None
      case Some(x) =>
        match DecodeAll(s[n..], n, count - 1, dec)
        case None => None
        case Some(xs) => Some([x] + xs)
  }

  lemma {:induction false} EncodeAllLength<T>(xs: seq<T>, n: nat, enc: T -> seq<byte>)
    requires forall x | x in xs :: |enc(x)| == n
    ensures |EncodeAll(xs, enc)| == n * |xs|
  {
    if xs != [] {
      EncodeAllLength(xs[1..], n, enc);
      assert n * |xs| == n + n * |xs[1..]|;
    }
  }

  lemma {:induction false} DecodeEncodeAll<T>(xs: seq<T>, n: nat, enc: T -> seq<byte>, dec: seq<byte> -> Option<T>)
    requires forall x | x in xs :: |enc(x)| == n && dec(enc(x)) == Some(x)
    ensures |EncodeAll(xs, enc)| == n * |xs|
    ensures DecodeAll(EncodeAll(xs, enc), n, |xs|, dec) == Some(xs)
  {
    EncodeAllLength(xs, n, enc);
    if xs != [] {
      var e := EncodeAll(xs, enc);
      DecodeEncodeAll(xs[1..], n, enc, dec);
      assert e[..n] == enc(xs[0]);
      assert e[n..] == EncodeAll(xs[1..], enc);
      assert [xs[0]] + xs[1..] == xs;
    }
  }

  lemma {:induction false} EncodeAllSnoc<T>(xs: seq<T>, x: T, enc: T -> seq<byte>)
    ensures EncodeAll(xs + [x], enc) == EncodeAll(xs, enc) + enc(x)
  {
    if xs == [] {
      assert [x][1..] == [];
      assert EncodeAll([x], enc) == enc(x) + [];
    } else {
      EncodeAllSnoc(xs[1..], x, enc);
      assert (xs + [x])[1..] == xs[1..] + [x];
    }
  }

  lemma {:induction false} EncodeAllSplit<T>(xs: seq<T>, ys: seq<T>, enc: T -> seq<byte>)
    ensures EncodeAll(xs + ys, enc) == EncodeAll(xs, enc) + EncodeAll(ys, enc)
  {
    if xs == [] {
      assert [] + ys == ys;
    } else {
      EncodeAllSplit(xs[1..], ys, enc);
      assert (xs + ys)[1..] == xs[1..] + ys;
    }
  }

  /** Appends the encodings to a buffer, one element at a time. */
  method WriteAll<T>(start: seq<byte>, xs: seq<T>, enc: T -> seq<byte>) returns (bytes: seq<byte>)
    ensures bytes == start + EncodeAll(xs, enc)
  {
    bytes := start;
    for i := 0 to |xs|
      invariant bytes == start + EncodeAll(xs[..i], enc)
    {
      bytes := bytes + enc(xs[i]);
      EncodeAllSnoc(xs[..i], xs[i], enc);
      assert xs[..i + 1] == xs[..i] + [xs[i]];
    }
    assert xs[..|xs|] == xs;
  }

  lemma ChunkFits(n: nat, i: nat, count: nat)
    requires i < count
    ensures n * (i + 1) == n * i + n <= n * count
  {
    assert n * count == n * (i + 1) + n * (count - i - 1);
  }

  lemma Assoc<T>(a: seq<T>, b: seq<T>, c: seq<T>)
    ensures a + b + c == a + (b + c)
  {
  }
}
