/** Sorted digests and the iteration order of the source's ordered maps. */
module Order {
  import opened Bytes

  ghost predicate Sorted(s: seq<Bytes32>) {
    s == [] || ((forall y | y in s[1..] :: s[0] <= y) && Sorted(s[1..]))
  }

  function Insert(x: Bytes32, s: seq<Bytes32>): (r: seq<Bytes32>)
    ensures multiset(r) == multiset{x} + multiset(s)
  {
    if s == [] || x <= s[0] then [x] + s
    else
      assert s == [s[0]] + s[1..];
      [s[0]] + Insert(x, s[1..])
  }

  /** What `sort_unstable` computes on a vector of digests. */
  function Sort(s: seq<Bytes32>): (r: seq<Bytes32>)
    ensures multiset(r) == multiset(s)
    ensures |r| == |s|
  {
    if s == [] then []
    else
      var r := Insert(s[0], Sort(s[1..]));
      assert s == [s[0]] + s[1..];
      assert |multiset(r)| == |multiset(s)|;
      r
  }

  lemma {:induction false} InsertSorted(x: Bytes32, s: seq<Bytes32>)
    requires Sorted(s)
    ensures Sorted(Insert(x, s))
  {
    if s == [] || x <= s[0] {
      assert ([x] + s)[1..] == s;
      forall y | y in s ensures x <= y { HeadIsLeast(s, y); }
    } else {
      InsertSorted(x, s[1..]);
      var r := Insert(x, s[1..]);
      assert Insert(x, s)[1..] == r;
      forall y | y in r ensures s[0] <= y {
        assert y in multiset(r);
        assert y == x || y in s[1..];
      }
    }
  }

  lemma {:induction false} SortSorted(s: seq<Bytes32>)
    ensures Sorted(Sort(s))
  {
    if s != [] {
      SortSorted(s[1..]);
      InsertSorted(s[0], Sort(s[1..]));
    }
  }

  lemma HeadIsLeast(a: seq<Bytes32>, y: Bytes32)
    requires Sorted(a) && y in a
    ensures a[0] <= y
  {
    var i :| 0 <= i < |a| && a[i] == y;
    if i > 0 {
      assert a[1..][i - 1] == y;
      assert y in a[1..];
    }
  }

  lemma TailMultiset(a: seq<Bytes32>)
    requires a != []
    ensures multiset(a[1..]) == multiset(a) - multiset{a[0]}
  {
    assert a == [a[0]] + a[1..];
  }

  lemma SameHead(a: seq<Bytes32>, b: seq<Bytes32>)
    requires Sorted(a) && Sorted(b) && multiset(a) == multiset(b) && a != [] && b != []
    ensures a[0] == b[0]
  {
    assert a[0] in multiset(b) && b[0] in multiset(a);
    HeadIsLeast(a, b[0]);
    HeadIsLeast(b, a[0]);
  }

  lemma {:induction false} SortedUnique(a: seq<Bytes32>, b: seq<Bytes32>)
    requires Sorted(a) && Sorted(b) && multiset(a) == multiset(b)
    ensures a == b
  {
    assert |a| == |multiset(a)| == |multiset(b)| == |b|;
    if a != [] {
      SameHead(a, b);
      TailMultiset(a);
      TailMultiset(b);
      SortedUnique(a[1..], b[1..]);
      assert a == [a[0]] + a[1..] && b == [b[0]] + b[1..];
    }
  }

  /** Sorting forgets exactly the order. */
  lemma SortEqual(a: seq<Bytes32>, b: seq<Bytes32>)
    ensures Sort(a) == Sort(b) <==> multiset(a) == multiset(b)
  {
    SortSorted(a);
    SortSorted(b);
    if multiset(a) == multiset(b) {
      SortedUnique(Sort(a), Sort(b));
    }
  }

  // ---- lists without repetition ----

  ghost predicate Distinct<T>(s: seq<T>) {
    forall i, j | 0 <= i < j < |s| :: s[i] != s[j]
  }

  lemma CountTwice<T>(s: seq<T>, i: nat, j: nat)
    requires i < j < |s| && s[i] == s[j]
    ensures multiset(s)[s[i]] >= 2
  {
    assert s == s[..i] + [s[i]] + s[i + 1..j] + [s[j]] + s[j + 1..];
  }

  lemma CountOnce<T>(s: seq<T>, x: T)
    requires Distinct(s)
    ensures multiset(s)[x] <= 1
  {
    if x in s {
      var i :| 0 <= i < |s| && s[i] == x;
      assert s == s[..i] + [x] + s[i + 1..];
      assert x !in s[..i] && x !in s[i + 1..];
    }
  }

  /** Reordering keeps a list free of repetition. */
  lemma DistinctByMultiset<T>(a: seq<T>, b: seq<T>)
    requires multiset(a) == multiset(b) && Distinct(a)
    ensures Distinct(b)
  {
    forall i, j | 0 <= i < j < |b| ensures b[i] != b[j] {
      CountOnce(a, b[i]);
      if b[i] == b[j] { CountTwice(b, i, j); }
    }
  }

  /** Lists without repetition are permutations of each other exactly when they have the same elements. */
  lemma SameElements<T>(a: seq<T>, b: seq<T>)
    requires Distinct(a) && Distinct(b)
    ensures multiset(a) == multiset(b) <==> (forall x :: x in a <==> x in b)
  {
    if multiset(a) == multiset(b) {
      forall x ensures x in a <==> x in b { assert x in multiset(a) <==> x in multiset(b); }
    }
    if forall x :: x in a <==> x in b {
      forall x ensures multiset(a)[x] == multiset(b)[x] {
        CountOnce(a, x);
        CountOnce(b, x);
        assert x in a <==> x in multiset(a);
        assert x in b <==> x in multiset(b);
      }
    }
  }

  function Map<A, B>(xs: seq<A>, f: A -> B): (r: seq<B>)
    ensures |r| == |xs|
    ensures forall i | 0 <= i < |xs| :: r[i] == f(xs[i])
  {
    if xs == [] then [] else [f(xs[0])] + Map(xs[1..], f)
  }

  ghost predicate InjectiveOn<A(!new), B(!new)>(f: A -> B, xs: seq<A>, ys: seq<A>) {
    forall x, y | x in xs && y in ys && f(x) == f(y) :: x == y
  }

  lemma MapDistinct<A(!new), B(!new)>(xs: seq<A>, f: A -> B)
    requires InjectiveOn(f, xs, xs)
    ensures Distinct(Map(xs, f)) <==> Distinct(xs)
  {
    forall i, j | 0 <= i < j < |xs| ensures Map(xs, f)[i] == Map(xs, f)[j] <==> xs[i] == xs[j] {
      assert xs[i] in xs && xs[j] in xs;
    }
  }

  lemma MapIn<A, B>(xs: seq<A>, f: A -> B, x: A)
    requires x in xs
    ensures f(x) in Map(xs, f)
  {
    var i :| 0 <= i < |xs| && xs[i] == x;
    assert Map(xs, f)[i] == f(x);
  }

  lemma MapFrom<A, B>(xs: seq<A>, f: A -> B, y: B) returns (x: A)
    requires y in Map(xs, f)
    ensures x in xs && f(x) == y
  {
    var i :| 0 <= i < |xs| && Map(xs, f)[i] == y;
    x := xs[i];
  }

  lemma MapAmong<A(!new), B(!new)>(a: seq<A>, b: seq<A>, f: A -> B, y: B)
    requires y in Map(a, f) && forall x | x in a :: x in b
    ensures y in Map(b, f)
  {
    var x := MapFrom(a, f, y);
    MapIn(b, f, x);
  }

  lemma MapReflects<A(!new), B(!new)>(a: seq<A>, b: seq<A>, f: A -> B, x: A)
    requires InjectiveOn(f, a, b) && x in a && forall y | y in Map(a, f) :: y in Map(b, f)
    ensures x in b
  {
    MapIn(a, f, x);
    var z := MapFrom(b, f, f(x));
    assert x == z;
  }

  /** An injective function on lists without repetition keeps and reflects being a permutation. */
  lemma MapPermuted<A(!new), B(!new)>(a: seq<A>, b: seq<A>, f: A -> B)
    requires Distinct(a) && Distinct(b)
    requires InjectiveOn(f, a, a) && InjectiveOn(f, b, b) && InjectiveOn(f, a, b)
    ensures multiset(Map(a, f)) == multiset(Map(b, f)) <==> multiset(a) == multiset(b)
  {
    MapDistinct(a, f);
    MapDistinct(b, f);
    SameElements(a, b);
    SameElements(Map(a, f), Map(b, f));
    if multiset(a) == multiset(b) {
      forall y ensures y in Map(a, f) <==> y in Map(b, f) {
        if y in Map(a, f) { MapAmong(a, b, f, y); }
        if y in Map(b, f) { MapAmong(b, a, f, y); }
      }
    }
    if multiset(Map(a, f)) == multiset(Map(b, f)) {
      assert InjectiveOn(f, b, a);
      forall x ensures x in a <==> x in b {
        if x in a { MapReflects(a, b, f, x); }
        if x in b { MapReflects(b, a, f, x); }
      }
    }
  }

  lemma {:induction false} CountDistinct<T>(s: seq<T>)
    requires Distinct(s)
    ensures |set x | x in s| == |s|
  {
    if s != [] {
      CountDistinct(s[1..]);
      assert (set x | x in s) == {s[0]} + (set x | x in s[1..]);
      assert s[0] !in s[1..];
    }
  }

  lemma SetOfMap<A(!new), B(!new)>(xs: seq<A>, f: A -> B)
    ensures (set y | y in Map(xs, f)) == (set x | x in xs :: f(x))
  {
    forall x | x in xs { MapIn(xs, f, x); }
  }

  lemma SubsetSize<T>(a: set<T>, b: set<T>)
    requires a <= b
    ensures |a| <= |b|
  {
    assert b == a + (b - a);
  }

  lemma SubsetEqual<T>(a: set<T>, b: set<T>)
    requires a <= b && |a| == |b|
    ensures a == b
  {
    assert b == a + (b - a);
  }

  lemma Without<T>(b: seq<T>, j: nat)
    requires j < |b|
    ensures multiset(b[..j] + b[j + 1..]) == multiset(b) - multiset{b[j]}
  {
    assert b == b[..j] + [b[j]] + b[j + 1..];
  }

  function Drop<T>(b: seq<T>, j: nat): (r: seq<T>)
    requires j < |b|
    ensures |r| == |b| - 1
    ensures multiset(r) == multiset(b) - multiset{b[j]}
  {
    Without(b, j);
    b[..j] + b[j + 1..]
  }

  lemma MapDrop<A, B>(b: seq<A>, j: nat, f: A -> B)
    requires j < |b|
    ensures Map(Drop(b, j), f) == Drop(Map(b, f), j)
  {
  }

  lemma MapWithout<A, B>(b: seq<A>, j: nat, f: A -> B)
    requires j < |b|
    ensures multiset(Map(b, f)) == multiset(Map(Drop(b, j), f)) + multiset{f(b[j])}
  {
    MapDrop(b, j, f);
    var ys := Map(b, f);
    assert ys[j] in multiset(ys);
    assert multiset(ys) == multiset(Drop(ys, j)) + multiset{ys[j]};
  }

  /** Any function applied to a permutation gives a permutation. */
  lemma {:induction false} MapReordered<A, B>(a: seq<A>, b: seq<A>, f: A -> B)
    requires multiset(a) == multiset(b)
    ensures multiset(Map(a, f)) == multiset(Map(b, f))
    decreases |a|
  {
    if a == [] {
      assert |multiset(b)| == 0;
    } else {
      assert a[0] in multiset(b);
      var j :| 0 <= j < |b| && b[j] == a[0];
      MapWithout(a, 0, f);
      MapWithout(b, j, f);
      MapReordered(Drop(a, 0), Drop(b, j), f);
    }
  }

  /** Pigeonhole: a list without repetition inside another one of the same length is a permutation of it. */
  lemma Pigeonhole<T(!new)>(a: seq<T>, b: seq<T>)
    requires Distinct(a) && Distinct(b) && |a| == |b| && forall x | x in a :: x in b
    ensures multiset(a) == multiset(b)
  {
    var s, t := (set x | x in a), (set x | x in b);
    CountDistinct(a);
    CountDistinct(b);
    SubsetEqual(s, t);
    forall x ensures x in a <==> x in b { assert x in s <==> x in t; }
    SameElements(a, b);
  }

  /** The neighbours check done on a sorted vector. */
  ghost predicate NoEqualNeighbours(s: seq<Bytes32>) {
    |s| <= 1 || (s[0] != s[1] && NoEqualNeighbours(s[1..]))
  }

  lemma {:induction false} NeighboursDistinct(s: seq<Bytes32>)
    requires Sorted(s)
    ensures NoEqualNeighbours(s) <==> Distinct(s)
  {
    if |s| > 1 {
      NeighboursDistinct(s[1..]);
      if NoEqualNeighbours(s) {
        forall i, j | 0 <= i < j < |s| ensures s[i] != s[j] {
          if i == 0 {
            assert s[1..][j - 1] == s[j] && s[j] in s[1..];
            HeadIsLeast(s[1..], s[j]);
            assert s[0] < s[1] by { assert s[1] in s[1..]; }
          } else {
            assert s[1..][i - 1] == s[i] && s[1..][j - 1] == s[j];
          }
        }
      } else if s[0] != s[1] {
        var i, j :| 0 <= i < j < |s| - 1 && s[1..][i] == s[1..][j];
        assert s[i + 1] == s[j + 1];
      }
    }
  }

  // ---- ordered sets ----

  ghost predicate IsLeast(m: Bytes32, s: set<Bytes32>) {
    m in s && forall x | x in s :: m <= x
  }

  lemma {:induction false} LeastExists(s: set<Bytes32>)
    requires s != {}
    ensures exists m :: IsLeast(m, s)
  {
    var x :| x in s;
    if s == {x} {
      assert IsLeast(x, s);
    } else {
      LeastExists(s - {x});
      var m :| IsLeast(m, s - {x});
      var l := if x <= m then x else m;
      forall y | y in s ensures l <= y {
        if y != x { assert y in s - {x}; }
      }
      assert IsLeast(l, s);
    }
  }

  function Least(s: set<Bytes32>): (m: Bytes32)
    requires s != {}
    ensures IsLeast(m, s)
  {
    LeastExists(s);
    var m :| m in s && forall x | x in s :: m <= x;
    m
  }

  /** The keys of an ordered map in iteration order. */
  function SortedKeys(s: set<Bytes32>): (r: seq<Bytes32>)
    ensures |r| == |s|
    ensures forall x :: x in r <==> x in s
  {
    if s == {} then [] else [Least(s)] + SortedKeys(s - {Least(s)})
  }

  lemma {:induction false} KeysAscend(s: set<Bytes32>)
    ensures Sorted(SortedKeys(s))
  {
    if s != {} {
      KeysAscend(s - {Least(s)});
      assert SortedKeys(s)[1..] == SortedKeys(s - {Least(s)});
    }
  }

  // ---- ordered maps as byte strings ----

  /** The entries of an ordered map in iteration order. */
  function Entries<V>(m: map<Bytes32, V>): (r: seq<(Bytes32, V)>)
    ensures |r| == |m|
    ensures forall e | e in r :: e.0 in m && m[e.0] == e.1
    decreases |m|
  {
    if m == map[] then []
    else
      var k := Least(m.Keys);
      assert (m - {k}).Keys == m.Keys - {k};
      [(k, m[k])] + Entries(m - {k})
  }

  /** Decodes `count` chunks of `n` bytes and inserts them one by one; a bad chunk or a repeated key is refused. */
  function ReadEntries<V>(s: seq<byte>, n: nat, count: nat, dec: seq<byte> -> Option<(Bytes32, V)>, m: map<Bytes32, V>)
    : Option<map<Bytes32, V>>
    decreases count
  {
    if count == 0 then Some(m)
    else if |s| < n then None
    else
      match dec(s[..n])
      case None => None
      case Some(e) => if e.0 in m then None else ReadEntries(s[n..], n, count - 1, dec, m[e.0 := e.1])
  }

  lemma ReadNext<V>(chunk: seq<byte>, tail: seq<byte>, count: nat, dec: seq<byte> -> Option<(Bytes32, V)>,
                    m: map<Bytes32, V>)
    requires count > 0
    ensures ReadEntries(chunk + tail, |chunk|, count, dec, m) ==
            if dec(chunk).None? || dec(chunk).value.0 in m then None
            else ReadEntries(tail, |chunk|, count - 1, dec, m[dec(chunk).value.0 := dec(chunk).value.1])
  {
    assert (chunk + tail)[..|chunk|] == chunk && (chunk + tail)[|chunk|..] == tail;
  }

  /** One turn of a loop that reads at a moving offset. */
  lemma ReadAt<V>(s: seq<byte>, offset: nat, n: nat, count: nat, dec: seq<byte> -> Option<(Bytes32, V)>,
                  m: map<Bytes32, V>)
    requires offset + n <= |s| && count > 0
    ensures var got := dec(s[offset..offset + n]);
            ReadEntries(s[offset..], n, count, dec, m) ==
            if got.None? || got.value.0 in m then None
            else ReadEntries(s[offset + n..], n, count - 1, dec, m[got.value.0 := got.value.1])
  {
    assert s[offset..] == s[offset..offset + n] + s[offset + n..];
    ReadNext(s[offset..offset + n], s[offset + n..], count, dec, m);
  }

  /** What follows `head` in a longer string. */
  function After(head: seq<byte>, a: seq<byte>, rest: seq<byte>): seq<byte> {
    (head + a + rest)[|head|..]
  }

  lemma AfterHead(head: seq<byte>, a: seq<byte>, rest: seq<byte>)
    ensures After(head, a, rest) == a + rest
  {
  }

  /** Reads `count` chunks at a moving offset into an ordered map. Every slice taken is inside `s`. */
  method ReadMap<V>(s: seq<byte>, start: nat, n: nat, count: nat, dec: seq<byte> -> Option<(Bytes32, V)>)
    returns (r: Option<map<Bytes32, V>>)
    requires start + n * count <= |s|
    ensures r == ReadEntries(s[start..], n, count, dec, map[])
  {
    var m: map<Bytes32, V>, offset := map[], start;
    for i := 0 to count
      invariant offset == start + n * i
      invariant ReadEntries(s[start..], n, count, dec, map[]) == ReadEntries(s[offset..], n, count - i, dec, m)
    {
      ChunkFits(n, i, count);
      ReadAt(s, offset, n, count - i, dec, m);
      var entry := dec(s[offset..offset + n]);
      if entry.None? || entry.value.0 in m { return None; }
      offset := offset + n;
      m := m[entry.value.0 := entry.value.1];
    }
    return Some(m);
  }

  lemma EncodeFirst<V>(m: map<Bytes32, V>, enc: ((Bytes32, V)) -> seq<byte>, rest: seq<byte>)
    requires m != map[]
    ensures var k := Least(m.Keys);
            EncodeAll(Entries(m), enc) + rest == enc((k, m[k])) + (EncodeAll(Entries(m - {k}), enc) + rest)
  {
    var k := Least(m.Keys);
    assert Entries(m)[1..] == Entries(m - {k});
  }

  lemma WithoutKey<V>(m: map<Bytes32, V>, k: Bytes32)
    requires k in m
    ensures (m - {k}).Keys == m.Keys - {k} && |m - {k}| == |m| - 1
  {
    assert (m - {k}).Keys == m.Keys - {k};
    assert |(m - {k}).Keys| == |m.Keys| - 1;
  }

  lemma PutBackKey<V>(m: map<Bytes32, V>, k: Bytes32, start: map<Bytes32, V>)
    requires k in m
    ensures start[k := m[k]] + (m - {k}) == start + m
  {
    var a, b := start[k := m[k]] + (m - {k}), start + m;
    assert a.Keys == b.Keys;
    forall x | x in b ensures a[x] == b[x] {
    }
  }

  lemma WithoutLeast<V>(m: map<Bytes32, V>, start: map<Bytes32, V>)
    requires m != map[]
    ensures var k := Least(m.Keys);
            (m - {k}).Keys == m.Keys - {k} && |m - {k}| == |m| - 1 && start[k := m[k]] + (m - {k}) == start + m
  {
    WithoutKey(m, Least(m.Keys));
    PutBackKey(m, Least(m.Keys), start);
  }

  lemma {:induction false} ReadBack<V>(m: map<Bytes32, V>, n: nat, enc: ((Bytes32, V)) -> seq<byte>,
                                       dec: seq<byte> -> Option<(Bytes32, V)>, start: map<Bytes32, V>, rest: seq<byte>)
    requires forall k | k in m :: |enc((k, m[k]))| == n && dec(enc((k, m[k]))) == Some((k, m[k]))
    requires m.Keys !! start.Keys
    ensures ReadEntries(EncodeAll(Entries(m), enc) + rest, n, |m|, dec, start) == Some(start + m)
    decreases |m|
  {
    if m == map[] {
      assert start + m == start;
    } else {
      var k := Least(m.Keys);
      var m' := m - {k};
      WithoutLeast(m, start);
      EncodeFirst(m, enc, rest);
      ReadNext(enc((k, m[k])), EncodeAll(Entries(m'), enc) + rest, |m|, dec, start);
      ReadBack(m', n, enc, dec, start[k := m[k]], rest);
    }
  }

  lemma EmptyPlus<V>(m: map<Bytes32, V>)
    ensures map[] + m == m
  {
  }

  lemma ReadBackAt<V>(head: seq<byte>, m: map<Bytes32, V>, n: nat, enc: ((Bytes32, V)) -> seq<byte>,
                      dec: seq<byte> -> Option<(Bytes32, V)>, rest: seq<byte>)
    requires forall k | k in m :: |enc((k, m[k]))| == n && dec(enc((k, m[k]))) == Some((k, m[k]))
    ensures ReadEntries(After(head, EncodeAll(Entries(m), enc), rest), n, |m|, dec, map[]) == Some(m)
  {
    AfterHead(head, EncodeAll(Entries(m), enc), rest);
    ReadBack(m, n, enc, dec, map[], rest);
    EmptyPlus(m);
  }

  lemma EntriesFirst<V>(m: map<Bytes32, V>)
    requires m != map[]
    ensures var k := Least(m.Keys);
            && Entries(m) == [(k, m[k])] + Entries(m - {k})
            && SortedKeys(m.Keys) == [k] + SortedKeys((m - {k}).Keys)
  {
    assert (m - {Least(m.Keys)}).Keys == m.Keys - {Least(m.Keys)};
  }

  function Firsts<V>(xs: seq<(Bytes32, V)>): (r: seq<Bytes32>)
    ensures |r| == |xs| && forall i | 0 <= i < |xs| :: r[i] == xs[i].0
  {
    if xs == [] then [] else [xs[0].0] + Firsts(xs[1..])
  }

  lemma FirstsCons<V>(x: (Bytes32, V), xs: seq<(Bytes32, V)>)
    ensures Firsts([x] + xs) == [x.0] + Firsts(xs)
  {
    assert ([x] + xs)[1..] == xs;
  }

  lemma {:induction false} FirstsOfEntries<V>(m: map<Bytes32, V>)
    ensures Firsts(Entries(m)) == SortedKeys(m.Keys)
    decreases |m|
  {
    if m != map[] {
      var k := Least(m.Keys);
      EntriesFirst(m);
      WithoutLeast(m, map[]);
      FirstsOfEntries(m - {k});
      FirstsCons((k, m[k]), Entries(m - {k}));
    }
  }

  lemma EntryKeys<V>(m: map<Bytes32, V>)
    ensures |Entries(m)| == |SortedKeys(m.Keys)| == |m|
    ensures forall i | 0 <= i < |m| :: Entries(m)[i].0 == SortedKeys(m.Keys)[i]
  {
    FirstsOfEntries(m);
    assert |m| == |m.Keys|;
  }

  lemma {:induction false} KeysDistinct(s: set<Bytes32>)
    ensures Distinct(SortedKeys(s))
  {
    if s != {} {
      KeysDistinct(s - {Least(s)});
      var r, t := SortedKeys(s), SortedKeys(s - {Least(s)});
      forall i, j | 0 <= i < j < |r| ensures r[i] != r[j] {
        assert t[j - 1] in t;
      }
    }
  }
}
