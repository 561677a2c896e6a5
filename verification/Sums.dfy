/** Finite sums over the keys of a map. */
module Sums {

  ghost function Sum<K(!new)>(s: set<K>, f: K -> int): int {
    if s == {} then 0
    else
      var x :| x in s;
      f(x) + Sum(s - {x}, f)
  }

  lemma {:induction false} SumSplit<K(!new)>(s: set<K>, f: K -> int, x: K)
    requires x in s
    ensures Sum(s, f) == f(x) + Sum(s - {x}, f)
  {
    var y :| y in s && Sum(s, f) == f(y) + Sum(s - {y}, f);
    if y != x {
      SumSplit(s - {y}, f, x);
      SumSplit(s - {x}, f, y);
      assert s - {x} - {y} == s - {y} - {x};
    }
  }

  /** Only the values on the set matter. */
  lemma {:induction false} SumSame<K(!new)>(s: set<K>, f: K -> int, g: K -> int)
    requires forall x | x in s :: f(x) == g(x)
    ensures Sum(s, f) == Sum(s, g)
  {
    if s != {} {
      var x :| x in s;
      SumSplit(s, f, x);
      SumSplit(s, g, x);
      SumSame(s - {x}, f, g);
    }
  }

  lemma {:induction false} SumLeq<K(!new)>(s: set<K>, f: K -> int, g: K -> int)
    requires forall x | x in s :: f(x) <= g(x)
    ensures Sum(s, f) <= Sum(s, g)
  {
    if s != {} {
      var x :| x in s;
      SumSplit(s, f, x);
      SumSplit(s, g, x);
      SumLeq(s - {x}, f, g);
    }
  }

  /** Changing `f` at one key changes the sum by that difference. */
  lemma SumUpdate<K(!new)>(s: set<K>, f: K -> int, g: K -> int, x: K)
    requires x in s
    requires forall y | y in s && y != x :: f(y) == g(y)
    ensures Sum(s, g) == Sum(s, f) - f(x) + g(x)
  {
    SumSplit(s, f, x);
    SumSplit(s, g, x);
    SumSame(s - {x}, f, g);
  }

  lemma SumInsert<K(!new)>(s: set<K>, f: K -> int, g: K -> int, x: K)
    requires x !in s
    requires forall y | y in s :: f(y) == g(y)
    ensures Sum(s + {x}, g) == Sum(s, f) + g(x)
  {
    SumSplit(s + {x}, g, x);
    assert s + {x} - {x} == s;
    SumSame(s, f, g);
  }

  lemma {:induction false} SumZero<K(!new)>(s: set<K>, f: K -> int)
    requires forall x | x in s :: f(x) == 0
    ensures Sum(s, f) == 0
  {
    if s != {} {
      var x :| x in s;
      SumSplit(s, f, x);
      SumZero(s - {x}, f);
    }
  }

  lemma Distribute(n: nat, bound: nat)
    ensures (n + 1) * bound == bound + n * bound
  {
  }

  lemma {:induction false} SumBounds<K(!new)>(s: set<K>, f: K -> int, bound: nat)
    requires forall x | x in s :: 0 <= f(x) <= bound
    ensures 0 <= Sum(s, f) <= |s| * bound
  {
    if s != {} {
      var x :| x in s;
      SumSplit(s, f, x);
      SumBounds(s - {x}, f, bound);
      Distribute(|s - {x}|, bound);
    }
  }

  /** A partial sum of non-negative terms does not exceed the whole. */
  lemma {:induction false} SumSubset<K(!new)>(t: set<K>, s: set<K>, f: K -> int)
    requires t <= s
    requires forall x | x in s :: f(x) >= 0
    ensures Sum(t, f) <= Sum(s, f)
    decreases s
  {
    if s != t {
      var x :| x in s && x !in t;
      SumSplit(s, f, x);
      SumSubset(t, s - {x}, f);
    }
  }

  lemma {:induction false} SumPartition<K(!new)>(t: set<K>, s: set<K>, f: K -> int)
    requires t <= s
    ensures Sum(s, f) == Sum(t, f) + Sum(s - t, f)
    decreases s
  {
    if t == {} {
      assert s - t == s;
    } else {
      var x :| x in t;
      SumSplit(s, f, x);
      SumSplit(t, f, x);
      SumPartition(t - {x}, s - {x}, f);
      assert s - {x} - (t - {x}) == s - t;
    }
  }

  ghost function Image<K(!new), J>(s: set<K>, g: K -> J): set<J> { set x | x in s :: g(x) }

  /** Summing over the images under a function that tells the elements apart. */
  lemma {:induction false} SumReindex<K(!new), J(!new)>(s: set<K>, g: K -> J, f: K -> int, h: J -> int)
    requires forall x, y | x in s && y in s && g(x) == g(y) :: x == y
    requires forall x | x in s :: f(x) == h(g(x))
    ensures Sum(s, f) == Sum(Image(s, g), h)
    decreases s
  {
    var t := Image(s, g);
    if s == {} {
      assert t == {};
    } else {
      var x :| x in s;
      SumSplit(s, f, x);
      SumSplit(t, h, g(x));
      SumReindex(s - {x}, g, f, h);
      assert Image(s - {x}, g) == t - {g(x)};
    }
  }

  lemma {:induction false} SumNegate<K(!new)>(s: set<K>, f: K -> int, g: K -> int)
    requires forall x | x in s :: g(x) == -f(x)
    ensures Sum(s, g) == -Sum(s, f)
  {
    if s != {} {
      var x :| x in s;
      SumSplit(s, f, x);
      SumSplit(s, g, x);
      SumNegate(s - {x}, f, g);
    }
  }
}
