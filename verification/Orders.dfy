/**
 Ordering and sorting.

 Every ordered container of the modelled code (Rust `BTreeMap` and `derive(Ord)`, Python tuple
 comparison) orders by a tuple of strings, enums and booleans.  All of these are rendered here as
 sequences of integers compared lexicographically, so that one total order serves them all.
 */
module Orders {

  predicate LexLe(a: seq<int>, b: seq<int>) {
    if a == [] then true
    else if b == [] then false
    else a[0] < b[0] || (a[0] == b[0] && LexLe(a[1..], b[1..]))
  }

  predicate LexLt(a: seq<int>, b: seq<int>) {
    LexLe(a, b) && a != b
  }

  lemma LexTotal(a: seq<int>, b: seq<int>)
    ensures LexLe(a, b) || LexLe(b, a)
  {}

  lemma {:induction false} LexAntisymmetric(a: seq<int>, b: seq<int>)
    requires LexLe(a, b) && LexLe(b, a)
    ensures a == b
  {
    if a != [] {
      LexAntisymmetric(a[1..], b[1..]);
      assert a == [a[0]] + a[1..] && b == [b[0]] + b[1..];
    }
  }

  lemma {:induction false} LexTransitive(a: seq<int>, b: seq<int>, c: seq<int>)
    requires LexLe(a, b) && LexLe(b, c)
    ensures LexLe(a, c)
  {
    if a != [] && a[0] == b[0] && b[0] == c[0] {
      LexTransitive(a[1..], b[1..], c[1..]);
    }
  }

  /** A field followed by the terminator 0 keeps tuple order: the first field decides, then the rest. */
  lemma {:induction false} LexPair(a: seq<int>, x: seq<int>, b: seq<int>, y: seq<int>)
    requires (forall i | 0 <= i < |a| :: a[i] > 0) && (forall i | 0 <= i < |b| :: b[i] > 0)
    ensures LexLe(a + [0] + x, b + [0] + y) <==> LexLt(a, b) || (a == b && LexLe(x, y))
  {
    var u, v := a + [0] + x, b + [0] + y;
    if a == [] {
      assert u[1..] == x;
      if b == [] { assert v[1..] == y; }
    } else if b != [] {
      assert u[1..] == a[1..] + [0] + x && v[1..] == b[1..] + [0] + y;
      assert u[0] == a[0] && v[0] == b[0];
      LexPair(a[1..], x, b[1..], y);
      assert a == [a[0]] + a[1..] && b == [b[0]] + b[1..];
    }
  }

  lemma PairInjective(a: seq<int>, x: seq<int>, b: seq<int>, y: seq<int>)
    requires (forall i | 0 <= i < |a| :: a[i] > 0) && (forall i | 0 <= i < |b| :: b[i] > 0)
    requires a + [0] + x == b + [0] + y
    ensures a == b && x == y
  {
    LexTotal(a + [0] + x, b + [0] + y);
    LexPair(a, x, b, y);
    LexPair(b, y, a, x);
    if a != b { LexAntisymmetric(a, b); }
    LexAntisymmetric(x, y);
  }

  lemma LexPairStrict(a: seq<int>, x: seq<int>, b: seq<int>, y: seq<int>)
    requires (forall i | 0 <= i < |a| :: a[i] > 0) && (forall i | 0 <= i < |b| :: b[i] > 0)
    ensures LexLt(a + [0] + x, b + [0] + y) <==> LexLt(a, b) || (a == b && LexLt(x, y))
  {
    LexPair(a, x, b, y);
    if a + [0] + x == b + [0] + y {
      PairInjective(a, x, b, y);
    }
  }

  /** Character codes, shifted so that 0 stays free as a terminator. */
  function Codes(s: string): (r: seq<int>)
    ensures |r| == |s| && forall i | 0 <= i < |r| :: r[i] > 0
  {
    seq(|s|, i requires 0 <= i < |s| => s[i] as int + 1)
  }

  lemma CodesInjective(a: string, b: string)
    requires Codes(a) == Codes(b)
    ensures a == b
  {
    assert |a| == |Codes(a)| == |b|;
    forall i | 0 <= i < |a| ensures a[i] == b[i] {
      assert Codes(a)[i] == Codes(b)[i];
    }
  }

  /** What the order on keys is: one sequence begins the other, or they part at a place where it is smaller. */
  lemma {:induction false} LexMeans(a: seq<int>, b: seq<int>)
    ensures LexLe(a, b) <==>
            exists k :: 0 <= k <= |a| && k <= |b| && a[..k] == b[..k] && (k == |a| || (k < |b| && a[k] < b[k]))
  {
    if a == [] {
      assert a[..0] == b[..0];
    } else if b != [] {
      LexMeans(a[1..], b[1..]);
      if LexLe(a, b) {
        if a[0] < b[0] {
          assert a[..0] == b[..0];
        } else {
          var k :| 0 <= k <= |a| - 1 && k <= |b| - 1 && a[1..][..k] == b[1..][..k]
                   && (k == |a| - 1 || (k < |b| - 1 && a[1..][k] < b[1..][k]));
          assert a[..k + 1] == [a[0]] + a[1..][..k] && b[..k + 1] == [b[0]] + b[1..][..k];
        }
      }
      if k :| 0 <= k <= |a| && k <= |b| && a[..k] == b[..k] && (k == |a| || (k < |b| && a[k] < b[k])) {
        if k > 0 {
          assert a[0] == a[..k][0] == b[..k][0] == b[0];
          assert a[1..][..k - 1] == a[..k][1..] == b[..k][1..] == b[1..][..k - 1];
        }
      }
    }
  }

  /** Strings are ordered by their characters. */
  lemma CodesInOrder(a: string, b: string)
    ensures LexLe(Codes(a), Codes(b)) <==>
            exists k :: 0 <= k <= |a| && k <= |b| && a[..k] == b[..k] && (k == |a| || (k < |b| && a[k] < b[k]))
  {
    var x, y := Codes(a), Codes(b);
    LexMeans(x, y);
    forall k | 0 <= k <= |a| && k <= |b| ensures a[..k] == b[..k] <==> x[..k] == y[..k] {
      assert x[..k] == Codes(a[..k]) && y[..k] == Codes(b[..k]);
      if x[..k] == y[..k] { CodesInjective(a[..k], b[..k]); }
    }
    if LexLe(x, y) {
      var k :| 0 <= k <= |x| && k <= |y| && x[..k] == y[..k] && (k == |x| || (k < |y| && x[k] < y[k]));
      assert a[..k] == b[..k] && (k == |a| || (k < |b| && a[k] < b[k]));
    }
    if k :| 0 <= k <= |a| && k <= |b| && a[..k] == b[..k] && (k == |a| || (k < |b| && a[k] < b[k])) {
      assert x[..k] == y[..k] && (k == |x| || (k < |y| && x[k] < y[k]));
    }
  }

  predicate SortedBy<T(!new)>(key: T -> seq<int>, xs: seq<T>) {
    forall i, j | 0 <= i < j < |xs| :: LexLe(key(xs[i]), key(xs[j]))
  }

  predicate StrictlySortedBy<T(!new)>(key: T -> seq<int>, xs: seq<T>) {
    forall i, j | 0 <= i < j < |xs| :: LexLt(key(xs[i]), key(xs[j]))
  }

  function InsertBy<T(!new)>(key: T -> seq<int>, x: T, xs: seq<T>): (r: seq<T>)
    ensures multiset(r) == multiset(xs) + multiset{x}
  {
    if xs == [] then [x]
    else if LexLe(key(x), key(xs[0])) then [x] + xs
    else
      var rest := InsertBy(key, x, xs[1..]);
      assert xs == [xs[0]] + xs[1..];
      [xs[0]] + rest
  }

  /** The library sort (`slice::sort`, `sorted`): a stable sort by key. */
  function Sort<T(!new)>(key: T -> seq<int>, xs: seq<T>): (r: seq<T>)
    ensures multiset(r) == multiset(xs)
  {
    if xs == [] then []
    else
      assert xs == [xs[0]] + xs[1..];
      InsertBy(key, xs[0], Sort(key, xs[1..]))
  }

  lemma SortStep<T(!new)>(key: T -> seq<int>, xs: seq<T>)
    requires xs != []
    ensures Sort(key, xs) == InsertBy(key, xs[0], Sort(key, xs[1..]))
  {}

  lemma {:induction false} InsertSorted<T(!new)>(key: T -> seq<int>, x: T, xs: seq<T>)
    requires SortedBy(key, xs)
    ensures SortedBy(key, InsertBy(key, x, xs))
  {
    if xs == [] {
    } else if LexLe(key(x), key(xs[0])) {
      forall j | 0 <= j < |xs| ensures LexLe(key(x), key(xs[j])) {
        if j > 0 { LexTransitive(key(x), key(xs[0]), key(xs[j])); }
      }
    } else {
      LexTotal(key(x), key(xs[0]));
      InsertSorted(key, x, xs[1..]);
      var rest := InsertBy(key, x, xs[1..]);
      forall j | 0 <= j < |rest| ensures LexLe(key(xs[0]), key(rest[j])) {
        assert rest[j] in multiset(rest);
        assert rest[j] == x || rest[j] in xs[1..];
      }
    }
  }

  lemma {:induction false} SortSorts<T(!new)>(key: T -> seq<int>, xs: seq<T>)
    ensures SortedBy(key, Sort(key, xs))
  {
    if xs != [] {
      SortSorts(key, xs[1..]);
      InsertSorted(key, xs[0], Sort(key, xs[1..]));
    }
  }

  lemma SameElements<T(!new)>(xs: seq<T>, ys: seq<T>)
    requires multiset(xs) == multiset(ys)
    ensures |xs| == |ys| && forall x :: x in xs <==> x in ys
  {
    assert |multiset(xs)| == |multiset(ys)|;
    forall x ensures x in xs <==> x in ys {
      assert x in multiset(xs) <==> x in xs;
      assert x in multiset(ys) <==> x in ys;
    }
  }

  ghost predicate DistinctKeys<T(!new)>(key: T -> seq<int>, xs: seq<T>) {
    forall i, j | 0 <= i < j < |xs| :: key(xs[i]) != key(xs[j])
  }

  /** Sorting elements with pairwise different keys gives a strictly increasing list. */
  lemma {:induction false} SortStrict<T(!new)>(key: T -> seq<int>, xs: seq<T>)
    requires DistinctKeys(key, xs)
    ensures StrictlySortedBy(key, Sort(key, xs))
  {
    if xs != [] {
      SortStrict(key, xs[1..]);
      var rest := Sort(key, xs[1..]);
      SameElements(rest, xs[1..]);
      forall y | y in rest ensures key(y) != key(xs[0]) {
        assert y in xs[1..];
        var k :| 0 <= k < |xs| - 1 && xs[1..][k] == y;
        assert xs[k + 1] == y;
      }
      InsertStrict(key, xs[0], rest);
    }
  }

  lemma {:induction false} InsertStrict<T(!new)>(key: T -> seq<int>, x: T, xs: seq<T>)
    requires StrictlySortedBy(key, xs) && forall y | y in xs :: key(y) != key(x)
    ensures StrictlySortedBy(key, InsertBy(key, x, xs))
  {
    if xs == [] {
    } else if LexLe(key(x), key(xs[0])) {
      forall j | 0 <= j < |xs| ensures LexLt(key(x), key(xs[j])) {
        if j > 0 { LexTransitive(key(x), key(xs[0]), key(xs[j])); }
      }
    } else {
      LexTotal(key(x), key(xs[0]));
      InsertStrict(key, x, xs[1..]);
      var rest := InsertBy(key, x, xs[1..]);
      forall j | 0 <= j < |rest| ensures LexLt(key(xs[0]), key(rest[j])) {
        assert rest[j] in multiset(rest);
        assert rest[j] == x || rest[j] in xs[1..];
      }
    }
  }

  /** A strictly increasing list is determined by the set of its elements. */
  lemma {:induction false} StrictUnique<T(!new)>(key: T -> seq<int>, xs: seq<T>, ys: seq<T>)
    requires StrictlySortedBy(key, xs) && StrictlySortedBy(key, ys)
    requires forall x :: x in xs <==> x in ys
    ensures xs == ys
  {
    assert xs != [] ==> xs[0] in ys;
    assert ys != [] ==> ys[0] in xs;
    if xs != [] {
      if xs[0] != ys[0] {
        var i :| 0 < i < |ys| && ys[i] == xs[0];
        var j :| 0 < j < |xs| && xs[j] == ys[0];
        LexAntisymmetric(key(xs[0]), key(ys[0]));
      }
      forall x ensures x in xs[1..] <==> x in ys[1..] {
        if x in xs[1..] {
          var k :| 0 <= k < |xs| - 1 && xs[1..][k] == x;
          assert xs[k + 1] == x && key(x) != key(xs[0]);
          assert x in ys;
        }
        if x in ys[1..] {
          var k :| 0 <= k < |ys| - 1 && ys[1..][k] == x;
          assert ys[k + 1] == x && key(x) != key(ys[0]);
          assert x in xs;
        }
      }
      StrictUnique(key, xs[1..], ys[1..]);
      assert xs == [xs[0]] + xs[1..] && ys == [ys[0]] + ys[1..];
    }
  }

  lemma StrictPositions<T(!new)>(key: T -> seq<int>, xs: seq<T>, i: nat, j: nat)
    requires StrictlySortedBy(key, xs) && i < |xs| && j < |xs|
    ensures xs[i] == xs[j] ==> i == j
  {
    if i < j {
      assert LexLt(key(xs[i]), key(xs[j]));
    } else if j < i {
      assert LexLt(key(xs[j]), key(xs[i]));
    }
  }

  // -------------------------------------------------------------------------
  // The elements of a sequence
  // -------------------------------------------------------------------------

  lemma ConcatAssociates<T>(a: seq<T>, b: seq<T>, c: seq<T>)
    ensures a + (b + c) == (a + b) + c
  {}

  function Elements<T(==)>(xs: seq<T>): set<T> {
    set x | x in xs
  }

  ghost predicate AllDiffer<T(!new)>(w: seq<T>) {
    forall i, j | 0 <= i < j < |w| :: w[i] != w[j]
  }

  lemma {:induction false} Pigeonhole<T(!new)>(w: seq<T>, s: set<T>)
    requires Elements(w) <= s && AllDiffer(w)
    ensures |w| <= |s|
    decreases |w|
  {
    if w != [] {
      var n := |w| - 1;
      assert w[n] in Elements(w);
      assert Elements(w[..n]) <= s - {w[n]};
      Pigeonhole(w[..n], s - {w[n]});
    }
  }

  lemma {:induction false} ElementsAtMost<T(!new)>(w: seq<T>)
    ensures |Elements(w)| <= |w|
  {
    if w != [] {
      var n := |w| - 1;
      ElementsAtMost(w[..n]);
      assert Elements(w) == Elements(w[..n]) + {w[n]};
    }
  }

  // -------------------------------------------------------------------------
  // Listing a set by key, as iterating an ordered container does
  // -------------------------------------------------------------------------

  /** `out` has exactly the elements of `s`, by key. */
  ghost predicate ListsByKey<T(!new)>(key: T -> seq<int>, s: set<T>, out: seq<T>) {
    StrictlySortedBy(key, out) && forall x :: x in out <==> x in s
  }

  ghost predicate KeysDiffer<T(!new)>(key: T -> seq<int>, s: set<T>) {
    forall x, y | x in s && y in s && key(x) == key(y) :: x == y
  }

  method ListByKey<T(!new,==)>(key: T -> seq<int>, s: set<T>) returns (out: seq<T>)
    requires KeysDiffer(key, s)
    ensures ListsByKey(key, s, out)
  {
    out := [];
    var rest := s;
    while rest != {}
      invariant rest <= s && StrictlySortedBy(key, out) && forall x :: x in out <==> x in s && x !in rest
      decreases rest
    {
      var x :| x in rest;
      InsertStrict(key, x, out);
      var longer := InsertBy(key, x, out);
      forall y ensures y in longer <==> y in out || y == x {
        assert y in longer <==> y in multiset(longer);
        assert y in out <==> y in multiset(out);
      }
      out := longer;
      rest := rest - {x};
    }
  }
}
