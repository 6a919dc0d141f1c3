/**
 Prioritised topological order over any graph of dependencies, each waiting node mapped to the waiting
 nodes it depends on, itself excepted: at each turn the ready node of least
 key, and once none is ready all that are left, by key.
 */
module Scheduling {
  import opened Graphs
  import opened Orders

  ghost predicate Closed<T(!new)>(g: Graph<T>) {
    forall i | i in g :: g[i] <= g.Keys && i !in g[i]
  }

  function Ready<T>(g: Graph<T>): set<T> {
    set i | i in g && g[i] == {}
  }

  function Without<T>(g: Graph<T>, c: T): Graph<T> {
    map i | i in g && i != c :: g[i] - {c}
  }

  ghost predicate IsLeast<T(!new)>(key: T -> seq<int>, s: set<T>, c: T) {
    c in s && forall x | x in s :: LexLe(key(c), key(x))
  }

  /** What one run of the scheduler over `g` gives. */
  ghost predicate IsOrder<T(!new)>(g: Graph<T>, key: T -> seq<int>, out: seq<T>)
    decreases |out|
  {
    if Ready(g) == {} then ListsByKey(key, g.Keys, out)
    else out != [] && IsLeast(key, Ready(g), out[0]) && IsOrder(Without(g, out[0]), key, out[1..])
  }

  lemma WithoutShrinks<T(!new)>(g: Graph<T>, c: T)
    requires c in g
    ensures Without(g, c).Keys == g.Keys - {c} && |Without(g, c).Keys| < |g.Keys|
  {
    assert |g.Keys - {c}| == |g.Keys| - 1;
  }

  /** Taking the nodes of `prefix` one after the other, each the least ready, leaves `left`. */
  ghost predicate Taken<T(!new)>(g: Graph<T>, key: T -> seq<int>, prefix: seq<T>, left: Graph<T>)
    decreases |prefix|
  {
    if prefix == [] then left == g
    else IsLeast(key, Ready(g), prefix[0]) && Taken(Without(g, prefix[0]), key, prefix[1..], left)
  }

  lemma {:induction false} TakenOneMore<T(!new)>(g: Graph<T>, key: T -> seq<int>, prefix: seq<T>, left: Graph<T>, c: T)
    requires Taken(g, key, prefix, left) && IsLeast(key, Ready(left), c)
    ensures Taken(g, key, prefix + [c], Without(left, c))
    decreases |prefix|
  {
    if prefix == [] {
      assert ([] + [c])[1..] == [];
    } else {
      TakenOneMore(Without(g, prefix[0]), key, prefix[1..], left, c);
      assert (prefix + [c])[1..] == prefix[1..] + [c];
    }
  }

  lemma {:induction false} TakenThenOrder<T(!new)>(g: Graph<T>, key: T -> seq<int>, prefix: seq<T>, left: Graph<T>,
                                                   rest: seq<T>)
    requires Taken(g, key, prefix, left) && IsOrder(left, key, rest)
    ensures IsOrder(g, key, prefix + rest)
    decreases |prefix|
  {
    if prefix == [] {
      assert [] + rest == rest;
    } else {
      TakenThenOrder(Without(g, prefix[0]), key, prefix[1..], left, rest);
      assert (prefix + rest)[1..] == prefix[1..] + rest;
    }
  }

  method Least<T(!new,==)>(key: T -> seq<int>, s: set<T>) returns (c: T)
    requires s != {}
    ensures IsLeast(key, s, c)
  {
    c :| c in s;
    LexTotal(key(c), key(c));
    var rest := s - {c};
    while rest != {}
      invariant c in s && rest <= s && forall x | x in s && x !in rest :: LexLe(key(c), key(x))
      decreases rest
    {
      var x :| x in rest;
      rest := rest - {x};
      LexTotal(key(c), key(x));
      if !LexLe(key(c), key(x)) {
        forall y | y in s && y !in rest && y != x ensures LexLe(key(x), key(y)) {
          LexTransitive(key(x), key(c), key(y));
        }
        LexTotal(key(x), key(x));
        c := x;
      }
    }
  }

  /** How many nodes came out because they were ready. */
  ghost function Ordered<T(!new)>(g: Graph<T>, key: T -> seq<int>, out: seq<T>): (n: nat)
    requires IsOrder(g, key, out)
    ensures n <= |out|
    decreases |out|
  {
    if Ready(g) == {} then 0 else 1 + Ordered(Without(g, out[0]), key, out[1..])
  }

  lemma WithoutClosed<T(!new)>(g: Graph<T>, c: T)
    requires Closed(g) && c in Ready(g)
    ensures Closed(Without(g, c)) && Without(g, c).Keys == g.Keys - {c}
  {}

  /** A permutation: every node comes out exactly once. */
  lemma {:induction false} OrderIsPermutation<T(!new)>(g: Graph<T>, key: T -> seq<int>, out: seq<T>)
    requires IsOrder(g, key, out)
    ensures forall x :: x in out <==> x in g
    ensures forall i, j | 0 <= i < j < |out| :: out[i] != out[j]
    decreases |out|
  {
    if Ready(g) != {} {
      OrderIsPermutation(Without(g, out[0]), key, out[1..]);
      assert out == [out[0]] + out[1..];
      forall i, j | 0 <= i < j < |out| ensures out[i] != out[j] {
        if i == 0 { assert out[j] == out[1..][j - 1] && out[j] in out[1..]; }
        else { assert out[i] == out[1..][i - 1] && out[j] == out[1..][j - 1]; }
      }
    }
  }

  /** Nothing about the order is left to chance. */
  lemma {:induction false} OrderIsUnique<T(!new)>(g: Graph<T>, key: T -> seq<int>, a: seq<T>, b: seq<T>)
    requires IsOrder(g, key, a) && IsOrder(g, key, b) && KeysDiffer(key, g.Keys)
    ensures a == b
    decreases |a|
  {
    if Ready(g) == {} {
      StrictUnique(key, a, b);
    } else {
      LexAntisymmetric(key(a[0]), key(b[0]));
      OrderIsUnique(Without(g, a[0]), key, a[1..], b[1..]);
      assert a == [a[0]] + a[1..] && b == [b[0]] + b[1..];
    }
  }

  /** Each node of the ordered part comes after all it depends on. */
  lemma {:induction false} DependenciesFirst<T(!new)>(g: Graph<T>, key: T -> seq<int>, out: seq<T>, p: nat, d: T)
    requires Closed(g) && IsOrder(g, key, out) && p < Ordered(g, key, out)
    requires out[p] in g && d in g[out[p]]
    ensures exists q :: 0 <= q < p && out[q] == d
    decreases |out|
  {
    if p > 0 && d != out[0] {
      OrderIsPermutation(Without(g, out[0]), key, out[1..]);
      assert out[1..][p - 1] == out[p] && out[p] in out[1..];
      WithoutClosed(g, out[0]);
      DependenciesFirst(Without(g, out[0]), key, out[1..], p - 1, d);
      var q :| 0 <= q < p - 1 && out[1..][q] == d;
      assert out[q + 1] == d;
    }
  }

  // -------------------------------------------------------------------------
  // The tail
  // -------------------------------------------------------------------------

  /** A walk from `i` that comes back to a node it has been at. */
  ghost predicate ReachesCycle<T(!new)>(g: Graph<T>, i: T) {
    exists w: seq<T> :: Walk(g, w) && w[0] == i && Returns(w)
  }

  ghost predicate Returns<T(!new)>(w: seq<T>) {
    exists k :: 0 <= k < |w| - 1 && w[k] == w[|w| - 1]
  }

  ghost predicate DependsInto<T(!new)>(g: Graph<T>, i: T, s: set<T>) {
    i in g && exists d :: d in s && d in g[i]
  }

  /** Every member depends on a member. */
  ghost predicate Stuck<T(!new)>(g: Graph<T>, s: set<T>) {
    forall i {:trigger DependsInto(g, i, s)} | i in s :: DependsInto(g, i, s)
  }

  lemma AllAreStuck<T(!new)>(g: Graph<T>)
    requires Closed(g) && Ready(g) == {}
    ensures Stuck(g, g.Keys)
  {
    forall i | i in g.Keys ensures DependsInto(g, i, g.Keys) {
      assert i !in Ready(g);
      var d :| d in g[i];
    }
  }

  lemma StuckInLess<T(!new)>(g: Graph<T>, c: T, s: set<T>)
    requires Stuck(Without(g, c), s)
    ensures Stuck(g, s)
  {
    var less := Without(g, c);
    forall i | i in s ensures DependsInto(g, i, s) {
      assert DependsInto(less, i, s);
      var d :| d in s && d in less[i];
    }
  }

  /** What is left when nothing is ready is stuck, and it is in key order. */
  lemma {:induction false} TailIsStuck<T(!new)>(g: Graph<T>, key: T -> seq<int>, out: seq<T>)
    requires Closed(g) && IsOrder(g, key, out)
    ensures Stuck(g, Elements(out[Ordered(g, key, out)..]))
    ensures StrictlySortedBy(key, out[Ordered(g, key, out)..])
    decreases |out|
  {
    if Ready(g) == {} {
      assert out[0..] == out && Elements(out) == g.Keys;
      AllAreStuck(g);
    } else {
      WithoutClosed(g, out[0]);
      TailIsStuck(Without(g, out[0]), key, out[1..]);
      var n := Ordered(g, key, out);
      assert out[1..][n - 1..] == out[n..];
      StuckInLess(g, out[0], Elements(out[n..]));
    }
  }

  /** From a stuck node a walk can always go on, so in the end it comes back. */
  lemma {:induction false} StuckWalks<T(!new)>(g: Graph<T>, s: set<T>, w: seq<T>)
    requires Stuck(g, s) && Walk(g, w) && Elements(w) <= s && AllDiffer(w)
    ensures ReachesCycle(g, w[0])
    decreases |s| - |w|
  {
    var last := w[|w| - 1];
    assert last in Elements(w) && DependsInto(g, last, s);
    var d :| d in s && d in g[last];
    var longer := w + [d];
    WalkOn(g, w, d);
    assert longer[0] == w[0];
    if d in w {
      var k :| 0 <= k < |w| && w[k] == d;
      assert longer[k] == longer[|longer| - 1];
      assert Returns(longer);
    } else {
      assert Elements(longer) == Elements(w) + {d};
      assert AllDiffer(longer);
      Pigeonhole(longer, s);
      StuckWalks(g, s, longer);
    }
  }

  lemma StuckReaches<T(!new)>(g: Graph<T>, s: set<T>, i: T)
    requires Stuck(g, s) && i in s
    ensures ReachesCycle(g, i)
  {
    assert Elements([i]) == {i};
    StuckWalks(g, s, [i]);
  }

  /** A walk from the ordered part only ever goes to earlier places. */
  lemma {:induction false} WalksGoBack<T(!new)>(g: Graph<T>, key: T -> seq<int>, out: seq<T>, w: seq<T>, p: nat)
    returns (q: nat)
    requires Closed(g) && IsOrder(g, key, out) && p < Ordered(g, key, out)
    requires Walk(g, w) && w[0] == out[p]
    ensures q <= p && out[q] == w[|w| - 1]
    ensures |w| > 1 ==> q < p
    decreases |w|
  {
    q := p;
    if |w| > 1 {
      assert Edge(g, w[0], w[1]);
      DependenciesFirst(g, key, out, p, w[1]);
      var r: nat :| r < p && out[r] == w[1];
      WalkPart(g, w, 1, |w|);
      assert w[1..] == w[1..|w|];
      q := WalksGoBack(g, key, out, w[1..], r);
    }
  }

  lemma OrderedReachNoCycle<T(!new)>(g: Graph<T>, key: T -> seq<int>, out: seq<T>, p: nat)
    requires Closed(g) && IsOrder(g, key, out) && p < Ordered(g, key, out)
    ensures !ReachesCycle(g, out[p])
  {
    if ReachesCycle(g, out[p]) {
      var w: seq<T> :| Walk(g, w) && w[0] == out[p] && Returns(w);
      var k :| 0 <= k < |w| - 1 && w[k] == w[|w| - 1];
      WalkPart(g, w, 0, k + 1);
      var a := WalksGoBack(g, key, out, w[0..k + 1], p);
      WalkPart(g, w, k, |w|);
      var b := WalksGoBack(g, key, out, w[k..|w|], a);
      OrderIsPermutation(g, key, out);
    }
  }

  /** The tail is exactly the nodes from which a cycle can be reached, by key. */
  lemma TailIff<T(!new)>(g: Graph<T>, key: T -> seq<int>, out: seq<T>, p: nat)
    requires Closed(g) && IsOrder(g, key, out) && p < |out|
    ensures p >= Ordered(g, key, out) <==> ReachesCycle(g, out[p])
  {
    var n := Ordered(g, key, out);
    if p < n {
      OrderedReachNoCycle(g, key, out, p);
    } else {
      TailIsStuck(g, key, out);
      assert out[n..][p - n] == out[p];
      StuckReaches(g, Elements(out[n..]), out[p]);
    }
  }

  // -------------------------------------------------------------------------
  // Least among all legal orders
  // -------------------------------------------------------------------------

  /** Distinct nodes, each after all it depends on. */
  ghost predicate Legal<T(!new)>(g: Graph<T>, xs: seq<T>) {
    && (forall i, j | 0 <= i < j < |xs| :: xs[i] != xs[j])
    && (forall p | 0 <= p < |xs| :: xs[p] in g && forall d | d in g[xs[p]] :: d in xs[..p])
  }

  /** `a` is `b`, or smaller at the first place they differ. */
  ghost predicate NotAfter<T(!new)>(key: T -> seq<int>, a: seq<T>, b: seq<T>) {
    a == b || exists k :: 0 <= k < |a| && k < |b| && a[..k] == b[..k] && LexLt(key(a[k]), key(b[k]))
  }

  lemma LegalRest<T(!new)>(g: Graph<T>, xs: seq<T>)
    requires Closed(g) && Legal(g, xs) && xs != []
    ensures xs[0] in Ready(g) && Legal(Without(g, xs[0]), xs[1..])
  {
    var less, rest := Without(g, xs[0]), xs[1..];
    assert forall d | d in g[xs[0]] :: d in xs[..0];
    assert g[xs[0]] == {};
    forall p | 0 <= p < |rest| ensures rest[p] in less && forall d | d in less[rest[p]] :: d in rest[..p] {
      assert rest[p] == xs[p + 1];
      forall d | d in less[rest[p]] ensures d in rest[..p] {
        assert d in xs[..p + 1] && xs[..p + 1] == [xs[0]] + rest[..p];
      }
    }
  }

  lemma NotAfterCons<T(!new)>(key: T -> seq<int>, x: T, a: seq<T>, b: seq<T>)
    requires NotAfter(key, a, b)
    ensures NotAfter(key, [x] + a, [x] + b)
  {
    if a != b {
      var k :| 0 <= k < |a| && k < |b| && a[..k] == b[..k] && LexLt(key(a[k]), key(b[k]));
      assert ([x] + a)[..k + 1] == [x] + a[..k] && ([x] + b)[..k + 1] == [x] + b[..k];
      assert LexLt(key(([x] + a)[k + 1]), key(([x] + b)[k + 1]));
    }
  }

  /** Where two orders part at once, the scheduler's choice is the smaller. */
  lemma FirstIsLeast<T(!new)>(g: Graph<T>, key: T -> seq<int>, c: T, x: T)
    requires IsLeast(key, Ready(g), c) && x in Ready(g) && x != c && KeysDiffer(key, g.Keys)
    ensures LexLt(key(c), key(x))
  {
    assert c in g.Keys && x in g.Keys;
  }

  lemma NotAfterAtOnce<T(!new)>(key: T -> seq<int>, a: seq<T>, b: seq<T>)
    requires a != [] && b != [] && LexLt(key(a[0]), key(b[0]))
    ensures NotAfter(key, a, b)
  {
    assert a[..0] == b[..0];
  }

  /** No legal order of as many nodes is smaller than the ordered part. */
  lemma {:induction false} OrderIsLeast<T(!new)>(g: Graph<T>, key: T -> seq<int>, out: seq<T>, xs: seq<T>)
    requires Closed(g) && IsOrder(g, key, out) && KeysDiffer(key, g.Keys)
    requires Legal(g, xs) && |xs| == Ordered(g, key, out)
    ensures NotAfter(key, out[..|xs|], xs)
    decreases |out|
  {
    var n := |xs|;
    if n == 0 {
      assert out[..n] == xs;
    } else {
      LegalRest(g, xs);
      if xs[0] == out[0] {
        WithoutClosed(g, out[0]);
        OrderIsLeast(Without(g, out[0]), key, out[1..], xs[1..]);
        var b := out[1..][..n - 1];
        assert out[..n] == [out[0]] + b && xs == [xs[0]] + xs[1..];
        NotAfterCons(key, out[0], b, xs[1..]);
      } else {
        FirstIsLeast(g, key, out[0], xs[0]);
        NotAfterAtOnce(key, out[..n], xs);
      }
    }
  }

  /** The ordered part is itself legal. */
  lemma OrderIsLegal<T(!new)>(g: Graph<T>, key: T -> seq<int>, out: seq<T>)
    requires Closed(g) && IsOrder(g, key, out)
    ensures Legal(g, out[..Ordered(g, key, out)])
  {
    var n := Ordered(g, key, out);
    OrderIsPermutation(g, key, out);
    forall p | 0 <= p < n ensures out[p] in g && forall d | d in g[out[p]] :: d in out[..n][..p] {
      assert out[p] in out;
      forall d | d in g[out[p]] ensures d in out[..n][..p] {
        DependenciesFirst(g, key, out, p, d);
        var q :| 0 <= q < p && out[q] == d;
        assert out[..n][..p][q] == d;
      }
    }
  }

  /** A legal order cannot begin on nodes that wait for each other. */
  lemma {:induction false} LegalAvoidsStuck<T(!new)>(g: Graph<T>, s: set<T>, xs: seq<T>, p: nat)
    requires Stuck(g, s) && Legal(g, xs) && p < |xs|
    ensures xs[p] !in s
    decreases p
  {
    if xs[p] in s {
      assert DependsInto(g, xs[p], s);
      var d :| d in s && d in g[xs[p]];
      var q :| 0 <= q < p && xs[..p][q] == d;
      LegalAvoidsStuck(g, s, xs, q);
    }
  }

  /** And as long as any: no legal order has a node the ordered part lacks. */
  lemma OrderIsLongest<T(!new)>(g: Graph<T>, key: T -> seq<int>, out: seq<T>, xs: seq<T>)
    requires Closed(g) && IsOrder(g, key, out) && Legal(g, xs)
    ensures Elements(xs) <= Elements(out[..Ordered(g, key, out)])
    ensures |xs| <= Ordered(g, key, out)
  {
    var n := Ordered(g, key, out);
    TailIsStuck(g, key, out);
    OrderIsPermutation(g, key, out);
    forall x | x in xs ensures x in out[..n] {
      var p :| 0 <= p < |xs| && xs[p] == x;
      LegalAvoidsStuck(g, Elements(out[n..]), xs, p);
      assert x in out && out == out[..n] + out[n..];
    }
    Pigeonhole(xs, Elements(out[..n]));
    ElementsAtMost(out[..n]);
  }

  /** Among all legal orders the ordered part is the longest, and the least of its length. */
  lemma OrderIsBest<T(!new)>(g: Graph<T>, key: T -> seq<int>, out: seq<T>)
    requires Closed(g) && IsOrder(g, key, out) && KeysDiffer(key, g.Keys)
    ensures var n := Ordered(g, key, out);
            forall xs | Legal(g, xs) ::
              && |xs| <= n && Elements(xs) <= Elements(out[..n])
              && (|xs| == n ==> NotAfter(key, out[..n], xs))
  {
    var n := Ordered(g, key, out);
    forall xs | Legal(g, xs)
      ensures |xs| <= n && Elements(xs) <= Elements(out[..n]) && (|xs| == n ==> NotAfter(key, out[..n], xs))
    {
      OrderIsLongest(g, key, out, xs);
      if |xs| == n { OrderIsLeast(g, key, out, xs); }
    }
  }
}
