/**
 The three-colour depth-first search for dependency cycles.  Dependencies on nodes outside the graph
 are skipped; a dependency of a node on itself is a cycle of one.
 */
module Cycles {
  import opened Graphs
  import opened Orders

  type Deps<!T> = map<T, seq<T>>

  /** The dependencies inside the graph. */
  function EdgesOf<T(==)>(g: Deps<T>): Graph<T> {
    map n | n in g :: set d | d in g[n] && d in g
  }

  datatype Colour = White | Grey | Black

  ghost predicate DependsOn<T(!new)>(g: Deps<T>, a: T, b: T) {
    a in g && b in g && b in g[a]
  }

  /** A closed walk along dependencies. */
  ghost predicate Cycle<T(!new)>(g: Deps<T>, c: seq<T>) {
    |c| >= 2 && c[0] == c[|c| - 1] && forall k | 0 < k < |c| :: DependsOn(g, c[k - 1], c[k])
  }

  /** One that passes no node twice. */
  ghost predicate SimpleCycle<T(!new)>(g: Deps<T>, c: seq<T>) {
    Cycle(g, c) && AllDiffer(c[..|c| - 1])
  }

  ghost predicate Acyclic<T(!new)>(g: Deps<T>) {
    forall c: seq<T> :: !Cycle(g, c)
  }

  /** Every known dependency of each node stands before it. */
  ghost predicate DepsBefore<T(!new)>(g: Deps<T>, finished: seq<T>) {
    forall i | 0 <= i < |finished| :: DepsAmong(g, finished[i], finished[..i])
  }

  ghost predicate DepsAmong<T(!new)>(g: Deps<T>, n: T, earlier: seq<T>) {
    n in g && forall d | d in g[n] && d in g :: d in earlier
  }

  class CycleFinder<T(!new,==)> {
    const g: Deps<T>
    var colour: map<T, Colour>
    var stack: seq<T>
    var found: seq<seq<T>>
    ghost var finished: seq<T>

    ghost predicate Valid()
      reads this
    {
      && colour.Keys == g.Keys
      && (forall n | n in g :: colour[n] == Grey <==> n in stack)
      && (forall n | n in stack :: n in g)
      && AllDiffer(stack) && Linked(EdgesOf(g), stack)
      && (forall n :: n in finished <==> n in g && colour[n] == Black)
      && (forall c | c in found :: SimpleCycle(g, c))
      && (found == [] ==> DepsBefore(g, finished))
    }

    function Whites(): set<T>
      reads this
    {
      set n | n in colour && colour[n] == White
    }

    constructor (deps: Deps<T>)
      ensures g == deps && Valid() && stack == [] && found == [] && Whites() == g.Keys
    {
      g := deps;
      colour := map n | n in deps :: White;
      stack := [];
      found := [];
      finished := [];
    }

    method Enter(node: T)
      requires Valid() && node in g && colour[node] == White
      requires stack != [] ==> DependsOn(g, stack[|stack| - 1], node)
      modifies this`colour, this`stack
      ensures Valid() && stack == old(stack) + [node] && colour == old(colour)[node := Grey]
      ensures Whites() == old(Whites()) - {node} && node in old(Whites())
    {
      colour := colour[node := Grey];
      stack := stack + [node];
    }

    /** Closes the walk from `dep` up the stack to the node being visited. */
    method Report(dep: T)
      requires Valid() && dep in g && colour[dep] == Grey
      requires stack != [] && DependsOn(g, stack[|stack| - 1], dep)
      modifies this`found
      ensures Valid() && exists i :: 0 <= i < |stack| && stack[i] == dep && found == old(found) + [stack[i..] + [dep]]
    {
      var at := IndexOf(stack, dep);
      var c := stack[at..] + [dep];
      assert c[..|c| - 1] == stack[at..];
      assert SimpleCycle(g, c);
      found := found + [c];
    }

    method Leave(node: T)
      requires Valid() && stack != [] && stack[|stack| - 1] == node
      requires found == [] ==> forall d | d in g[node] && d in g :: colour[d] == Black
      modifies this`colour, this`stack, this`finished
      ensures Valid() && stack == old(stack)[..|old(stack)| - 1] && colour == old(colour)[node := Black]
      ensures Whites() == old(Whites())
    {
      assert node in stack && node !in stack[..|stack| - 1];
      assert found == [] ==> DepsAmong(g, node, finished);
      stack := stack[..|stack| - 1];
      colour := colour[node := Black];
      finished := finished + [node];
      assert forall i | 0 <= i < |finished| - 1 :: finished[..i] == old(finished)[..i];
    }

    method Visit(node: T)
      requires Valid() && node in g && colour[node] == White
      requires stack != [] ==> DependsOn(g, stack[|stack| - 1], node)
      modifies this
      ensures Valid() && stack == old(stack) && colour[node] == Black
      ensures Whites() < old(Whites()) && old(found) <= found
      ensures Keeps(old(colour), colour)
      decreases Whites(), 0
    {
      Enter(node);
      ExploreAll(node);
      Leave(node);
      assert stack == old(stack);
    }

    /** All dependencies of the node being visited, in order. */
    method ExploreAll(node: T)
      requires Valid() && stack != [] && stack[|stack| - 1] == node
      modifies this
      ensures Valid() && stack == old(stack) && Whites() <= old(Whites()) && old(found) <= found
      ensures Keeps(old(colour), colour)
      ensures found == [] ==> forall d | d in g[node] && d in g :: colour[d] == Black
      decreases Whites(), 2
    {
      assert node in stack;
      for i := 0 to |g[node]|
        invariant Valid() && stack == old(stack) && Whites() <= old(Whites()) && old(found) <= found
        invariant Keeps(old(colour), colour)
        invariant found == [] ==> forall d | d in g[node][..i] && d in g :: colour[d] == Black
      {
        assert g[node][i] in g[node] && g[node][..i + 1] == g[node][..i] + [g[node][i]];
        Explore(g[node][i]);
      }
      assert g[node][..|g[node]|] == g[node];
    }

    /** One dependency of the node being visited. */
    method Explore(dep: T)
      requires Valid() && stack != [] && dep in g[stack[|stack| - 1]]
      modifies this
      ensures Valid() && stack == old(stack) && Whites() <= old(Whites()) && old(found) <= found
      ensures Keeps(old(colour), colour)
      ensures found == [] && dep in g ==> colour[dep] == Black
      decreases Whites(), 1
    {
      if dep !in g {
        return;
      }
      assert DependsOn(g, stack[|stack| - 1], dep);
      if colour[dep] == Grey {
        Report(dep);
      } else if colour[dep] == White {
        Visit(dep);
      }
    }

    /** What was visited or on the stack before is as it was. */
    static ghost predicate Keeps(before: map<T, Colour>, after: map<T, Colour>) {
      forall n | n in before && before[n] != White :: n in after && after[n] == before[n]
    }

    method IndexOf(xs: seq<T>, x: T) returns (i: nat)
      requires x in xs
      ensures i < |xs| && xs[i] == x
    {
      i := 0;
      while xs[i] != x
        invariant i < |xs| && x !in xs[..i]
        decreases |xs| - i
      {
        i := i + 1;
      }
    }
  }

  /** The search from every node in turn, in the order the nodes were listed. */
  method FindCycles<T(!new,==)>(g: Deps<T>, order: seq<T>) returns (found: seq<seq<T>>)
    requires forall n :: n in order <==> n in g
    ensures forall c | c in found :: SimpleCycle(g, c)
    ensures found == [] <==> Acyclic(g)
  {
    var finder := new CycleFinder(g);
    for i := 0 to |order|
      invariant finder.g == g && finder.Valid() && finder.stack == []
      invariant forall n | n in order[..i] :: finder.colour[n] == Black
    {
      if finder.colour[order[i]] == White {
        finder.Visit(order[i]);
      }
    }
    found := finder.found;
    if found == [] {
      assert order[..|order|] == order;
      forall c: seq<T> ensures !Cycle(g, c) {
        if Cycle(g, c) {
          assert DependsOn(g, c[0], c[1]);
          var at: nat :| at < |finder.finished| && finder.finished[at] == c[0];
          CycleBreaksOrder(g, finder.finished, c, at);
        }
      }
    } else {
      assert SimpleCycle(g, found[0]);
    }
  }

  /** Along a path, places in the finishing order fall. */
  lemma {:induction false} PlacesFall<T(!new)>(g: Deps<T>, finished: seq<T>, p: seq<T>, at: nat) returns (end: nat)
    requires DepsBefore(g, finished) && Walk(EdgesOf(g), p)
    requires at < |finished| && finished[at] == p[0]
    ensures end <= at && finished[end] == p[|p| - 1]
    ensures |p| > 1 ==> end < at
    decreases |p|
  {
    end := at;
    if |p| > 1 {
      assert DependsOn(g, p[0], p[1]);
      assert DepsAmong(g, finished[at], finished[..at]);
      var next :| 0 <= next < at && finished[next] == p[1];
      WalkPart(EdgesOf(g), p, 1, |p|);
      assert p[1..] == p[1..|p|];
      end := PlacesFall(g, finished, p[1..], next);
    }
  }

  /** So a cycle could be gone round for ever, ever earlier. */
  lemma {:induction false} CycleBreaksOrder<T(!new)>(g: Deps<T>, finished: seq<T>, c: seq<T>, at: nat)
    requires DepsBefore(g, finished) && Cycle(g, c)
    requires at < |finished| && finished[at] == c[0]
    ensures false
    decreases at
  {
    var end := PlacesFall(g, finished, c, at);
    CycleBreaksOrder(g, finished, c, end);
  }
}
