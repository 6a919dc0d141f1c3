/** Directed graphs as maps from a node to its successors, and walks along their edges. */
module Graphs {

  type Graph<!T> = map<T, set<T>>

  ghost predicate Edge<T(!new)>(g: Graph<T>, a: T, b: T) {
    a in g && b in g[a]
  }

  ghost predicate Linked<T(!new)>(g: Graph<T>, w: seq<T>) {
    forall k | 0 < k < |w| :: Edge(g, w[k - 1], w[k])
  }

  ghost predicate Walk<T(!new)>(g: Graph<T>, w: seq<T>) {
    w != [] && Linked(g, w)
  }

  lemma WalkOn<T(!new)>(g: Graph<T>, w: seq<T>, d: T)
    requires Walk(g, w) && Edge(g, w[|w| - 1], d)
    ensures Walk(g, w + [d])
  {}

  lemma WalkPart<T(!new)>(g: Graph<T>, w: seq<T>, i: nat, j: nat)
    requires Walk(g, w) && i < j <= |w|
    ensures Walk(g, w[i..j])
  {
    var part := w[i..j];
    forall k | 0 < k < |part| ensures Edge(g, part[k - 1], part[k]) {
      assert part[k] == w[i + k] && part[k - 1] == w[i + k - 1];
      assert Edge(g, w[i + k - 1], w[i + k]);
    }
  }
}
