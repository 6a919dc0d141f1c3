/** What an LRU cache holds after any operations, said without running it: the keys used last. */
module Recency {
  import opened Wrappers
  import opened Lru

  // -------------------------------------------------------------------------
  // One read
  // -------------------------------------------------------------------------

  lemma {:induction false} FoundAt<V(!new)>(items: Items<V>, p: nat)
    requires DistinctItems(items) && p < |items|
    ensures Has(items, items[p].0) && ValueOf(items, items[p].0) == items[p].1
    ensures Without(items, items[p].0) == items[..p] + items[p + 1..]
  {
    var k := items[p].0;
    if p == 0 {
      WithoutAbsent(items[1..], k);
    } else {
      FoundAt(items[1..], p - 1);
      assert items[1..][p - 1] == items[p];
      assert items[0].0 != k;
      assert items[1..][..p - 1] == items[1..p] && items[1..][p..] == items[p + 1..];
      assert items[..p] == [items[0]] + items[1..p];
    }
  }

  lemma {:induction false} HasHere<V(!new)>(items: Items<V>, p: nat)
    requires p < |items|
    ensures Has(items, items[p].0)
  {
    if p > 0 { HasHere(items[1..], p - 1); }
  }

  /** A hit answers with the value of its key and moves it to the recent end, the others keeping their order. */
  lemma HitRefreshes<V(!new)>(items: Items<V>, p: nat)
    requires DistinctItems(items) && p < |items|
    ensures Get(items, items[p].0) == (items[..p] + items[p + 1..] + [items[p]], Some(items[p].1))
  {
    FoundAt(items, p);
  }

  /** A miss answers with nothing and changes nothing. */
  lemma MissChangesNothing<V(!new)>(items: Items<V>, k: string)
    requires forall p | 0 <= p < |items| :: items[p].0 != k
    ensures Get(items, k) == (items, None)
  {
    NotAmong(items, k);
  }

  lemma {:induction false} NotAmong<V(!new)>(items: Items<V>, k: string)
    requires forall p | 0 <= p < |items| :: items[p].0 != k
    ensures !Has(items, k)
  {
    if items != [] {
      assert forall p | 0 <= p < |items| - 1 :: items[1..][p] == items[p + 1];
      NotAmong(items[1..], k);
    }
  }

  // -------------------------------------------------------------------------
  // Any number of operations
  // -------------------------------------------------------------------------

  /** Where `k` was used last, or -1. */
  function LastUse(uses: seq<string>, k: string): (r: int)
    ensures -1 <= r < |uses|
    ensures r == -1 ==> k !in uses
    ensures r >= 0 ==> uses[r] == k && forall i | r < i < |uses| :: uses[i] != k
  {
    if uses == [] then -1
    else
      var n := |uses| - 1;
      if uses[n] == k then n else LastUse(uses[..n], k)
  }

  /** `keys` are the keys used last, at most `cap` of them, by their last use. */
  predicate Freshest(cap: nat, uses: seq<string>, keys: seq<string>) {
    && |keys| <= cap
    && (forall i | 0 <= i < |keys| :: keys[i] in uses)
    && (forall i, j | 0 <= i < j < |keys| :: LastUse(uses, keys[i]) < LastUse(uses, keys[j]))
    && (forall k | k in uses && k !in keys ::
          |keys| == cap && forall i | 0 <= i < |keys| :: LastUse(uses, k) < LastUse(uses, keys[i]))
  }

  function KeysOf<V>(items: Items<V>): (keys: seq<string>)
    ensures |keys| == |items| && forall i | 0 <= i < |items| :: keys[i] == items[i].0
  {
    seq(|items|, i requires 0 <= i < |items| => items[i].0)
  }

  /** The keys used by a run, in order: those put, and those read with a hit. */
  function Uses<V(!new)>(cap: nat, ops: seq<Op<V>>): seq<string>
    requires cap >= 1
  {
    if ops == [] then []
    else
      var n := |ops| - 1;
      var before := Uses(cap, ops[..n]);
      if ops[n].PutOp? || ops[n].key in KeysOf(Run(cap, ops[..n])) then before + [ops[n].key] else before
  }

  /** What was put last under `k`. */
  function LastPut<V>(ops: seq<Op<V>>, k: string): Option<V> {
    if ops == [] then None
    else
      var n := |ops| - 1;
      if ops[n].PutOp? && ops[n].key == k then Some(ops[n].value) else LastPut(ops[..n], k)
  }

  lemma LastUseOfMore(uses: seq<string>, k: string, j: string)
    ensures LastUse(uses + [k], j) == if j == k then |uses| else LastUse(uses, j)
  {
    assert (uses + [k])[..|uses|] == uses;
  }

  lemma UsesMore(uses: seq<string>, k: string)
    ensures forall j :: LastUse(uses + [k], j) == if j == k then |uses| else LastUse(uses, j)
  {
    forall j ensures LastUse(uses + [k], j) == if j == k then |uses| else LastUse(uses, j) {
      LastUseOfMore(uses, k, j);
    }
  }

  /** The keys without the one at `p`. */
  function Rest(keys: seq<string>, p: nat): (rest: seq<string>)
    requires p < |keys|
    ensures |rest| == |keys| - 1
    ensures forall i | 0 <= i < |rest| :: rest[i] == keys[if i < p then i else i + 1]
  {
    keys[..p] + keys[p + 1..]
  }

  lemma RestHas(keys: seq<string>, p: nat, j: string)
    requires p < |keys| && j in keys && j != keys[p]
    ensures j in Rest(keys, p)
  {
    var i :| 0 <= i < |keys| && keys[i] == j;
    assert Rest(keys, p)[if i < p then i else i - 1] == j;
  }

  /** The key at `p` is used again, or it is the oldest of a full list and a new key takes its place. */
  predicate Moves(cap: nat, keys: seq<string>, p: nat, k: string) {
    p < |keys| && (k == keys[p] || (p == 0 && |keys| == cap && k !in keys))
  }

  lemma RestStays(cap: nat, uses: seq<string>, keys: seq<string>, p: nat, k: string, i: nat)
    requires Freshest(cap, uses, keys) && Moves(cap, keys, p, k) && i < |keys| - 1
    ensures Rest(keys, p)[i] in uses && Rest(keys, p)[i] != k
    ensures LastUse(uses + [k], Rest(keys, p)[i]) == LastUse(uses, Rest(keys, p)[i]) < |uses|
  {
    var at := if i < p then i else i + 1;
    assert Rest(keys, p)[i] == keys[at];
    if k == keys[p] {
      assert LastUse(uses, keys[at]) != LastUse(uses, keys[p]);
    }
    LastUseOfMore(uses, k, keys[at]);
  }

  lemma RestInOrder(cap: nat, uses: seq<string>, keys: seq<string>, p: nat, i: nat, j: nat)
    requires Freshest(cap, uses, keys) && p < |keys| && i < j < |keys| - 1
    ensures LastUse(uses, Rest(keys, p)[i]) < LastUse(uses, Rest(keys, p)[j])
  {
    var a, b := if i < p then i else i + 1, if j < p then j else j + 1;
    assert LastUse(uses, keys[a]) < LastUse(uses, keys[b]);
  }

  lemma OutIsOlder(cap: nat, uses: seq<string>, keys: seq<string>, p: nat, k: string, j: string)
    requires Freshest(cap, uses, keys) && Moves(cap, keys, p, k)
    requires j in uses + [k] && j !in Rest(keys, p) + [k]
    ensures |Rest(keys, p) + [k]| == cap
    ensures var after := Rest(keys, p) + [k];
            forall i | 0 <= i < |after| :: LastUse(uses + [k], j) < LastUse(uses + [k], after[i])
  {
    var rest := Rest(keys, p);
    var after := rest + [k];
    assert after[|rest|] == k && forall i | 0 <= i < |rest| :: after[i] == rest[i];
    LastUseOfMore(uses, k, j);
    LastUseOfMore(uses, k, k);
    LeftOut(cap, uses, keys, p, k, j);
    forall i | 0 <= i < |rest| ensures LastUse(uses + [k], j) < LastUse(uses + [k], rest[i]) {
      RestStays(cap, uses, keys, p, k, i);
    }
  }

  lemma FreshMoved(cap: nat, uses: seq<string>, keys: seq<string>, p: nat, k: string)
    requires Freshest(cap, uses, keys) && Moves(cap, keys, p, k)
    ensures Freshest(cap, uses + [k], Rest(keys, p) + [k])
  {
    var rest, more := Rest(keys, p), uses + [k];
    var after := rest + [k];
    LastUseOfMore(uses, k, k);
    forall i | 0 <= i < |rest| ensures rest[i] in uses && LastUse(more, rest[i]) == LastUse(uses, rest[i]) < |uses| {
      RestStays(cap, uses, keys, p, k, i);
    }
    forall i, j | 0 <= i < j < |after| ensures LastUse(more, after[i]) < LastUse(more, after[j]) {
      if j < |rest| { RestInOrder(cap, uses, keys, p, i, j); }
    }
    forall j | j in more && j !in after
      ensures |after| == cap && forall i | 0 <= i < |after| :: LastUse(more, j) < LastUse(more, after[i])
    {
      OutIsOlder(cap, uses, keys, p, k, j);
    }
  }

  lemma LeftOut(cap: nat, uses: seq<string>, keys: seq<string>, p: nat, k: string, j: string)
    requires Freshest(cap, uses, keys) && Moves(cap, keys, p, k)
    requires j in uses && j != k && j !in Rest(keys, p)
    ensures |keys| == cap && LastUse(uses, j) < |uses|
    ensures forall i | 0 <= i < |keys| - 1 :: LastUse(uses, j) < LastUse(uses, Rest(keys, p)[i])
  {
    if j in keys {
      if j != keys[p] { RestHas(keys, p, j); }
      assert j == keys[p];
      forall i | 0 <= i < |keys| - 1 ensures LastUse(uses, j) < LastUse(uses, Rest(keys, p)[i]) {
        assert Rest(keys, p)[i] == keys[i + 1];
      }
    }
  }

  lemma FreshAdded(cap: nat, uses: seq<string>, keys: seq<string>, k: string)
    requires Freshest(cap, uses, keys) && |keys| < cap && k !in keys
    ensures Freshest(cap, uses + [k], keys + [k])
  {
    UsesMore(uses, k);
  }

  lemma KeysOfMoved<V(!new)>(items: Items<V>, p: nat, x: (string, V))
    requires p < |items|
    ensures KeysOf(items[..p] + items[p + 1..] + [x]) == Rest(KeysOf(items), p) + [x.0]
  {}

  lemma KeysOfAdded<V(!new)>(items: Items<V>, x: (string, V))
    ensures KeysOf(items + [x]) == KeysOf(items) + [x.0]
    ensures items != [] ==> KeysOf(items[1..] + [x]) == Rest(KeysOf(items), 0) + [x.0]
  {
    if items != [] {
      assert Rest(KeysOf(items), 0) == KeysOf(items)[1..];
    }
  }

  lemma {:induction false} RunDistinct<V(!new)>(cap: nat, ops: seq<Op<V>>)
    requires cap >= 1
    ensures DistinctItems(Run(cap, ops))
  {
    if ops != [] {
      var n := |ops| - 1;
      RunDistinct(cap, ops[..n]);
      var items, op := Run(cap, ops[..n]), ops[n];
      match op {
        case GetOp(k) => GetHas(items, k, k);
        case PutOp(k, v) => PutHas(cap, items, k, v, k);
      }
    }
  }

  lemma PutTouches<V(!new)>(cap: nat, items: Items<V>, p: nat, v: V)
    requires cap >= 1 && DistinctItems(items) && p < |items|
    ensures Put(cap, items, items[p].0, v) == items[..p] + items[p + 1..] + [(items[p].0, v)]
  {
    FoundAt(items, p);
  }

  lemma PutAdds<V(!new)>(cap: nat, items: Items<V>, k: string, v: V)
    requires cap >= 1 && k !in KeysOf(items)
    ensures Put(cap, items, k, v) == (if |items| == cap then items[1..] else items) + [(k, v)]
  {
    assert forall p | 0 <= p < |items| :: KeysOf(items)[p] == items[p].0;
    NotAmong(items, k);
  }

  lemma ReadIsFresh<V(!new)>(cap: nat, uses: seq<string>, items: Items<V>, k: string)
    requires DistinctItems(items) && Freshest(cap, uses, KeysOf(items))
    ensures Freshest(cap, if k in KeysOf(items) then uses + [k] else uses, KeysOf(Get(items, k).0))
  {
    if k in KeysOf(items) {
      var p: nat :| p < |items| && KeysOf(items)[p] == k;
      HitRefreshes(items, p);
      KeysOfMoved(items, p, items[p]);
      FreshMoved(cap, uses, KeysOf(items), p, k);
    } else {
      assert forall p | 0 <= p < |items| :: KeysOf(items)[p] != k;
      MissChangesNothing(items, k);
    }
  }

  lemma PutIsFresh<V(!new)>(cap: nat, uses: seq<string>, items: Items<V>, k: string, v: V)
    requires cap >= 1 && DistinctItems(items) && Freshest(cap, uses, KeysOf(items))
    ensures Freshest(cap, uses + [k], KeysOf(Put(cap, items, k, v)))
  {
    if k in KeysOf(items) {
      var p: nat :| p < |items| && KeysOf(items)[p] == k;
      PutTouches(cap, items, p, v);
      KeysOfMoved(items, p, (k, v));
      FreshMoved(cap, uses, KeysOf(items), p, k);
    } else {
      PutAdds(cap, items, k, v);
      KeysOfAdded(items, (k, v));
      if |items| == cap {
        FreshMoved(cap, uses, KeysOf(items), 0, k);
      } else {
        FreshAdded(cap, uses, KeysOf(items), k);
      }
    }
  }

  /**
   Over any operations the cache holds the keys used last (put, or read with a hit), at most its capacity
   of them, in the order of their last use.
   */
  lemma {:induction false} HoldsTheFreshest<V(!new)>(cap: nat, ops: seq<Op<V>>)
    requires cap >= 1
    ensures Freshest(cap, Uses(cap, ops), KeysOf(Run(cap, ops)))
  {
    if ops != [] {
      var n := |ops| - 1;
      HoldsTheFreshest(cap, ops[..n]);
      RunDistinct(cap, ops[..n]);
      var items := Run(cap, ops[..n]);
      match ops[n] {
        case GetOp(k) => ReadIsFresh(cap, Uses(cap, ops[..n]), items, k);
        case PutOp(k, v) => PutIsFresh(cap, Uses(cap, ops[..n]), items, k, v);
      }
    }
  }

  /** And each under the value put last. */
  lemma {:induction false} HoldsTheLastPut<V(!new)>(cap: nat, ops: seq<Op<V>>)
    requires cap >= 1
    ensures forall i | 0 <= i < |Run(cap, ops)| ::
              Some(Run(cap, ops)[i].1) == LastPut(ops, Run(cap, ops)[i].0)
  {
    if ops != [] {
      var n := |ops| - 1;
      HoldsTheLastPut(cap, ops[..n]);
      RunDistinct(cap, ops[..n]);
      StepValues(cap, Run(cap, ops[..n]), ops, n);
    }
  }

  lemma StepValues<V(!new)>(cap: nat, items: Items<V>, ops: seq<Op<V>>, n: nat)
    requires cap >= 1 && DistinctItems(items) && n == |ops| - 1
    requires forall i | 0 <= i < |items| :: Some(items[i].1) == LastPut(ops[..n], items[i].0)
    ensures var after := Step(cap, items, ops[n]);
            forall i | 0 <= i < |after| :: Some(after[i].1) == LastPut(ops, after[i].0)
  {
    var k := ops[n].key;
    if k in KeysOf(items) {
      var p: nat :| p < |items| && KeysOf(items)[p] == k;
      KnownValues(cap, items, ops, n, p);
    } else {
      assert forall p | 0 <= p < |items| :: KeysOf(items)[p] != k;
      match ops[n] {
        case GetOp(_) => MissChangesNothing(items, k);
        case PutOp(_, v) => PutAdds(cap, items, k, v);
      }
    }
  }

  lemma KnownValues<V(!new)>(cap: nat, items: Items<V>, ops: seq<Op<V>>, n: nat, p: nat)
    requires cap >= 1 && DistinctItems(items) && n == |ops| - 1 && p < |items| && items[p].0 == ops[n].key
    requires forall i | 0 <= i < |items| :: Some(items[i].1) == LastPut(ops[..n], items[i].0)
    ensures var after := Step(cap, items, ops[n]);
            forall i | 0 <= i < |after| :: Some(after[i].1) == LastPut(ops, after[i].0)
  {
    OthersDiffer(items, p);
    match ops[n] {
      case GetOp(_) => HitRefreshes(items, p);
      case PutOp(_, v) => PutTouches(cap, items, p, v);
    }
    var after := Step(cap, items, ops[n]);
    forall i | 0 <= i < |after| ensures Some(after[i].1) == LastPut(ops, after[i].0) {
      var at := if i == |items| - 1 then p else if i < p then i else i + 1;
      assert after[i].0 == items[at].0;
    }
  }

  lemma {:induction false} OthersDiffer<V(!new)>(items: Items<V>, p: nat)
    requires DistinctItems(items) && p < |items|
    ensures forall i | 0 <= i < |items| && i != p :: items[i].0 != items[p].0
  {
    if p == 0 {
      forall i | 0 < i < |items| ensures items[i].0 != items[0].0 {
        HasHere(items[1..], i - 1);
      }
    } else {
      OthersDiffer(items[1..], p - 1);
      HasHere(items[1..], p - 1);
    }
  }
}
