/**
 The fixed-capacity LRU: a map and an order list kept in step, the recency list they stand for, and
 what a larger capacity buys.
 */
module Lru {
  import opened Orders
  import opened Wrappers

  /** A recency list, least recently used first. */
  type Items<V> = seq<(string, V)>

  function Without<V>(items: Items<V>, k: string): (r: Items<V>)
    ensures |r| <= |items|
    ensures !Has(r, k)
    ensures forall j | j != k :: Has(r, j) <==> Has(items, j)
  {
    if items == [] then []
    else if items[0].0 == k then Without(items[1..], k)
    else [items[0]] + Without(items[1..], k)
  }

  predicate Has<V>(items: Items<V>, k: string) {
    if items == [] then false else items[0].0 == k || Has(items[1..], k)
  }

  function ValueOf<V>(items: Items<V>, k: string): V
    requires Has(items, k)
  {
    if items[0].0 == k then items[0].1 else ValueOf(items[1..], k)
  }

  /** A hit moves its key to the recent end. */
  function Get<V>(items: Items<V>, k: string): (Items<V>, Option<V>) {
    if Has(items, k) then
      var v := ValueOf(items, k);
      (Without(items, k) + [(k, v)], Some(v))
    else (items, None)
  }

  /** A new key pushes the oldest one out of a full cache. */
  function Put<V>(cap: nat, items: Items<V>, k: string, v: V): Items<V>
    requires cap >= 1
  {
    if Has(items, k) then Without(items, k) + [(k, v)]
    else if |items| == cap then items[1..] + [(k, v)]
    else items + [(k, v)]
  }

  // -------------------------------------------------------------------------
  // The two containers
  // -------------------------------------------------------------------------

  function ItemsOf<V>(order: seq<string>, m: map<string, V>): (r: Items<V>)
    requires forall k | k in order :: k in m
    ensures |r| == |order|
  {
    if order == [] then [] else [(order[0], m[order[0]])] + ItemsOf(order[1..], m)
  }

  function Drop(order: seq<string>, k: string): seq<string> {
    if order == [] then []
    else if order[0] == k then Drop(order[1..], k)
    else [order[0]] + Drop(order[1..], k)
  }

  lemma {:induction false} DropAt(order: seq<string>, pos: nat)
    requires AllDiffer(order) && pos < |order|
    ensures Drop(order, order[pos]) == order[..pos] + order[pos + 1..]
  {
    if pos == 0 {
      DropAbsent(order[1..], order[0]);
    } else {
      DropAt(order[1..], pos - 1);
      assert order[..pos] + order[pos + 1..] == [order[0]] + (order[1..][..pos - 1] + order[1..][pos..]);
    }
  }

  lemma {:induction false} DropAbsent(order: seq<string>, k: string)
    requires k !in order
    ensures Drop(order, k) == order
  {
    if order != [] {
      DropAbsent(order[1..], k);
    }
  }

  lemma {:induction false} DropElements(order: seq<string>, k: string)
    requires AllDiffer(order)
    ensures AllDiffer(Drop(order, k)) && k !in Drop(order, k)
    ensures forall j | j != k :: j in Drop(order, k) <==> j in order
    ensures |Drop(order, k)| == if k in order then |order| - 1 else |order|
  {
    if order != [] {
      DropElements(order[1..], k);
      if order[0] == k {
        DropAbsent(order[1..], k);
      } else {
        assert order[0] !in order[1..];
        assert order[0] !in Drop(order[1..], k);
      }
    }
  }

  lemma {:induction false} ItemsHas<V(!new)>(order: seq<string>, m: map<string, V>, k: string)
    requires forall j | j in order :: j in m
    ensures Has(ItemsOf(order, m), k) <==> k in order
    ensures k in order ==> ValueOf(ItemsOf(order, m), k) == m[k]
  {
    if order != [] {
      ItemsHas(order[1..], m, k);
    }
  }

  lemma {:induction false} ItemsWithout<V(!new)>(order: seq<string>, m: map<string, V>, k: string)
    requires AllDiffer(order) && forall j | j in order :: j in m
    ensures forall j | j in Drop(order, k) :: j in m
    ensures ItemsOf(Drop(order, k), m) == Without(ItemsOf(order, m), k)
  {
    DropElements(order, k);
    if order != [] {
      ItemsWithout(order[1..], m, k);
      DropElements(order[1..], k);
    }
  }

  lemma {:induction false} ItemsAppend<V(!new)>(order: seq<string>, m: map<string, V>, k: string)
    requires k in m && forall j | j in order :: j in m
    ensures ItemsOf(order + [k], m) == ItemsOf(order, m) + [(k, m[k])]
  {
    if order == [] {
    } else {
      ItemsAppend(order[1..], m, k);
      assert (order + [k])[1..] == order[1..] + [k];
    }
  }

  /** Items depend only on the values of the listed keys. */
  lemma {:induction false} ItemsSame<V(!new)>(order: seq<string>, m: map<string, V>, n: map<string, V>)
    requires forall j | j in order :: j in m && j in n && m[j] == n[j]
    ensures ItemsOf(order, m) == ItemsOf(order, n)
  {
    if order != [] {
      ItemsSame(order[1..], m, n);
    }
  }

  /** Moving `k` to the recent end, possibly with a new value for it. */
  lemma ItemsTouched<V(!new)>(order: seq<string>, m: map<string, V>, n: map<string, V>, k: string)
    requires AllDiffer(order) && k in order && (forall j | j in order :: j in m)
    requires k in n && forall j | j in order && j != k :: j in n && n[j] == m[j]
    ensures forall j | j in Drop(order, k) + [k] :: j in n
    ensures ItemsOf(Drop(order, k) + [k], n) == Without(ItemsOf(order, m), k) + [(k, n[k])]
  {
    DropElements(order, k);
    ItemsWithout(order, m, k);
    ItemsSame(Drop(order, k), m, n);
    ItemsAppend(Drop(order, k), n, k);
  }

  /** A new key at the recent end, the oldest one gone when the cache was full. */
  lemma ItemsInserted<V(!new)>(cap: nat, order: seq<string>, m: map<string, V>, k: string, v: V)
    requires cap >= 1 && AllDiffer(order) && k !in order && |order| <= cap && (forall j | j in order :: j in m)
    ensures var kept := if |order| == cap then order[1..] else order;
            var n := (if |order| == cap then m - {order[0]} else m)[k := v];
            && k !in kept && (forall j | j in kept + [k] :: j in n)
            && ItemsOf(kept + [k], n) == Put(cap, ItemsOf(order, m), k, v)
  {
    var kept := if |order| == cap then order[1..] else order;
    var n := (if |order| == cap then m - {order[0]} else m)[k := v];
    ItemsHas(order, m, k);
    ItemsSame(kept, m, n);
    ItemsAppend(kept, n, k);
  }

  /** The keys left when the oldest goes and `k` comes. */
  lemma OldestGone(order: seq<string>, k: string)
    requires AllDiffer(order) && order != [] && k !in order
    ensures AllDiffer(order[1..] + [k])
    ensures forall j :: j in order[1..] + [k] <==> j == k || (j in order && j != order[0])
  {
    assert order == [order[0]] + order[1..];
    forall j ensures j in order[1..] + [k] <==> j == k || (j in order && j != order[0]) {
      assert j in order <==> j == order[0] || j in order[1..];
    }
  }

  lemma OldestReplaced<V(!new)>(cap: nat, order: seq<string>, m: map<string, V>, k: string, v: V)
    requires cap >= 1 && AllDiffer(order) && k !in order && |order| == cap && (forall j :: j in order <==> j in m)
    ensures var kept, n := order[1..] + [k], (m - {order[0]})[k := v];
            && AllDiffer(kept) && (forall j :: j in kept <==> j in n) && |kept| == cap
            && ItemsOf(kept, n) == Put(cap, ItemsOf(order, m), k, v)
  {
    ItemsInserted(cap, order, m, k, v);
    OldestGone(order, k);
  }

  lemma NewestAdded<V(!new)>(cap: nat, order: seq<string>, m: map<string, V>, k: string, v: V)
    requires cap >= 1 && AllDiffer(order) && k !in order && |order| < cap && (forall j :: j in order <==> j in m)
    ensures var kept, n := order + [k], m[k := v];
            && AllDiffer(kept) && (forall j :: j in kept <==> j in n) && |kept| <= cap
            && ItemsOf(kept, n) == Put(cap, ItemsOf(order, m), k, v)
  {
    ItemsInserted(cap, order, m, k, v);
  }

  class LruCache<V(!new)> {
    const cap: nat
    var table: map<string, V>
    var order: seq<string>

    ghost predicate Valid()
      reads this
    {
      && cap >= 1
      && |order| <= cap
      && AllDiffer(order)
      && (forall k :: k in order <==> k in table)
    }

    ghost function Recency(): Items<V>
      requires Valid()
      reads this
    {
      ItemsOf(order, table)
    }

    constructor (capacity: nat)
      ensures Valid() && Recency() == []
      ensures cap == if capacity >= 1 then capacity else 1
    {
      cap := if capacity >= 1 then capacity else 1;
      table := map[];
      order := [];
    }

    method GetValue(key: string) returns (r: Option<V>)
      requires Valid()
      modifies this`order
      ensures Valid()
      ensures (Recency(), r) == Get(old(Recency()), key)
    {
      ItemsHas(order, table, key);
      if key !in table {
        return None;
      }
      var value := table[key];
      ItemsTouched(order, table, table, key);
      Touch(key);
      return Some(value);
    }

    method PutValue(key: string, value: V)
      requires Valid()
      modifies this
      ensures Valid()
      ensures Recency() == Put(cap, old(Recency()), key, value)
    {
      KeysMatch(order, table);
      ItemsHas(order, table, key);
      if key !in table {
        AppendNew(key, value);
      } else {
        ItemsTouched(order, table, table[key := value], key);
        table := table[key := value];
      }
      Touch(key);
    }

    /** A key not yet there, at the recent end. */
    method AppendNew(key: string, value: V)
      requires Valid() && |table| == |order| && key !in order
      modifies this
      ensures Valid() && key in order && Drop(order, key) + [key] == order
      ensures Recency() == Put(cap, old(Recency()), key, value)
    {
      ghost var full := |order| == cap;
      ghost var before, values := order, table;
      MakeRoom();
      ghost var kept := order;
      order := order + [key];
      table := table[key := value];
      if full {
        OldestReplaced(cap, before, values, key, value);
      } else {
        NewestAdded(cap, before, values, key, value);
      }
      DropLast(kept, key);
    }

    /** The oldest key leaves a full cache. */
    method MakeRoom()
      requires Valid() && |table| == |order|
      modifies this
      ensures Valid() && |order| < cap
      ensures order == if |old(order)| == cap then old(order)[1..] else old(order)
      ensures table == if |old(order)| == cap then old(table) - {old(order)[0]} else old(table)
    {
      if |table| == cap {
        var oldest := order[0];
        assert order == [oldest] + order[1..];
        order := order[1..];
        table := table - {oldest};
      }
    }

    method Touch(key: string)
      requires Valid() && key in order
      modifies this`order
      ensures Valid() && order == Drop(old(order), key) + [key]
    {
      var pos := 0;
      while order[pos] != key
        invariant pos < |order| && key !in order[..pos]
        decreases |order| - pos
      {
        assert order[..pos + 1] == order[..pos] + [order[pos]];
        assert exists k :: pos < k < |order| && order[k] == key;
        pos := pos + 1;
      }
      DropAt(order, pos);
      DropElements(order, key);
      order := order[..pos] + order[pos + 1..] + [key];
    }
  }

  lemma {:induction false} DropLast(front: seq<string>, key: string)
    requires key !in front
    ensures Drop(front + [key], key) == front
  {
    if front == [] {
      assert (front + [key])[1..] == [];
    } else {
      DropLast(front[1..], key);
      assert (front + [key])[1..] == front[1..] + [key];
    }
  }

  lemma {:induction false} KeysMatch<V(!new)>(order: seq<string>, m: map<string, V>)
    requires AllDiffer(order) && forall k :: k in order <==> k in m
    ensures |m| == |order|
  {
    if order == [] {
      assert m.Keys == {};
    } else {
      var k := order[0];
      KeysMatch(order[1..], m - {k});
      assert m.Keys == (m - {k}).Keys + {k};
    }
  }

  // -------------------------------------------------------------------------
  // A larger capacity never loses a hit
  // -------------------------------------------------------------------------

  datatype Op<V> = GetOp(key: string) | PutOp(key: string, value: V)

  function Step<V>(cap: nat, items: Items<V>, op: Op<V>): Items<V>
    requires cap >= 1
  {
    match op
    case GetOp(k) => Get(items, k).0
    case PutOp(k, v) => Put(cap, items, k, v)
  }

  function Run<V>(cap: nat, ops: seq<Op<V>>): Items<V>
    requires cap >= 1
  {
    if ops == [] then [] else Step(cap, Run(cap, ops[..|ops| - 1]), ops[|ops| - 1])
  }

  /** `s` is `l` with some items left out, order kept. */
  predicate Subsequence<V(==)>(s: Items<V>, l: Items<V>) {
    if s == [] then true
    else if l == [] then false
    else if s[0] == l[0] then Subsequence(s[1..], l[1..])
    else Subsequence(s, l[1..])
  }

  ghost predicate DistinctItems<V>(items: Items<V>) {
    if items == [] then true else !Has(items[1..], items[0].0) && DistinctItems(items[1..])
  }

  ghost predicate Nested<V>(cap: nat, s: Items<V>, l: Items<V>) {
    && Subsequence(s, l) && DistinctItems(l)
    && |s| <= cap && (|s| < cap ==> s == l)
  }

  lemma {:induction false} SubTail<V(!new)>(s: Items<V>, l: Items<V>)
    requires Subsequence(s, l) && s != []
    ensures Subsequence(s[1..], l)
    ensures l != [] && Subsequence(s[1..], l[1..])
    decreases |l|, 1
  {
    if s[0] != l[0] {
      SubTail(s, l[1..]);
    }
    SubSkip(s[1..], l);
  }

  lemma {:induction false} SubSkip<V(!new)>(s: Items<V>, l: Items<V>)
    requires l != [] && Subsequence(s, l[1..])
    ensures Subsequence(s, l)
    decreases |l|, 0
  {
    if s != [] && s[0] == l[0] {
      SubTail(s, l[1..]);
    }
  }

  lemma {:induction false} SubWithout<V(!new)>(s: Items<V>, l: Items<V>, k: string)
    requires Subsequence(s, l)
    ensures Subsequence(Without(s, k), Without(l, k))
  {
    if s == [] {
    } else if s[0] == l[0] {
      SubWithout(s[1..], l[1..], k);
    } else {
      SubWithout(s, l[1..], k);
      if l[0].0 != k {
        assert Without(l, k)[1..] == Without(l[1..], k);
        SubSkip(Without(s, k), Without(l, k));
      }
    }
  }

  lemma {:induction false} SubAppend<V(!new)>(s: Items<V>, l: Items<V>, x: (string, V))
    requires Subsequence(s, l)
    ensures Subsequence(s + [x], l + [x])
  {
    if l == [] {
    } else if s == [] {
      SubAppend(s, l[1..], x);
      assert (l + [x])[1..] == l[1..] + [x];
      SubSkip(s + [x], l + [x]);
    } else if s[0] == l[0] {
      SubAppend(s[1..], l[1..], x);
      assert (s + [x])[1..] == s[1..] + [x] && (l + [x])[1..] == l[1..] + [x];
    } else {
      SubAppend(s, l[1..], x);
      assert (l + [x])[1..] == l[1..] + [x];
    }
  }

  lemma {:induction false} SubHas<V(!new)>(s: Items<V>, l: Items<V>, k: string)
    requires Subsequence(s, l) && DistinctItems(l) && Has(s, k)
    ensures Has(l, k) && ValueOf(s, k) == ValueOf(l, k)
  {
    if s[0] == l[0] {
      if s[0].0 != k { SubHas(s[1..], l[1..], k); }
    } else {
      SubHas(s, l[1..], k);
    }
  }

  lemma {:induction false} WithoutAbsent<V(!new)>(items: Items<V>, k: string)
    requires !Has(items, k)
    ensures Without(items, k) == items
  {
    if items != [] { WithoutAbsent(items[1..], k); }
  }

  lemma {:induction false} WithoutDistinct<V(!new)>(items: Items<V>, k: string)
    requires DistinctItems(items)
    ensures DistinctItems(Without(items, k))
    ensures Has(items, k) ==> |Without(items, k)| == |items| - 1
  {
    if items != [] {
      WithoutDistinct(items[1..], k);
      if items[0].0 == k { WithoutAbsent(items[1..], k); }
    }
  }

  lemma {:induction false} AppendDistinct<V(!new)>(items: Items<V>, x: (string, V))
    requires DistinctItems(items) && !Has(items, x.0)
    ensures DistinctItems(items + [x])
  {
    if items != [] {
      AppendDistinct(items[1..], x);
      assert (items + [x])[1..] == items[1..] + [x];
      HasAppend(items[1..], x, items[0].0);
    }
  }

  lemma {:induction false} HasAppend<V(!new)>(items: Items<V>, x: (string, V), k: string)
    ensures Has(items + [x], k) <==> Has(items, k) || x.0 == k
  {
    if items != [] {
      HasAppend(items[1..], x, k);
      assert (items + [x])[1..] == items[1..] + [x];
    }
  }

  /** Moving a key both caches hold (or only the larger one) to the recent end keeps them nested. */
  /** Putting `k` pushes the key `j` out of the cache. */
  predicate PushesOut<V>(cap: nat, items: Items<V>, k: string, j: string) {
    !Has(items, k) && |items| == cap > 0 && items[0].0 == j
  }

  lemma PutHas<V(!new)>(cap: nat, items: Items<V>, k: string, v: V, j: string)
    requires cap >= 1 && DistinctItems(items)
    ensures DistinctItems(Put(cap, items, k, v))
    ensures Has(Put(cap, items, k, v), j) <==> j == k || (Has(items, j) && !PushesOut(cap, items, k, j))
  {
    var left := if Has(items, k) then Without(items, k) else if |items| == cap then items[1..] else items;
    WithoutDistinct(items, k);
    AppendDistinct(left, (k, v));
    HasAppend(left, (k, v), j);
  }

  lemma GetHas<V(!new)>(items: Items<V>, k: string, j: string)
    requires DistinctItems(items)
    ensures DistinctItems(Get(items, k).0)
    ensures Has(Get(items, k).0, j) <==> Has(items, j)
  {
    if Has(items, k) {
      WithoutDistinct(items, k);
      AppendDistinct(Without(items, k), (k, ValueOf(items, k)));
      HasAppend(Without(items, k), (k, ValueOf(items, k)), j);
    }
  }

  lemma {:induction false} ValueOfAppend<V(!new)>(items: Items<V>, x: (string, V), k: string)
    requires Has(items, k) || x.0 == k
    ensures Has(items + [x], k) && ValueOf(items + [x], k) == if Has(items, k) then ValueOf(items, k) else x.1
  {
    HasAppend(items, x, k);
    if items != [] {
      assert (items + [x])[1..] == items[1..] + [x];
      if items[0].0 != k { ValueOfAppend(items[1..], x, k); }
    }
  }

  lemma {:induction false} ValueOfWithout<V(!new)>(items: Items<V>, k: string, j: string)
    requires Has(items, j) && j != k
    ensures ValueOf(Without(items, k), j) == ValueOf(items, j)
  {
    if items[0].0 == j {
      assert items[0].0 != k;
    } else {
      ValueOfWithout(items[1..], k, j);
    }
  }

  /** Reading one key changes the value of none. */
  lemma GetKeepsValues<V(!new)>(items: Items<V>, k: string, j: string)
    requires Has(items, j)
    ensures Get(Get(items, k).0, j).1 == Some(ValueOf(items, j))
  {
    if Has(items, k) {
      ValueOfAppend(Without(items, k), (k, ValueOf(items, k)), j);
      if j != k { ValueOfWithout(items, k, j); }
    }
  }

  lemma PutIsRead<V(!new)>(cap: nat, items: Items<V>, k: string, v: V)
    requires cap >= 1 && DistinctItems(items)
    ensures Get(Put(cap, items, k, v), k).1 == Some(v)
  {
    var left := if Has(items, k) then Without(items, k) else if |items| == cap then items[1..] else items;
    ValueOfAppend(left, (k, v), k);
  }

  lemma NestedMove<V(!new)>(cap: nat, s: Items<V>, l: Items<V>, k: string, v: V)
    requires Nested(cap, s, l) && Has(l, k)
    ensures Has(s, k) ==> Nested(cap, Without(s, k) + [(k, v)], Without(l, k) + [(k, v)])
    ensures !Has(s, k) ==> |s| == cap && Subsequence(s, Without(l, k))
    ensures DistinctItems(Without(l, k) + [(k, v)])
  {
    SubWithout(s, l, k);
    WithoutDistinct(l, k);
    AppendDistinct(Without(l, k), (k, v));
    SubAppend(Without(s, k), Without(l, k), (k, v));
    if Has(s, k) {
      SubDistinct(s, l);
      WithoutDistinct(s, k);
    } else {
      WithoutAbsent(s, k);
    }
  }

  lemma {:induction false} SubDistinct<V(!new)>(s: Items<V>, l: Items<V>)
    requires Subsequence(s, l) && DistinctItems(l)
    ensures DistinctItems(s)
  {
    if s == [] {
    } else if s[0] == l[0] {
      SubDistinct(s[1..], l[1..]);
      if Has(s[1..], s[0].0) { SubHas(s[1..], l[1..], s[0].0); }
    } else {
      SubDistinct(s, l[1..]);
    }
  }

  lemma NestedStep<V(!new)>(small: nat, large: nat, s: Items<V>, l: Items<V>, op: Op<V>)
    requires 1 <= small <= large && Nested(small, s, l) && |l| <= large
    ensures Nested(small, Step(small, s, op), Step(large, l, op)) && |Step(large, l, op)| <= large
  {
    var k := op.key;
    if Has(l, k) { WithoutDistinct(l, k); }
    if Has(s, k) {
      SubHas(s, l, k);
      NestedMove(small, s, l, k, if op.GetOp? then ValueOf(s, k) else op.value);
    } else if op.GetOp? {
      if Has(l, k) { NestedMove(small, s, l, k, ValueOf(l, k)); SubGrow(s, Without(l, k), (k, ValueOf(l, k))); }
    } else {
      var x := (k, op.value);
      if Has(l, k) {
        NestedMove(small, s, l, k, op.value);
        SubTail(s, Without(l, k));
        SubAppend(s[1..], Without(l, k), x);
      } else {
        NestedInsert(small, large, s, l, x);
      }
    }
  }

  lemma {:induction false} SubGrow<V(!new)>(s: Items<V>, l: Items<V>, x: (string, V))
    requires Subsequence(s, l)
    ensures Subsequence(s, l + [x])
  {
    if s != [] {
      assert (l + [x])[1..] == l[1..] + [x];
      if s[0] == l[0] { SubGrow(s[1..], l[1..], x); } else { SubGrow(s, l[1..], x); }
    }
  }

  /** A key new to both: the smaller evicts first, and never evicts what the larger already lost. */
  lemma NestedInsert<V(!new)>(small: nat, large: nat, s: Items<V>, l: Items<V>, x: (string, V))
    requires 1 <= small <= large && Nested(small, s, l) && |l| <= large && !Has(s, x.0) && !Has(l, x.0)
    ensures Nested(small, Put(small, s, x.0, x.1), Put(large, l, x.0, x.1))
  {
    AppendDistinct(l, x);
    SubAppend(s, l, x);
    if l != [] { AppendDistinct(l[1..], x); }
    if |s| == small {
      SubTail(s, l);
      SubAppend(s[1..], l, x);
      SubAppend(s[1..], l[1..], x);
    }
  }

  /**
   After any run of operations the smaller cache's recency list is the larger one's with items left
   out, and a hit in the smaller is a hit with the same value in the larger.
   */
  lemma {:induction false} LargerCacheKeepsEveryHit<V(!new)>(small: nat, large: nat, ops: seq<Op<V>>, k: string)
    requires 1 <= small <= large
    ensures Nested(small, Run(small, ops), Run(large, ops)) && |Run(large, ops)| <= large
    ensures Get(Run(small, ops), k).1.Some? ==> Get(Run(large, ops), k).1 == Get(Run(small, ops), k).1
  {
    if ops != [] {
      var n := |ops| - 1;
      LargerCacheKeepsEveryHit(small, large, ops[..n], k);
      NestedStep(small, large, Run(small, ops[..n]), Run(large, ops[..n]), ops[n]);
    }
    var s, l := Run(small, ops), Run(large, ops);
    if Has(s, k) { SubHas(s, l, k); }
  }
}
