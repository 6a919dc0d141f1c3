/** The two gates that compare a build with the one before it.  Fractions are exact here. */
module Gates {
  datatype PreviousBuild<T> = FirstBuild | Against(value: T)

  datatype Refusal = BadThreshold | BelowFloor | Shrank(dropped: nat) | Grew(added: nat)

  datatype GateResult = Pass | Fail(reason: Refusal)

  predicate ValidFraction(x: real) {
    0.0 <= x <= 1.0
  }

  predicate Exceeds(part: nat, whole: nat, share: real)
    requires whole > 0
  {
    part as real / whole as real > share
  }

  function ShrinkageGate(prevCount: PreviousBuild<nat>, newCount: nat, maxDrop: real, floor: nat): GateResult {
    if !ValidFraction(maxDrop) then Fail(BadThreshold)
    else if newCount < floor then Fail(BelowFloor)
    else
      match prevCount
      case FirstBuild => Pass
      case Against(count) =>
        if count == 0 || newCount >= count then Pass
        else if Exceeds(count - newCount, count, maxDrop) then Fail(Shrank(count - newCount))
        else Pass
  }

  function GrowthGate(prevKeys: PreviousBuild<set<string>>, newKeys: set<string>, maxAdd: real): GateResult {
    if !ValidFraction(maxAdd) then Fail(BadThreshold)
    else
      match prevKeys
      case FirstBuild => Pass
      case Against(keys) =>
        if keys == {} then Pass
        else if Exceeds(|newKeys - keys|, |keys|, maxAdd) then Fail(Grew(|newKeys - keys|))
        else Pass
  }

  lemma ShareIff(part: nat, whole: nat, share: real)
    requires whole > 0
    ensures Exceeds(part, whole, share) <==> part as real > share * whole as real
  {
    var p, w := part as real, whole as real;
    assert p == (p / w) * w;
    if p / w <= share {
      Scaled(p / w, share, w);
    } else {
      ScaledStrictly(share, p / w, w);
    }
  }

  lemma ScaledStrictly(x: real, y: real, w: real)
    requires x < y && w > 0.0
    ensures x * w < y * w
  {}

  lemma Scaled(x: real, y: real, w: real)
    requires x <= y && w >= 0.0
    ensures x * w <= y * w
  {}

  /** The shrinkage gate passes exactly when enough of the old count is left, and the floor is kept. */
  lemma ShrinkagePassesIff(count: nat, newCount: nat, maxDrop: real, floor: nat)
    ensures ShrinkageGate(Against(count), newCount, maxDrop, floor) == Pass <==>
            ValidFraction(maxDrop) && newCount >= floor && newCount as real >= count as real - maxDrop * count as real
    ensures ShrinkageGate(FirstBuild, newCount, maxDrop, floor) == Pass <==> ValidFraction(maxDrop) && newCount >= floor
  {
    if ValidFraction(maxDrop) {
      Scaled(0.0, maxDrop, count as real);
    }
    if 0 < count && newCount < count {
      ShareIff(count - newCount, count, maxDrop);
    }
  }

  /** The growth gate passes exactly when few enough names are new; over an empty build, whatever is new. */
  lemma GrowthPassesIff(keys: set<string>, newKeys: set<string>, maxAdd: real)
    ensures GrowthGate(Against(keys), newKeys, maxAdd) == Pass <==>
            ValidFraction(maxAdd) && (keys == {} || |newKeys - keys| as real <= maxAdd * |keys| as real)
    ensures GrowthGate(FirstBuild, newKeys, maxAdd) == Pass <==> ValidFraction(maxAdd)
  {
    if keys != {} {
      GrowthByCounts(keys, newKeys, maxAdd, |newKeys - keys|, |keys|);
    } else {
      GrowthOverNothing(newKeys, maxAdd);
    }
    GrowthAtFirst(newKeys, maxAdd);
  }

  lemma GrowthOverNothing(newKeys: set<string>, maxAdd: real)
    ensures GrowthGate(Against({}), newKeys, maxAdd) == Pass <==> ValidFraction(maxAdd)
  {}

  lemma GrowthAtFirst(newKeys: set<string>, maxAdd: real)
    ensures GrowthGate(FirstBuild, newKeys, maxAdd) == Pass <==> ValidFraction(maxAdd)
  {}

  lemma GrowthByCounts(keys: set<string>, newKeys: set<string>, maxAdd: real, added: nat, before: nat)
    requires keys != {} && added == |newKeys - keys| && before == |keys|
    ensures GrowthGate(Against(keys), newKeys, maxAdd) == Pass <==>
            ValidFraction(maxAdd) && added as real <= maxAdd * before as real
  {
    assert before > 0;
    ShareIff(added, before, maxAdd);
  }

  /** Which refusal a gate gives, and with which number. */
  lemma RefusalsMean(count: nat, newCount: nat, maxDrop: real, floor: nat,
                     keys: set<string>, newKeys: set<string>, maxAdd: real)
    ensures var r := ShrinkageGate(Against(count), newCount, maxDrop, floor);
            && (r == Fail(BadThreshold) <==> maxDrop < 0.0 || maxDrop > 1.0)
            && (r == Fail(BelowFloor) <==> 0.0 <= maxDrop <= 1.0 && newCount < floor)
            && (r.Fail? && r.reason.Shrank? ==> newCount + r.reason.dropped == count)
            && (r.Fail? ==> !r.reason.Grew?)
    ensures var r := GrowthGate(Against(keys), newKeys, maxAdd);
            && (r == Fail(BadThreshold) <==> maxAdd < 0.0 || maxAdd > 1.0)
            && (r.Fail? && r.reason != BadThreshold ==> r.reason == Grew(|newKeys - keys|))
  {}

  lemma SplitSizes(a: set<string>, b: set<string>)
    ensures |a - b| + |b| == |b - a| + |a|
  {
    assert a == (a - b) + (a * b) && b == (b - a) + (a * b);
    assert |a| == |a - b| + |a * b| && |b| == |b - a| + |a * b|;
  }

  /** Neither gate looks at how many old names go; together they bound it. */
  lemma ChurnBound(prev: set<string>, next: set<string>, maxDrop: real, floor: nat, maxAdd: real)
    requires ShrinkageGate(Against(|prev|), |next|, maxDrop, floor) == Pass
    requires GrowthGate(Against(prev), next, maxAdd) == Pass
    ensures |prev - next| as real <= (maxDrop + maxAdd) * |prev| as real
  {
    var n := |prev| as real;
    SplitSizes(prev, next);
    ShrinkagePassesIff(|prev|, |next|, maxDrop, floor);
    GrowthPassesIff(prev, next, maxAdd);
    if prev == {} {
      assert prev - next == {};
    }
    assert (maxDrop + maxAdd) * n == maxDrop * n + maxAdd * n;
  }

  /** The bound is reached: shrinking by the whole allowance while growing by the whole allowance. */
  lemma ChurnBoundIsTight()
    ensures var prev, next := {"a", "b", "c", "d"}, {"c", "d", "e"};
            && ShrinkageGate(Against(|prev|), |next|, 0.25, 0) == Pass
            && GrowthGate(Against(prev), next, 0.25) == Pass
            && |prev - next| as real == (0.25 + 0.25) * |prev| as real
  {
    var prev, next := {"a", "b", "c", "d"}, {"c", "d", "e"};
    assert "a" != "b" && "a" != "c" && "a" != "d" && "a" != "e";
    assert |prev| == 4 && |next| == 3;
    assert next - prev == {"e"} && prev - next == {"a", "b"};
  }
}
