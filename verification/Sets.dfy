/** Sizes of sets, and initial sets of numbers. */
module Sets {

  lemma SubsetSize<T>(a: set<T>, b: set<T>)
    requires a <= b
    ensures |a| <= |b| && (|a| == |b| <==> a == b)
  {
    assert b == a + (b - a);
    assert |b| == |a| + |b - a|;
    if |a| == |b| { assert b - a == {}; }
  }

  /** The natural numbers below `n`. */
  function Below(n: nat): (ids: set<nat>)
    ensures forall r: nat :: r in ids <==> r < n
  {
    if n == 0 then {} else Below(n - 1) + {n - 1}
  }
}
