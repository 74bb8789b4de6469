/** A cardinality fact about finite sets used by the flood fill. */
module SetFacts {

  /** A subset is no larger than its superset. */
  lemma SubsetNotLarger<T>(a: set<T>, b: set<T>)
    requires a <= b
    ensures |a| <= |b|
  {
    var c := b - a;
    assert a + c == b && a * c == {};
    assert |a + c| + |a * c| == |a| + |c|;
  }
}
