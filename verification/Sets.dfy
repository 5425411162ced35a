/** Sizes of sets. */
module Sets {

  /** A subset is no larger. */
  lemma Smaller<T>(a: set<T>, b: set<T>)
    requires a <= b
    ensures |a| <= |b|
  {
    assert b == a + (b - a);
  }
}
