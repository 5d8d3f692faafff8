/** Sizes of sets. */
module Sets {
  lemma SubsetSize<T>(a: set<T>, b: set<T>)
    requires a <= b
    ensures |a| <= |b|
  {
    assert b == a + (b - a);
  }

  lemma {:induction false} Counted(a: set<nat>, n: nat)
    requires forall u :: u in a ==> u < n
    ensures |a| <= n
  {
    if n > 0 {
      Counted(a - {n - 1}, n - 1);
    }
  }
}
