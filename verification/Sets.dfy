/** Finite sets: an element of one, and how many integers a range holds. */
module Sets {

  lemma AnElement<T>(s: set<T>) returns (x: T)
    requires s != {}
    ensures x in s
  {
    x :| x in s;
  }

  function Range(lo: int, n: nat): (r: set<int>)
    ensures |r| == n
    ensures forall i :: i in r <==> lo <= i < lo + n
  {
    if n == 0 then {} else Range(lo, n - 1) + {lo + n - 1}
  }

  lemma SubsetSize<T>(a: set<T>, b: set<T>)
    requires a <= b
    ensures |a| <= |b|
  {
    assert b == a + (b - a);
  }

  /** Integers within a range are no more than the range holds. */
  lemma RangeSize(s: set<int>, lo: int, n: nat)
    requires forall i | i in s :: lo <= i < lo + n
    ensures |s| <= n
  {
    SubsetSize(s, Range(lo, n));
  }
}
