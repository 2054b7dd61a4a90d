/** A few facts that every part of the model may use. */
module Common {

  function Max(a: int, b: int): int {
    if a < b then b else a
  }

  lemma SubsetSize<T>(a: set<T>, b: set<T>)
    requires a <= b
    ensures |a| <= |b|
    ensures |a| == |b| <==> a == b
  {
    assert b == a + (b - a);
    assert |b| == |a| + |b - a|;
  }

  /** The numbers from 1 to n. */
  ghost function UpTo(n: nat): (ids: set<nat>)
    ensures forall x :: x in ids <==> 0 < x <= n
  {
    if n == 0 then {} else UpTo(n - 1) + {n}
  }
}
