/** Small facts about sequences and sets used by several modules. */
module Collections {

  /** Python's `xs[:n]`. */
  function First<V>(xs: seq<V>, n: nat): (ys: seq<V>)
    ensures ys <= xs && |ys| == if n < |xs| then n else |xs|
  {
    if n < |xs| then xs[..n] else xs
  }

  /** Where a value occurs first, or the length when it does not. */
  function IndexOf<V(==)>(xs: seq<V>, x: V): (i: nat)
    ensures i <= |xs| && (i < |xs| ==> xs[i] == x)
    ensures x !in xs[..i]
  {
    if xs == [] || xs[0] == x then 0 else 1 + IndexOf(xs[1..], x)
  }

  lemma SubsetSize<V>(a: set<V>, b: set<V>)
    requires a <= b
    ensures |a| <= |b|
  {
    assert b == a + (b - a);
  }
}
