/** Least-recently-used order, stated against the full history of uses rather than against any cache's own list. */
module Recency {

  /** Position of the last use of `k`, or -1. */
  function LastUse<K(==)>(uses: seq<K>, k: K): (i: int)
    ensures -1 <= i < |uses|
    ensures i >= 0 ==> uses[i] == k
    ensures forall j :: i < j < |uses| ==> uses[j] != k
  {
    if uses == [] then -1
    else if uses[|uses| - 1] == k then |uses| - 1
    else LastUse(uses[..|uses| - 1], k)
  }

  /** The list names used keys, each once, from the least to the most recently used. */
  ghost predicate Ordered<K>(keys: seq<K>, uses: seq<K>) {
    && (forall i {:trigger LastUse(uses, keys[i])} :: 0 <= i < |keys| ==> LastUse(uses, keys[i]) >= 0)
    && (forall i, j {:trigger LastUse(uses, keys[i]), LastUse(uses, keys[j])} ::
          0 <= i < j < |keys| ==> LastUse(uses, keys[i]) < LastUse(uses, keys[j]))
  }

  lemma OrderedUnique<K>(keys: seq<K>, uses: seq<K>)
    requires Ordered(keys, uses)
    ensures forall i, j :: 0 <= i < j < |keys| ==> keys[i] != keys[j]
  {
    forall i, j | 0 <= i < j < |keys| ensures keys[i] != keys[j] {
      assert LastUse(uses, keys[i]) < LastUse(uses, keys[j]);
    }
  }

  lemma UseOfAnother<K>(uses: seq<K>, k: K, other: K)
    requires k != other
    ensures LastUse(uses + [k], other) == LastUse(uses, other)
  {
    assert (uses + [k])[..|uses|] == uses;
  }

  /** Using a key and moving it to the end keeps the order. */
  lemma UseMovesToEnd<K>(others: seq<K>, uses: seq<K>, k: K)
    requires Ordered(others, uses) && k !in others
    ensures Ordered(others + [k], uses + [k])
  {
    assert LastUse(uses + [k], k) == |uses|;
    forall i | 0 <= i < |others| ensures LastUse(uses + [k], others[i]) == LastUse(uses, others[i]) {
      UseOfAnother(uses, k, others[i]);
    }
  }

  lemma OrderedDrop<K>(keys: seq<K>, uses: seq<K>, i: nat)
    requires Ordered(keys, uses) && i < |keys|
    ensures Ordered(keys[..i] + keys[i + 1..], uses)
    ensures keys[i] !in keys[..i] + keys[i + 1..]
  {
    OrderedUnique(keys, uses);
    var rest := keys[..i] + keys[i + 1..];
    assert forall j :: 0 <= j < |rest| ==> rest[j] == keys[if j < i then j else j + 1];
  }
}
