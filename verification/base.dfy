/** Small shared vocabulary: optional values, duplicate-freedom, and the
    ordered association lists that stand for Python dictionary literals. */
module Base {

  /** A value that may be absent (Python's `None`). */
  datatype Option<T> = None | Some(value: T)

  /** True if no element occurs twice in `s`. */
  predicate NoDuplicates<T(==)>(s: seq<T>) {
    forall i, j :: 0 <= i < j < |s| ==> s[i] != s[j]
  }

  /** Position of the first pair whose key is `k`, or `|pairs|` when there is none. */
  function KeyIndex<K(==), V>(pairs: seq<(K, V)>, k: K): (i: nat)
    ensures i <= |pairs|
    ensures forall j :: 0 <= j < i ==> pairs[j].0 != k
    ensures i < |pairs| ==> pairs[i].0 == k
  {
    if pairs == [] then 0
    else if pairs[0].0 == k then 0
    else 1 + KeyIndex(pairs[1..], k)
  }

  /** Dictionary lookup (`d.get(k)`) on an ordered association list whose
      keys are distinct, as in a Python dictionary literal. */
  function Lookup<K(==), V>(pairs: seq<(K, V)>, k: K): (r: Option<V>)
    ensures r.None? <==> forall i :: 0 <= i < |pairs| ==> pairs[i].0 != k
    ensures r.Some? ==> exists i :: 0 <= i < |pairs| && pairs[i] == (k, r.value)
  {
    var i := KeyIndex(pairs, k);
    if i < |pairs| then Some(pairs[i].1) else None
  }

  /** The keys of an association list, in order. */
  function Keys<K, V>(pairs: seq<(K, V)>): (ks: seq<K>)
    ensures |ks| == |pairs|
    ensures forall i :: 0 <= i < |pairs| ==> ks[i] == pairs[i].0
  {
    seq(|pairs|, i requires 0 <= i < |pairs| => pairs[i].0)
  }

  lemma KeysAppend<K, V>(a: seq<(K, V)>, b: seq<(K, V)>)
    ensures Keys(a + b) == Keys(a) + Keys(b)
  {
  }

  /** The first key in a concatenation is found in the first part if it is
      there at all. */
  lemma {:induction false} KeyIndexAppend<K, V>(a: seq<(K, V)>, b: seq<(K, V)>, k: K)
    ensures KeyIndex(a + b, k) == if KeyIndex(a, k) < |a| then KeyIndex(a, k) else |a| + KeyIndex(b, k)
    decreases |a|
  {
    if a != [] {
      assert (a + b)[0] == a[0];
      assert (a + b)[1..] == a[1..] + b;
      if a[0].0 != k {
        KeyIndexAppend(a[1..], b, k);
      }
    } else {
      assert a + b == b;
    }
  }

  /** Looking a key up in a concatenation looks in the first part, then in
      the second. */
  lemma LookupAppend<K, V>(a: seq<(K, V)>, b: seq<(K, V)>, k: K)
    ensures Lookup(a + b, k) == if Lookup(a, k).Some? then Lookup(a, k) else Lookup(b, k)
  {
    KeyIndexAppend(a, b, k);
  }
}
