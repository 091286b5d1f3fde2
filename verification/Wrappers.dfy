/** The optional values and map lookups shared by every other module. */
module Wrappers {

  datatype Option<+T> = None | Some(value: T)

  /** Go's two-valued map read `v, ok := m[k]`. */
  function Get<K, V>(m: map<K, V>, k: K): Option<V>
  {
    if k in m then Some(m[k]) else None
  }

  /** Maps are equal when every lookup is. */
  lemma SameMap<K(!new), V>(a: map<K, V>, b: map<K, V>)
    requires forall k :: Get(a, k) == Get(b, k)
    ensures a == b
  {
    forall k
      ensures k in a <==> k in b
      ensures k in a ==> a[k] == b[k]
    {
      assert Get(a, k) == Get(b, k);
    }
  }

  /** One more round of a loop that appends the elements of `more`. */
  lemma AppendNext<T>(done: seq<T>, more: seq<T>, i: nat)
    requires i < |more|
    ensures (done + more[..i]) + [more[i]] == done + more[..i + 1]
  {
  }

  lemma AppendAll<T>(done: seq<T>, more: seq<T>)
    ensures done + more[..0] == done && done + more[..|more|] == done + more
  {
  }

  /** One more round of a loop over the elements of a set. */
  lemma OneLess<T>(targets: set<T>, todo: set<T>, x: T)
    requires x in todo && todo <= targets
    ensures x !in targets - todo && targets - (todo - {x}) == (targets - todo) + {x}
  {
  }

  lemma {:induction false} SubsetSize<T>(a: set<T>, b: set<T>)
    requires a <= b
    ensures |a| <= |b|
    decreases |a|
  {
    if a != {} {
      var x :| x in a;
      SubsetSize(a - {x}, b - {x});
    }
  }

  lemma {:induction false} SizeOfDifference<T>(a: set<T>, b: set<T>)
    requires b <= a
    ensures |a - b| == |a| - |b|
    decreases |b|
  {
    if b == {} {
      assert a - b == a;
    } else {
      var x :| x in b;
      SizeOfDifference(a - {x}, b - {x});
      assert (a - {x}) - (b - {x}) == a - b;
    }
  }

  lemma {:induction false} SubsetOfSize<T>(a: set<T>, n: nat) returns (b: set<T>)
    requires n <= |a|
    ensures b <= a && |b| == n
    decreases n
  {
    if n == 0 {
      b := {};
    } else {
      var x :| x in a;
      b := SubsetOfSize(a - {x}, n - 1);
      b := b + {x};
    }
  }
}
