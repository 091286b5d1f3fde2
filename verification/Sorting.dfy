/**
 The byte order of Go strings, taken on characters (UTF-8 keeps it), and the one ascending
 list of a set of strings that sort.Strings produces from any listing of it.
 */
module Sorting {

  predicate Less(a: string, b: string)
  {
    b != "" && (a == "" || a[0] < b[0] || (a[0] == b[0] && Less(a[1..], b[1..])))
  }

  /** a and b agree on the first k characters; then a ends, or has the smaller character. */
  predicate DifferAt(a: string, b: string, k: nat)
  {
    k <= |a| && k < |b| && a[..k] == b[..k] && (k < |a| ==> a[k] < b[k])
  }

  lemma DifferFirst(a: string, b: string, k: nat)
    requires DifferAt(a, b, k)
    ensures k > 0 ==> a != "" && b != "" && a[0] == b[0]
  {
    if k > 0 {
      assert a[0] == a[..k][0] == b[..k][0] == b[0];
    }
  }

  lemma DifferLater(a: string, b: string, k: nat)
    requires a != "" && b != "" && a[0] == b[0]
    ensures DifferAt(a[1..], b[1..], k) <==> DifferAt(a, b, k + 1)
  {
    if k + 1 <= |a| && k + 1 < |b| {
      assert a[..k + 1] == [a[0]] + a[1..][..k] && b[..k + 1] == [b[0]] + b[1..][..k];
      assert a[..k + 1][1..] == a[1..][..k] && b[..k + 1][1..] == b[1..][..k];
    }
  }

  /** The order of the first difference; a proper prefix comes first. */
  lemma {:induction false} LessMeaning(a: string, b: string)
    ensures Less(a, b) <==> exists k: nat :: DifferAt(a, b, k)
    decreases |a|
  {
    if a == "" || b == "" || a[0] != b[0] {
      assert DifferAt(a, b, 0) <==> Less(a, b);
      if k: nat :| DifferAt(a, b, k) {
        DifferFirst(a, b, k);
      }
    } else {
      LessMeaning(a[1..], b[1..]);
      assert !DifferAt(a, b, 0);
      if k: nat :| DifferAt(a, b, k) {
        DifferLater(a, b, k - 1);
      }
      if k: nat :| DifferAt(a[1..], b[1..], k) {
        DifferLater(a, b, k);
      }
    }
  }

  lemma {:induction false} LessIsStrict(a: string, b: string)
    ensures !(Less(a, b) && Less(b, a)) && (a == b ==> !Less(a, b))
    decreases |a|
  {
    if a != "" && b != "" {
      LessIsStrict(a[1..], b[1..]);
    }
  }

  lemma {:induction false} LessIsTotal(a: string, b: string)
    ensures a == b || Less(a, b) || Less(b, a)
    decreases |a|
  {
    if a != "" && b != "" && a[0] == b[0] {
      LessIsTotal(a[1..], b[1..]);
      assert a == [a[0]] + a[1..] && b == [b[0]] + b[1..];
    }
  }

  lemma {:induction false} LessIsTransitive(a: string, b: string, c: string)
    requires Less(a, b) && Less(b, c)
    ensures Less(a, c)
    decreases |a|
  {
    if a != "" && a[0] == b[0] && b[0] == c[0] {
      LessIsTransitive(a[1..], b[1..], c[1..]);
    }
  }

  predicate Ascending(r: seq<string>)
  {
    forall i, j :: 0 <= i < j < |r| ==> Less(r[i], r[j])
  }

  ghost function Elements(r: seq<string>): set<string>
  {
    set x | x in r
  }

  /** r lists s once each, in order. */
  ghost predicate Lists(r: seq<string>, s: set<string>)
  {
    Ascending(r) && Elements(r) == s
  }

  /** There is only one such list. */
  lemma {:induction false} ListingIsUnique(a: seq<string>, b: seq<string>, s: set<string>)
    requires Lists(a, s) && Lists(b, s)
    ensures a == b
    decreases |a|
  {
    if a == [] {
      assert forall i :: 0 <= i < |b| ==> b[i] in Elements(b);
    } else {
      assert a[0] in Elements(b) && b != [];
      assert b[0] in Elements(a);
      FirstIsLeast(a, b[0]);
      FirstIsLeast(b, a[0]);
      LessIsStrict(a[0], b[0]);
      TailLists(a, s);
      TailLists(b, s);
      ListingIsUnique(a[1..], b[1..], s - {a[0]});
    }
  }

  lemma FirstIsLeast(a: seq<string>, x: string)
    requires Ascending(a) && x in a
    ensures x == a[0] || Less(a[0], x)
  {
  }

  lemma TailLists(a: seq<string>, s: set<string>)
    requires a != [] && Lists(a, s)
    ensures Lists(a[1..], s - {a[0]})
  {
    forall i | 0 < i < |a|
      ensures a[i] != a[0]
    {
      LessIsStrict(a[0], a[i]);
    }
    assert a == [a[0]] + a[1..];
  }

  function Insert(r: seq<string>, x: string): seq<string>
  {
    if r == [] || Less(x, r[0]) then [x] + r else [r[0]] + Insert(r[1..], x)
  }

  lemma {:induction false} InsertElements(r: seq<string>, x: string)
    ensures Elements(Insert(r, x)) == Elements(r) + {x}
  {
    if r != [] && !Less(x, r[0]) {
      InsertElements(r[1..], x);
      assert Elements(r) == {r[0]} + Elements(r[1..]);
      assert Elements(Insert(r, x)) == {r[0]} + Elements(Insert(r[1..], x));
    }
  }

  lemma {:induction false} InsertKeepsOrder(r: seq<string>, x: string)
    requires Ascending(r) && x !in r
    ensures Ascending(Insert(r, x))
  {
    if r != [] {
      LessIsTotal(x, r[0]);
      if Less(x, r[0]) {
        forall i | 0 < i < |r|
          ensures Less(x, r[i])
        {
          LessIsTransitive(x, r[0], r[i]);
        }
      } else {
        InsertKeepsOrder(r[1..], x);
        InsertElements(r[1..], x);
        var rest := Insert(r[1..], x);
        forall i | 0 <= i < |rest|
          ensures Less(r[0], rest[i])
        {
          assert rest[i] in Elements(rest);
        }
      }
    }
  }

  /** sortedKeys: collect the keys in map order, then sort. */
  method SortedKeys(keys: set<string>) returns (r: seq<string>)
    ensures Lists(r, keys)
  {
    var todo := keys;
    ghost var done: set<string> := {};
    r := [];
    while todo != {}
      invariant todo !! done && forall k :: k in keys <==> k in todo || k in done
      invariant Lists(r, done)
      decreases |todo|
    {
      var k :| k in todo;
      todo := todo - {k};
      assert k !in Elements(r);
      InsertElements(r, k);
      InsertKeepsOrder(r, k);
      r := Insert(r, k);
      done := done + {k};
    }
    assert done == keys;
  }
}
