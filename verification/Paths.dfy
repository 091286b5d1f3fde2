/** Relative paths as lists of names, and their slash-joined spelling. */
module Paths {

  type Path = seq<string>

  predicate SlashFree(s: string)
  {
    forall k :: 0 <= k < |s| ==> s[k] != '/'
  }

  /** A directory entry's name. */
  predicate GoodName(name: string)
  {
    name != "" && name != "." && name != ".." && SlashFree(name)
  }

  predicate GoodPath(p: Path)
  {
    p != [] && forall k :: 0 <= k < |p| ==> GoodName(p[k])
  }

  function Join(p: Path): string
  {
    if p == [] then "" else if |p| == 1 then p[0] else p[0] + "/" + Join(p[1..])
  }

  /** Joining one more name is what the remote walk does to its base path. */
  lemma {:induction false} JoinSnoc(p: Path, name: string)
    ensures Join(p + [name]) == if p == [] then name else Join(p) + "/" + name
  {
    if |p| == 1 {
      assert (p + [name])[1..] == [name];
    } else if |p| > 1 {
      assert (p + [name])[1..] == p[1..] + [name];
      JoinSnoc(p[1..], name);
      Assoc4(p[0], Join(p[1..]), name);
    }
  }

  lemma Assoc4(a: string, b: string, c: string)
    ensures a + "/" + (b + "/" + c) == (a + "/" + b) + "/" + c
  {
  }

  /** The first name of a joined path, and what follows it. */
  lemma JoinHead(p: Path)
    requires p != []
    ensures p[0] <= Join(p)
    ensures |p| == 1 ==> Join(p) == p[0]
    ensures |p| > 1 ==> |Join(p)| > |p[0]| && Join(p)[|p[0]|] == '/' && Join(p)[|p[0]| + 1..] == Join(p[1..])
  {
  }

  lemma JoinOfGoodPath(p: Path)
    requires GoodPath(p)
    ensures Join(p) != "" && Join(p) != "."
  {
    if |p| > 1 {
      assert |Join(p)| >= |p[0]| + 1;
      if |Join(p)| == 1 {
        assert false;
      }
    }
  }

  /** Different paths never have the same spelling, so the spelling can serve as a map key. */
  lemma {:induction false} JoinIsInjective(p: Path, q: Path)
    requires GoodPath(p) && GoodPath(q) && Join(p) == Join(q)
    ensures p == q
    decreases |p|
  {
    JoinHead(p);
    JoinHead(q);
    SameHead(p[0], q[0], Join(p), |p| == 1, |q| == 1);
    if |p| > 1 {
      JoinIsInjective(p[1..], q[1..]);
    }
    assert p == [p[0]] + p[1..] && q == [q[0]] + q[1..];
  }

  lemma SameHead(a: string, b: string, s: string, aIsAll: bool, bIsAll: bool)
    requires SlashFree(a) && SlashFree(b) && a <= s && b <= s
    requires if aIsAll then s == a else |s| > |a| && s[|a|] == '/'
    requires if bIsAll then s == b else |s| > |b| && s[|b|] == '/'
    ensures a == b && aIsAll == bIsAll
  {
    assert forall k :: 0 <= k < |a| ==> s[k] == a[k];
    assert forall k :: 0 <= k < |b| ==> s[k] == b[k];
    assert |a| == |b|;
    assert a == s[..|a|] == b;
  }
}
