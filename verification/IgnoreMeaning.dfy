/**
 The compiled expression of a pattern matches a path exactly when the pattern does by its
 direct meaning.
 */
module IgnoreMeaning {
  import opened Regex
  import opened Ignore

  // ---------------------------------------------------------------------------
  // One token

  predicate IsStar(t: Token)
  {
    t.Run? || t.Deep?
  }

  /** The character that a star token cannot pass. */
  function Barrier(t: Token): char
    requires IsStar(t)
  {
    if t.Deep? then '\n' else '/'
  }

  /** Does a token for a single character accept c? */
  predicate TokenAccepts(t: Token, c: char)
    requires !IsStar(t)
  {
    match t
    case Lit(d) => c == d
    case One => c != '/'
    case Class(text) => text != "" && InClass(text, c)
  }

  /** The token can stand for s[i..k]. */
  predicate TokenTakes(t: Token, s: string, i: nat, k: nat)
    requires i <= k <= |s|
  {
    if IsStar(t) then forall m :: i <= m < k ==> s[m] != Barrier(t)
    else k == i + 1 && TokenAccepts(t, s[i])
  }

  /** One token of the expression matches what the token stands for. */
  lemma TokenMeaning(t: Token, s: string, i: nat, k: nat)
    requires i <= k <= |s| && SoundToken(t)
    ensures Matches(TokenRe(t), s, i, k) <==> TokenTakes(t, s, i, k)
  {
    if IsStar(t) {
      StarIsRun(if t.Deep? then AnyChar else NotSlash, s, i, k);
    }
  }

  function Rest(g: string): string
    requires g != ""
  {
    g[First(g).1..]
  }

  /** The glob, one token at a time. */
  lemma GlobUnfold(g: string, s: string)
    requires g != ""
    ensures IsStar(First(g).0) ==>
              (Glob(g, s) <==> Glob(Rest(g), s) || (s != "" && s[0] != Barrier(First(g).0) && Glob(g, s[1..])))
    ensures !IsStar(First(g).0) ==>
              (Glob(g, s) <==> s != "" && TokenAccepts(First(g).0, s[0]) && Glob(Rest(g), s[1..]))
  {
    if First(g).0.Deep? {
      assert "**" <= g && Rest(g) == AfterDeep(g);
    } else {
      assert !("**" <= g);
    }
  }

  lemma SliceStep(s: string, i: nat, e: nat)
    requires i < e <= |s|
    ensures s[i..e] != "" && s[i..e][0] == s[i] && s[i..e][1..] == s[i + 1..e]
  {
  }

  /** What the first token of an accepting glob takes. */
  lemma {:induction false} GlobFirst(g: string, s: string, i: nat, e: nat) returns (k: nat)
    requires g != "" && i <= e <= |s| && Glob(g, s[i..e])
    ensures i <= k <= e && TokenTakes(First(g).0, s, i, k) && Glob(Rest(g), s[k..e])
    decreases e - i
  {
    GlobUnfold(g, s[i..e]);
    if IsStar(First(g).0) && Glob(Rest(g), s[i..e]) {
      k := i;
    } else {
      SliceStep(s, i, e);
      if IsStar(First(g).0) {
        k := GlobFirst(g, s, i + 1, e);
      } else {
        k := i + 1;
      }
    }
  }

  lemma {:induction false} GlobCons(g: string, s: string, i: nat, k: nat, e: nat)
    requires g != "" && i <= k <= e <= |s|
    requires TokenTakes(First(g).0, s, i, k) && Glob(Rest(g), s[k..e])
    ensures Glob(g, s[i..e])
    decreases e - i
  {
    GlobUnfold(g, s[i..e]);
    if i < k {
      SliceStep(s, i, e);
      if IsStar(First(g).0) {
        GlobCons(g, s, i + 1, k, e);
      }
    }
  }

  // ---------------------------------------------------------------------------
  // The body of the expression

  /** The glob accepts s[i..e] and the emitted tail accepts s[e..j]. */
  ghost predicate GlobThenTail(g: string, s: string, i: nat, e: nat, j: nat)
    requires i <= e <= j <= |s|
  {
    Glob(g, s[i..e]) && Matches(TAIL_RE, s, e, j)
  }

  lemma BodyCons(g: string)
    requires g != "" && Sound(Tokens(g))
    ensures SoundToken(First(g).0) && Sound(Tokens(Rest(g)))
    ensures BodyRe(Tokens(g)) == Cat(TokenRe(First(g).0), BodyRe(Tokens(Rest(g))))
  {
    assert Tokens(g)[0] == First(g).0 && Tokens(g)[1..] == Tokens(Rest(g));
    SoundCons(Tokens(g));
  }

  lemma {:induction false} BodyIsGlob(g: string, s: string, i: nat, j: nat) returns (e: nat)
    requires Sound(Tokens(g)) && i <= j <= |s| && Matches(BodyRe(Tokens(g)), s, i, j)
    ensures i <= e <= j && GlobThenTail(g, s, i, e, j)
    decreases |g|
  {
    if g == "" {
      e := i;
    } else {
      BodyCons(g);
      var k := SplitCat(TokenRe(First(g).0), BodyRe(Tokens(Rest(g))), s, i, j);
      e := BodyIsGlob(Rest(g), s, k, j);
      TokenMeaning(First(g).0, s, i, k);
      GlobCons(g, s, i, k, e);
    }
  }

  lemma {:induction false} GlobIsBody(g: string, s: string, i: nat, e: nat, j: nat)
    requires Sound(Tokens(g)) && i <= e <= j <= |s| && GlobThenTail(g, s, i, e, j)
    ensures Matches(BodyRe(Tokens(g)), s, i, j)
    decreases |g|
  {
    if g == "" {
      assert i == e;
    } else {
      BodyCons(g);
      var k := GlobFirst(g, s, i, e);
      GlobIsBody(Rest(g), s, k, e, j);
      TokenMeaning(First(g).0, s, i, k);
      assert Matches(TokenRe(First(g).0), s, i, k) && Matches(BodyRe(Tokens(Rest(g))), s, k, j);
    }
  }

  /** The body of the expression accepts s[i..j] iff the glob accepts a front part and the tail the rest. */
  lemma BodyMeaning(g: string, s: string, i: nat, j: nat)
    requires Sound(Tokens(g)) && i <= j <= |s|
    ensures Matches(BodyRe(Tokens(g)), s, i, j) <==> exists e: nat :: i <= e <= j && GlobThenTail(g, s, i, e, j)
  {
    if Matches(BodyRe(Tokens(g)), s, i, j) {
      var e := BodyIsGlob(g, s, i, j);
    }
    forall e: nat | i <= e <= j && GlobThenTail(g, s, i, e, j)
      ensures Matches(BodyRe(Tokens(g)), s, i, j)
    {
      GlobIsBody(g, s, i, e, j);
    }
  }

  // ---------------------------------------------------------------------------
  // The whole rule

  /** The tail of the expression accepts exactly at the end of a component. */
  lemma TailMeaning(s: string, e: nat)
    requires e <= |s|
    ensures EndsComponent(s, e) <==> exists j: nat :: e <= j <= |s| && Matches(TAIL_RE, s, e, j)
  {
    var inner := Alt(Cat(Chr('/'), Eps), Cat(End, Eps));
    forall j: nat | e <= j <= |s|
      ensures Matches(TAIL_RE, s, e, j) <==> Matches(inner, s, e, j)
      ensures Matches(inner, s, e, j) <==> (j == e + 1 && s[e] == '/') || j == e == |s|
    {
      TrailingEps(inner, s, e, j);
      TrailingEps(Chr('/'), s, e, j);
      TrailingEps(End, s, e, j);
    }
    if e < |s| && s[e] == '/' {
      assert Matches(TAIL_RE, s, e, e + 1);
    } else if e == |s| {
      assert Matches(TAIL_RE, s, e, e);
    }
  }

  lemma TrailingEps(re: Re, s: string, i: nat, j: nat)
    requires i <= j <= |s|
    ensures Matches(Cat(re, Eps), s, i, j) <==> Matches(re, s, i, j)
  {
    if Matches(re, s, i, j) {
      assert Matches(Eps, s, j, j);
    }
  }

  /** The head of the expression stops exactly where a match may start. */
  lemma HeadMeaning(anchored: bool, s: string, i: nat, k: nat)
    requires i <= k <= |s|
    ensures Matches(HeadRe(anchored), s, i, k) <==>
            (i == k == 0) || (!anchored && k == i + 1 && s[i] == '/')
  {
    TrailingEps(Begin, s, i, k);
    TrailingEps(Chr('/'), s, i, k);
  }

  lemma SearchIsMatch(pat: Pattern, path: string)
    requires Sound(Tokens(pat.glob))
    requires Search(RuleRe(pat.anchored, Tokens(pat.glob)), path)
    ensures PatternMatches(pat, path)
  {
    var head, body := HeadRe(pat.anchored), BodyRe(Tokens(pat.glob));
    var i: nat, j: nat :| i <= j <= |path| && Matches(Cat(head, body), path, i, j);
    var k := SplitCat(head, body, path, i, j);
    HeadMeaning(pat.anchored, path, i, k);
    var e := BodyIsGlob(pat.glob, path, k, j);
    assert Matches(TAIL_RE, path, e, j);
    TailMeaning(path, e);
    assert MatchesAt(pat, path, k, e);
  }

  /** The stretch of the text that the expression takes for a stretch of components. */
  lemma MatchedStretch(pat: Pattern, path: string, k: nat, e: nat) returns (i: nat, j: nat)
    requires Sound(Tokens(pat.glob)) && k <= e <= |path| && MatchesAt(pat, path, k, e)
    ensures i <= j <= |path| && Matches(RuleRe(pat.anchored, Tokens(pat.glob)), path, i, j)
  {
    TailMeaning(path, e);
    j :| e <= j <= |path| && Matches(TAIL_RE, path, e, j);
    assert GlobThenTail(pat.glob, path, k, e, j);
    GlobIsBody(pat.glob, path, k, e, j);
    i := if k == 0 then 0 else k - 1;
    HeadMeaning(pat.anchored, path, i, k);
    JoinCat(HeadRe(pat.anchored), BodyRe(Tokens(pat.glob)), path, i, k, j);
  }

  lemma JoinCat(l: Re, r: Re, s: string, i: nat, k: nat, j: nat)
    requires i <= k <= j <= |s| && Matches(l, s, i, k) && Matches(r, s, k, j)
    ensures Matches(Cat(l, r), s, i, j)
  {
  }

  lemma MatchIsSearch(pat: Pattern, path: string)
    requires Sound(Tokens(pat.glob))
    requires PatternMatches(pat, path)
    ensures Search(RuleRe(pat.anchored, Tokens(pat.glob)), path)
  {
    var k: nat, e: nat :| k <= e <= |path| && MatchesAt(pat, path, k, e);
    var i, j := MatchedStretch(pat, path, k, e);
  }

  /** Main result: the expression compiled from a pattern finds a match in a path exactly when the
      pattern accepts a stretch of whole components of it. */
  lemma RuleMeaning(pat: Pattern, path: string)
    requires Sound(Tokens(pat.glob))
    ensures Search(RuleRe(pat.anchored, Tokens(pat.glob)), path) <==> PatternMatches(pat, path)
  {
    if Search(RuleRe(pat.anchored, Tokens(pat.glob)), path) {
      SearchIsMatch(pat, path);
    }
    if PatternMatches(pat, path) {
      MatchIsSearch(pat, path);
    }
  }
}
