/**
 The matcher built from the ignore lines, and what its verdict means for a path:
 the last applicable pattern decides, a match covers everything below it, and a
 pattern without `/` and `**` looks at single names.
 */
module IgnoreMatcher {
  import opened Wrappers
  import opened Paths
  import opened Regex
  import opened Ignore
  import opened IgnoreMeaning

  datatype Rule = Rule(re: Re, negate: bool, dirOnly: bool)

  function RuleOf(pat: Pattern): Rule
    requires Sound(Tokens(pat.glob))
  {
    Rule(RuleRe(pat.anchored, Tokens(pat.glob)), pat.negate, pat.dirOnly)
  }

  /** All patterns compile. */
  predicate AllSound(pats: seq<Pattern>)
  {
    forall k :: 0 <= k < |pats| ==> Sound(Tokens(pats[k].glob))
  }

  function RulesOf(pats: seq<Pattern>): seq<Rule>
    requires AllSound(pats)
  {
    seq(|pats|, k requires 0 <= k < |pats| => RuleOf(pats[k]))
  }

  /** The line's pattern, if it has one and that compiles. */
  function ReadRule(raw: string): Option<Pattern>
  {
    var p := ReadPattern(raw);
    if p.Some? && Sound(Tokens(p.value.glob)) then p else None
  }

  /** The patterns of the lines in order; blank lines, comments and unsound classes are dropped. */
  function ReadPatterns(lines: seq<string>): (pats: seq<Pattern>)
    ensures AllSound(pats)
  {
    if lines == [] then
      []
    else
      var p := ReadRule(lines[0]);
      (if p.Some? then [p.value] else []) + ReadPatterns(lines[1..])
  }

  /** The line uses plain classes only. */
  predicate PlainLine(raw: string)
  {
    ReadPattern(raw).Some? ==> Plain(ReadPattern(raw).value.glob)
  }

  // ---------------------------------------------------------------------------
  // Building the matcher

  /** The prefix and suffix tests at the head of compileIgnoreRule. */
  method ReadLine(raw: string) returns (r: Option<Pattern>)
    ensures r == ReadPattern(raw)
  {
    var line := TrimRight(raw);
    if line == "" || line[0] == '#' {
      return None;
    }
    var negate := false;
    if line[0] == '!' {
      negate := true;
      line := line[1..];
    }
    var dirOnly := false;
    if line != "" && line[|line| - 1] == '/' {
      dirOnly := true;
      line := line[..|line| - 1];
    }
    var anchored := false;
    if line != "" && line[0] == '/' {
      anchored := true;
      line := line[1..];
    } else if '/' in line {
      anchored := true;
    }
    r := Some(Pattern(negate, dirOnly, anchored, line));
  }

  /** compileIgnoreRule: read the line, translate the glob to text, compile the text. */
  method CompileIgnoreRule(raw: string) returns (r: Option<Rule>)
    requires PlainLine(raw)
    ensures r.None? <==> ReadRule(raw).None?
    ensures r.Some? ==> r.value == RuleOf(ReadRule(raw).value)
    ensures r.Some? ==> forall path :: Search(r.value.re, path) <==> PatternMatches(ReadRule(raw).value, path)
  {
    var read := ReadLine(raw);
    if read.None? {
      return None;
    }
    var pat := read.value;
    var text := Translate(pat.anchored, pat.glob);
    var re := Compile(text);
    EmittedTextParses(pat.anchored, pat.glob);
    if re.None? {
      return None;
    }
    forall path
      ensures Search(re.value, path) <==> PatternMatches(pat, path)
    {
      RuleMeaning(pat, path);
    }
    r := Some(Rule(re.value, pat.negate, pat.dirOnly));
  }

  /** NewIgnoreMatcher: lines without a rule are dropped, the order is kept. */
  method NewIgnoreMatcher(lines: seq<string>) returns (rules: seq<Rule>)
    requires forall k :: 0 <= k < |lines| ==> PlainLine(lines[k])
    ensures rules == RulesOf(ReadPatterns(lines))
  {
    rules := [];
    ghost var done: seq<Pattern> := [];
    for i := 0 to |lines|
      invariant done + ReadPatterns(lines[i..]) == ReadPatterns(lines)
      invariant AllSound(done) && rules == RulesOf(done)
    {
      var r := CompileIgnoreRule(lines[i]);
      ReadOneMore(lines, i, done);
      if r.Some? {
        RulesOneMore(done, ReadRule(lines[i]).value);
        rules := rules + [r.value];
        done := done + [ReadRule(lines[i]).value];
      }
    }
  }

  lemma RulesOneMore(pats: seq<Pattern>, p: Pattern)
    requires AllSound(pats) && Sound(Tokens(p.glob))
    ensures AllSound(pats + [p]) && RulesOf(pats + [p]) == RulesOf(pats) + [RuleOf(p)]
  {
  }

  lemma ReadOneMore(lines: seq<string>, i: nat, done: seq<Pattern>)
    requires i < |lines|
    ensures done + ReadPatterns(lines[i..]) ==
            (match ReadRule(lines[i]) case Some(p) => done + [p] case None => done) + ReadPatterns(lines[i + 1..])
  {
    assert lines[i..][1..] == lines[i + 1..];
  }

  // ---------------------------------------------------------------------------
  // The verdict

  predicate Applies(pat: Pattern, rel: string, isDir: bool)
  {
    (pat.dirOnly ==> isDir) && PatternMatches(pat, rel)
  }

  /** Pattern k is the last one that applies. */
  ghost predicate Decides(pats: seq<Pattern>, k: int, rel: string, isDir: bool)
  {
    && 0 <= k < |pats|
    && Applies(pats[k], rel, isDir)
    && forall m :: k < m < |pats| ==> !Applies(pats[m], rel, isDir)
  }

  /** The last applicable pattern exists and is not a negation; the root itself is never ignored. */
  ghost predicate Ignored(pats: seq<Pattern>, rel: string, isDir: bool)
  {
    rel != "" && rel != "." && exists k :: Decides(pats, k, rel, isDir) && !pats[k].negate
  }

  /** One more pattern at the end of the list decides where it applies and changes nothing elsewhere. */
  lemma IgnoredOneMore(pats: seq<Pattern>, pat: Pattern, rel: string, isDir: bool)
    requires rel != "" && rel != "."
    ensures !Ignored([], rel, isDir)
    ensures Ignored(pats + [pat], rel, isDir) <==>
              if (pat.dirOnly ==> isDir) && PatternMatches(pat, rel) then !pat.negate else Ignored(pats, rel, isDir)
  {
    var all := pats + [pat];
    assert Applies(pat, rel, isDir) ==> Decides(all, |pats|, rel, isDir);
    forall k | 0 <= k < |pats|
      ensures Decides(all, k, rel, isDir) <==> Decides(pats, k, rel, isDir) && !Applies(pat, rel, isDir)
    {
      assert all[|pats|] == pat;
      assert forall m :: 0 <= m < |pats| ==> all[m] == pats[m];
    }
  }

  lemma RuleApplies(pat: Pattern, rel: string, isDir: bool)
    requires Sound(Tokens(pat.glob))
    ensures var r := RuleOf(pat);
            r.negate == pat.negate && (!(r.dirOnly && !isDir) && Search(r.re, rel) <==> Applies(pat, rel, isDir))
  {
    RuleMeaning(pat, rel);
  }

  method IsIgnoredRel(rules: seq<Rule>, ghost pats: seq<Pattern>, rel: string, isDir: bool) returns (ignored: bool)
    requires AllSound(pats) && rules == RulesOf(pats)
    ensures ignored <==> Ignored(pats, rel, isDir)
  {
    ignored := false;
    if |rules| == 0 || rel == "." || rel == "" {
      return;
    }
    ghost var last := -1;
    for i := 0 to |rules|
      invariant -1 <= last < i
      invariant if last == -1 then !ignored else Applies(pats[last], rel, isDir) && ignored == !pats[last].negate
      invariant forall m :: last < m < i ==> !Applies(pats[m], rel, isDir)
    {
      RuleApplies(pats[i], rel, isDir);
      var r := rules[i];
      if r.dirOnly && !isDir {
        continue;
      }
      if Search(r.re, rel) {
        ignored := !r.negate;
        last := i;
      }
    }
    if last != -1 {
      assert Decides(pats, last, rel, isDir);
    }
  }

  // ---------------------------------------------------------------------------
  // Consequences for paths

  /** A pattern that matches a path also matches everything below it. */
  lemma MatchCoversBelow(pat: Pattern, path: string, below: string)
    requires PatternMatches(pat, path)
    ensures PatternMatches(pat, path + "/" + below)
  {
    var i: nat, j: nat :| i <= j <= |path| && MatchesAt(pat, path, i, j);
    var longer := path + "/" + below;
    assert longer[i..j] == path[i..j];
    assert MatchesAt(pat, longer, i, j);
  }

  /** Without negations, a path stays ignored below a match that is not limited to directories. */
  lemma IgnoredBelow(pats: seq<Pattern>, k: nat, path: string, below: string, isDir: bool)
    requires k < |pats| && !pats[k].dirOnly && PatternMatches(pats[k], path)
    requires forall m :: k <= m < |pats| ==> !pats[m].negate
    requires path != ""
    ensures Ignored(pats, path + "/" + below, isDir)
  {
    MatchCoversBelow(pats[k], path, below);
    var last := LastApplicable(pats, k, path + "/" + below, isDir);
  }

  lemma {:induction false} LastApplicable(pats: seq<Pattern>, k: nat, rel: string, isDir: bool) returns (last: nat)
    requires k < |pats| && Applies(pats[k], rel, isDir)
    ensures k <= last && Decides(pats, last, rel, isDir)
    decreases |pats| - k
  {
    if m :| k < m < |pats| && Applies(pats[m], rel, isDir) {
      last := LastApplicable(pats, m, rel, isDir);
    } else {
      last := k;
    }
  }

  // ---------------------------------------------------------------------------
  // Patterns that look at single names

  /** No part of the glob can stand for a `/`. */
  predicate NameGlob(g: string)
    decreases |g|
  {
    g == "" ||
    (&& !First(g).0.Deep?
     && (!IsStar(First(g).0) ==> !TokenAccepts(First(g).0, '/'))
     && NameGlob(Rest(g)))
  }

  lemma {:induction false} NameGlobAcceptsNames(g: string, s: string)
    requires NameGlob(g) && Glob(g, s)
    ensures SlashFree(s)
    decreases |g|, |s|
  {
    if g != "" {
      GlobUnfold(g, s);
      if IsStar(First(g).0) && Glob(Rest(g), s) {
        NameGlobAcceptsNames(Rest(g), s);
      } else {
        NameGlobAcceptsNames(if IsStar(First(g).0) then g else Rest(g), s[1..]);
        assert s == [s[0]] + s[1..];
      }
    }
  }

  predicate Stretch(s: string, i: nat, j: nat)
    requires i <= j <= |s|
  {
    StartsComponent(s, i) && EndsComponent(s, j) && forall m :: i <= m < j ==> s[m] != '/'
  }

  /** s is the name, or the name, a slash, and t. */
  predicate Headed(name: string, s: string, t: Option<string>)
  {
    && name <= s && SlashFree(name)
    && (t.None? ==> |s| == |name|)
    && (t.Some? ==> |s| == |name| + 1 + |t.value| && s[|name|] == '/' && s[|name| + 1..] == t.value)
  }

  function Following(ss: seq<string>, m: nat): Option<string>
  {
    if m + 1 < |ss| then Some(ss[m + 1]) else None
  }

  /** ss lists the spellings of the path, of the path without its first name, and so on. */
  predicate Spellings(p: Path, ss: seq<string>)
  {
    |ss| == |p| && forall m {:trigger Following(ss, m)} :: 0 <= m < |p| ==> Headed(p[m], ss[m], Following(ss, m))
  }

  lemma {:induction false} SpellingsOf(p: Path) returns (ss: seq<string>)
    requires GoodPath(p)
    ensures Spellings(p, ss) && ss[0] == Join(p)
    decreases |p|
  {
    JoinHead(p);
    ss := [Join(p)];
    if |p| > 1 {
      var more := SpellingsOf(p[1..]);
      ss := ss + more;
      forall m | 0 < m < |p|
        ensures Headed(p[m], ss[m], Following(ss, m))
      {
        assert Headed(p[1..][m - 1], more[m - 1], Following(more, m - 1));
      }
    }
  }

  /** A stretch that starts the path is the whole first name. */
  lemma FirstStretch(name: string, s: string, t: Option<string>, j: nat)
    requires Headed(name, s, t) && j <= |s| && Stretch(s, 0, j)
    ensures s[0..j] == name
  {
    assert forall m :: 0 <= m < |name| ==> s[m] == name[m];
    assert j == |name|;
  }

  /** A stretch that starts later lies wholly behind the first name, in what follows it. */
  lemma LaterStretch(name: string, s: string, t: Option<string>, i: nat, j: nat)
    requires Headed(name, s, t) && 0 < i <= j <= |s| && Stretch(s, i, j)
    ensures var n := |name| + 1; t.Some? && n <= i && Stretch(t.value, i - n, j - n) && t.value[i - n..j - n] == s[i..j]
  {
    assert forall m :: 0 <= m < |name| ==> s[m] == name[m];
    assert s[i - 1] == '/';
    ShiftStretch(s, t.value, |name| + 1, i, j);
  }

  lemma ShiftStretch(s: string, t: string, n: nat, i: nat, j: nat)
    requires 0 < n <= i <= j <= |s| && s[n..] == t && s[n - 1] == '/'
    ensures Stretch(t, i - n, j - n) <==> Stretch(s, i, j)
    ensures t[i - n..j - n] == s[i..j]
  {
    assert forall m :: n <= m < |s| ==> s[m] == t[m - n];
    assert forall m :: 0 <= m < |t| ==> t[m] == s[m + n];
  }

  /** A slash-free stretch between component boundaries is one of the names. */
  lemma {:induction false} StretchIsName(p: Path, ss: seq<string>, m: nat, i: nat, j: nat) returns (k: nat)
    requires Spellings(p, ss) && m < |p| && i <= j <= |ss[m]| && Stretch(ss[m], i, j)
    ensures k < |p| && ss[m][i..j] == p[k]
    decreases |p| - m
  {
    assert Headed(p[m], ss[m], Following(ss, m));
    if i == 0 {
      FirstStretch(p[m], ss[m], Following(ss, m), j);
      k := m;
    } else {
      LaterStretch(p[m], ss[m], Following(ss, m), i, j);
      k := StretchIsName(p, ss, m + 1, i - |p[m]| - 1, j - |p[m]| - 1);
    }
  }

  lemma {:induction false} NameIsStretch(p: Path, ss: seq<string>, m: nat, k: nat) returns (i: nat, j: nat)
    requires Spellings(p, ss) && m <= k < |p|
    ensures i <= j <= |ss[m]| && Stretch(ss[m], i, j) && ss[m][i..j] == p[k]
    decreases k - m
  {
    var n := |p[m]|;
    assert Headed(p[m], ss[m], Following(ss, m));
    if m == k {
      i, j := 0, n;
      assert forall x :: 0 <= x < n ==> ss[m][x] == p[m][x];
    } else {
      i, j := NameIsStretch(p, ss, m + 1, k);
      i, j := i + n + 1, j + n + 1;
      ShiftStretch(ss[m], ss[m + 1], n + 1, i, j);
    }
  }

  /** Main result for the common patterns (`core`, `*.log`): the path has a name the glob accepts. */
  lemma NamePatternMeaning(pat: Pattern, p: Path)
    requires GoodPath(p) && NameGlob(pat.glob) && !pat.anchored
    ensures PatternMatches(pat, Join(p)) <==> exists k :: 0 <= k < |p| && Glob(pat.glob, p[k])
  {
    var ss := SpellingsOf(p);
    var s := ss[0];
    if PatternMatches(pat, s) {
      var i: nat, j: nat :| i <= j <= |s| && MatchesAt(pat, s, i, j);
      NameGlobAcceptsNames(pat.glob, s[i..j]);
      assert forall m :: i <= m < j ==> s[m] == s[i..j][m - i];
      var k := StretchIsName(p, ss, 0, i, j);
      assert Glob(pat.glob, p[k]);
    }
    forall k | 0 <= k < |p| && Glob(pat.glob, p[k])
      ensures PatternMatches(pat, s)
    {
      var i, j := NameIsStretch(p, ss, 0, k);
      assert MatchesAt(pat, s, i, j);
    }
  }
}
