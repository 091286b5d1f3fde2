/**
 The fragment of Go's regular-expression syntax that the ignore compiler emits:
 literals, escaped punctuation, `.`, bracket classes, `*`, groups, `|`, `^` and `$`.
 `Parse` reads the text the way Go's regexp/syntax package does for this fragment
 and answers None for every other text; `Matches` gives the meaning.
 */
module Regex {
  import opened Wrappers

  datatype Re =
    | Eps
    | Chr(c: char)
    | AnyChar             // `.`: any character except a newline
    | NotSlash            // `[^/]`: any character except `/`, newlines included
    | OneOf(negated: bool, ranges: seq<(char, char)>)  // any other bracket class; negated ones match newlines
    | Begin               // `^`: only at the start of the text
    | End                 // `$`: only at the end of the text
    | Cat(fst: Re, snd: Re)
    | Alt(left: Re, right: Re)
    | Star(body: Re)

  predicate InRanges(ranges: seq<(char, char)>, c: char)
  {
    exists k :: 0 <= k < |ranges| && ranges[k].0 <= c <= ranges[k].1
  }

  /** A class that the parser returned accepts the character. */
  predicate Accepts(re: Re, c: char)
  {
    match re
    case NotSlash => c != '/'
    case OneOf(negated, ranges) => InRanges(ranges, c) != negated
    case _ => false
  }

  /** `re` matches the stretch s[i..j] of the text s. */
  predicate Matches(re: Re, s: string, i: nat, j: nat)
    requires i <= j <= |s|
    decreases re, 0, j - i
  {
    match re
    case Eps => i == j
    case Chr(c) => j == i + 1 && s[i] == c
    case AnyChar => j == i + 1 && s[i] != '\n'
    case NotSlash => j == i + 1 && Accepts(re, s[i])
    case OneOf(_, _) => j == i + 1 && Accepts(re, s[i])
    case Begin => i == j == 0
    case End => i == j == |s|
    case Cat(l, r) => exists k: nat :: i <= k <= j && Matches(l, s, i, k) && Matches(r, s, k, j)
    case Alt(l, r) => Matches(l, s, i, j) || Matches(r, s, i, j)
    case Star(r) => MatchesStar(r, s, i, j)
  }

  /** Zero or more non-empty rounds of `body` over s[i..j]. */
  predicate MatchesStar(body: Re, s: string, i: nat, j: nat)
    requires i <= j <= |s|
    decreases body, 1, j - i
  {
    i == j || exists k: nat :: i < k <= j && Matches(body, s, i, k) && MatchesStar(body, s, k, j)
  }

  /** Regexp.MatchString: an unanchored search. */
  predicate Search(re: Re, s: string)
  {
    exists i: nat, j: nat :: i <= j <= |s| && Matches(re, s, i, j)
  }

  datatype Parsed = Fail | Ok(re: Re, rest: string)

  const PUNCTUATION := "\\.+*?()|[]{}^$"

  datatype Ranges = NoRanges | Ranges(list: seq<(char, char)>, rest: string)

  /** The ranges of a class up to its closing bracket, which is a member if it comes first. A range
      must not run backwards; escapes and named classes lie outside the fragment. */
  function ParseRanges(t: string, first: bool): (p: Ranges)
    ensures p.Ranges? ==> |p.rest| < |t|
    decreases |t|
  {
    if t == "" then NoRanges
    else if t[0] == ']' && !first then Ranges([], t[1..])
    else if t[0] == '\\' || "[:" <= t then NoRanges
    else if |t| > 2 && t[1] == '-' && t[2] != ']' then
      if t[2] == '\\' || t[2] < t[0] then NoRanges else WithRange(t[0], t[2], ParseRanges(t[3..], false))
    else WithRange(t[0], t[0], ParseRanges(t[1..], false))
  }

  function WithRange(lo: char, hi: char, p: Ranges): Ranges
  {
    match p
    case NoRanges => NoRanges
    case Ranges(list, rest) => Ranges([(lo, hi)] + list, rest)
  }

  function ParseClass(t: string): (p: Parsed)
    requires t != ""
    ensures p.Ok? ==> |p.rest| < |t|
  {
    if "[^/]" <= t then
      Ok(NotSlash, t[4..])
    else
      var negated := |t| > 1 && t[1] == '^';
      OneOfRanges(negated, ParseRanges(if negated then t[2..] else t[1..], true))
  }

  function OneOfRanges(negated: bool, p: Ranges): Parsed
  {
    match p
    case NoRanges => Fail
    case Ranges(list, rest) => Ok(OneOf(negated, list), rest)
  }

  function ParseAlt(t: string): (p: Parsed)
    ensures p.Ok? ==> |p.rest| <= |t|
    decreases |t|, 2
  {
    var p := ParseCat(t);
    if p.Ok? && p.rest != "" && p.rest[0] == '|' then
      var q := ParseAlt(p.rest[1..]);
      if q.Ok? then Ok(Alt(p.re, q.re), q.rest) else Fail
    else
      p
  }

  function ParseCat(t: string): (p: Parsed)
    ensures p.Ok? ==> |p.rest| <= |t|
    decreases |t|, 1
  {
    if t == "" || t[0] == '|' || t[0] == ')' then
      Ok(Eps, t)
    else
      var a := ParseAtom(t);
      if a.Fail? then
        Fail
      else
        var starred := a.rest != "" && a.rest[0] == '*';
        var q := ParseCat(if starred then a.rest[1..] else a.rest);
        if q.Ok? then Ok(Cat(if starred then Star(a.re) else a.re, q.re), q.rest) else Fail
  }

  function ParseAtom(t: string): (p: Parsed)
    requires t != ""
    ensures p.Ok? ==> |p.rest| < |t|
    decreases |t|, 0
  {
    match t[0]
    case '(' =>
      var q := ParseAlt(t[1..]);
      if q.Ok? && q.rest != "" && q.rest[0] == ')' then Ok(q.re, q.rest[1..]) else Fail
    case '\\' => if |t| > 1 && t[1] in PUNCTUATION then Ok(Chr(t[1]), t[2..]) else Fail
    case '[' => ParseClass(t)
    case '.' => Ok(AnyChar, t[1..])
    case '^' => Ok(Begin, t[1..])
    case '$' => Ok(End, t[1..])
    case '*' => Fail
    case '+' => Fail
    case '?' => Fail
    case '{' => Fail
    case '|' => Fail
    case ')' => Fail
    case c => Ok(Chr(c), t[1..])
  }

  /** regexp.Compile on the fragment: the whole text must be read. */
  function Compile(t: string): Option<Re>
  {
    var p := ParseAlt(t);
    if p.Ok? && p.rest == "" then Some(p.re) else None
  }

  lemma SplitCat(l: Re, r: Re, s: string, i: nat, j: nat) returns (k: nat)
    requires i <= j <= |s| && Matches(Cat(l, r), s, i, j)
    ensures i <= k <= j && Matches(l, s, i, k) && Matches(r, s, k, j)
  {
    k :| i <= k <= j && Matches(l, s, i, k) && Matches(r, s, k, j);
  }

  lemma {:induction false} FirstRound(re: Re, s: string, i: nat, j: nat) returns (k: nat)
    requires i < j <= |s| && MatchesStar(re, s, i, j)
    ensures i < k <= j && Matches(re, s, i, k) && MatchesStar(re, s, k, j)
  {
    k :| i < k <= j && Matches(re, s, i, k) && MatchesStar(re, s, k, j);
  }

  /** A starred one-character expression matches exactly the runs of characters it accepts. */
  lemma {:induction false} StarIsRun(re: Re, s: string, i: nat, j: nat)
    requires i <= j <= |s|
    requires re.AnyChar? || re.NotSlash?
    ensures MatchesStar(re, s, i, j) <==>
            forall m: nat :: i <= m < j ==> s[m] != (if re.AnyChar? then '\n' else '/')
    decreases j - i
  {
    if i < j {
      StarIsRun(re, s, i + 1, j);
      if MatchesStar(re, s, i, j) {
        var k := FirstRound(re, s, i, j);
        assert k == i + 1;
      }
    }
  }
}
