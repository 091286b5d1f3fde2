/**
 The gitignore-style rules of internal/cloudclaude/ignore.go: a line is read into a
 pattern, translated character by character into regular-expression text, and the text
 is compiled. `PatternMatches` is the meaning of a pattern given directly on the glob;
 the translation is proved to preserve it.
 */
module Ignore {
  import opened Wrappers
  import opened Regex

  // ---------------------------------------------------------------------------
  // Reading a line

  datatype Pattern = Pattern(negate: bool, dirOnly: bool, anchored: bool, glob: string)

  function TrimRight(s: string): (t: string)
    ensures t <= s
    ensures t == "" || t[|t| - 1] !in " \t\r"
    ensures forall k :: |t| <= k < |s| ==> s[k] in " \t\r"
  {
    if s != "" && s[|s| - 1] in " \t\r" then TrimRight(s[..|s| - 1]) else s
  }

  predicate Leads(s: string, c: char)
  {
    s != "" && s[0] == c
  }

  predicate Trails(s: string, c: char)
  {
    s != "" && s[|s| - 1] == c
  }

  /** strings.TrimPrefix and strings.TrimSuffix of one character. */
  function TrimPrefix(s: string, c: char): string
  {
    if Leads(s, c) then s[1..] else s
  }

  function TrimSuffix(s: string, c: char): string
  {
    if Trails(s, c) then s[..|s| - 1] else s
  }

  /** None for blank lines and comments. */
  function ReadPattern(raw: string): Option<Pattern>
  {
    var line := TrimRight(raw);
    if line == "" || line[0] == '#' then
      None
    else
      var l1 := TrimPrefix(line, '!');
      var l2 := TrimSuffix(l1, '/');
      Some(Pattern(Leads(line, '!'), Trails(l1, '/'), '/' in l2, TrimPrefix(l2, '/')))
  }

  function Before(has: bool, c: char, s: string): string
  {
    if has then [c] + s else s
  }

  function Behind(has: bool, c: char, s: string): string
  {
    if has then s + [c] else s
  }

  /** The line spells the pattern: an optional `!`, an optional leading `/`, the glob, and an optional
      trailing `/`, each taken whenever it is there; a `/` in front or inside anchors. */
  predicate Spells(line: string, pat: Pattern, rooted: bool)
  {
    var body := Before(rooted, '/', pat.glob);
    var rest := Behind(pat.dirOnly, '/', body);
    && line == Before(pat.negate, '!', rest)
    && (!pat.negate ==> !Leads(rest, '!'))
    && (!pat.dirOnly ==> !Trails(body, '/'))
    && (!rooted ==> !Leads(pat.glob, '/'))
    && (pat.anchored <==> rooted || '/' in pat.glob)
  }

  predicate BlankOrComment(line: string)
  {
    line == "" || line[0] == '#'
  }

  lemma PrefixRead(s: string, c: char, has: bool, rest: string)
    ensures s == Before(has, c, rest) && (!has ==> !Leads(rest, c)) <==> has == Leads(s, c) && rest == TrimPrefix(s, c)
  {
    assert ([c] + rest)[1..] == rest;
    assert Leads(s, c) ==> s == [c] + s[1..];
  }

  lemma SuffixRead(s: string, c: char, has: bool, rest: string)
    ensures s == Behind(has, c, rest) && (!has ==> !Trails(rest, c)) <==>
              has == Trails(s, c) && rest == TrimSuffix(s, c)
  {
    assert (rest + [c])[..|rest|] == rest && (rest + [c])[|rest|] == c;
    assert Trails(s, c) ==> s == s[..|s| - 1] + [c];
  }

  /** Reading a line inverts spelling it: the result is the one pattern that the trimmed line spells. */
  lemma LineMeaning(raw: string, pat: Pattern)
    ensures ReadPattern(raw) == Some(pat) <==>
            !BlankOrComment(TrimRight(raw)) && exists rooted :: Spells(TrimRight(raw), pat, rooted)
  {
    var line := TrimRight(raw);
    var l2 := TrimSuffix(TrimPrefix(line, '!'), '/');
    forall rooted
      ensures Spells(line, pat, rooted) <==>
              && pat.negate == Leads(line, '!') && pat.dirOnly == Trails(TrimPrefix(line, '!'), '/')
              && rooted == Leads(l2, '/') && pat.glob == TrimPrefix(l2, '/') && pat.anchored == ('/' in l2)
    {
      SpellsParts(line, pat, rooted);
    }
    if !BlankOrComment(line) {
      var read := ReadPattern(raw).value;
      assert pat == Pattern(pat.negate, pat.dirOnly, pat.anchored, pat.glob);
      assert Spells(line, pat, Leads(l2, '/')) <==> pat == read;
    }
  }

  lemma SpellsParts(line: string, pat: Pattern, rooted: bool)
    ensures var l2 := TrimSuffix(TrimPrefix(line, '!'), '/');
            Spells(line, pat, rooted) <==>
            && pat.negate == Leads(line, '!') && pat.dirOnly == Trails(TrimPrefix(line, '!'), '/')
            && rooted == Leads(l2, '/') && pat.glob == TrimPrefix(l2, '/') && pat.anchored == ('/' in l2)
  {
    var body := Before(rooted, '/', pat.glob);
    var rest := Behind(pat.dirOnly, '/', body);
    PrefixRead(line, '!', pat.negate, rest);
    SuffixRead(rest, '/', pat.dirOnly, body);
    PrefixRead(body, '/', rooted, pat.glob);
    var l1 := TrimPrefix(line, '!');
    var l2 := TrimSuffix(l1, '/');
    SuffixRead(l1, '/', pat.dirOnly, l2);
    PrefixRead(l2, '/', rooted, pat.glob);
    SlashInside(l2);
  }

  lemma SlashInside(s: string)
    ensures '/' in s <==> Leads(s, '/') || '/' in TrimPrefix(s, '/')
  {
    assert Leads(s, '/') ==> s[0] in s;
  }

  // ---------------------------------------------------------------------------
  // Meaning of a pattern, directly on the glob

  /** Index of the first `c` in s, or |s|. */
  function IndexOf(s: string, c: char): (k: nat)
    ensures k <= |s|
    ensures k < |s| ==> s[k] == c
    ensures forall m :: 0 <= m < k ==> s[m] != c
  {
    if s == "" || s[0] == c then 0 else 1 + IndexOf(s[1..], c)
  }

  /** g begins with a bracket class, which ends with the first `]`. */
  predicate HasClass(g: string)
  {
    g != "" && g[0] == '[' && IndexOf(g[1..], ']') < |g| - 1
  }

  function ClassAt(g: string): (text: string)
    requires HasClass(g)
    ensures 1 < |text| <= |g|
  {
    g[..IndexOf(g[1..], ']') + 2]
  }

  /** What the class means to Go's regexp engine; a `!` has no special meaning there. */
  predicate InClass(text: string, c: char)
    requires text != ""
  {
    var p := ParseClass(text);
    p.Ok? && Accepts(p.re, c)
  }

  function AfterDeep(g: string): (r: string)
    requires "**" <= g
    ensures |r| < |g|
  {
    if "**/" <= g then g[3..] else g[2..]
  }

  /** `*` and `?` never cross `/`; `**` crosses it and swallows one `/` that follows it; a class
      takes one character that it accepts, which can be a `/`. */
  predicate Glob(g: string, s: string)
    decreases |g|, |s|
  {
    if g == "" then
      s == ""
    else if "**" <= g then
      Glob(AfterDeep(g), s) || (s != "" && s[0] != '\n' && Glob(g, s[1..]))
    else if g[0] == '*' then
      Glob(g[1..], s) || (s != "" && s[0] != '/' && Glob(g, s[1..]))
    else if g[0] == '?' then
      s != "" && s[0] != '/' && Glob(g[1..], s[1..])
    else if HasClass(g) then
      s != "" && InClass(ClassAt(g), s[0]) && Glob(g[|ClassAt(g)|..], s[1..])
    else
      s != "" && s[0] == g[0] && Glob(g[1..], s[1..])
  }

  /** `**` stands for everything but a newline. */
  lemma {:induction false} DeepStopsAtNewline(s: string)
    ensures Glob("**", s) <==> '\n' !in s
  {
    assert AfterDeep("**") == "";
    if s != "" {
      DeepStopsAtNewline(s[1..]);
      assert s == [s[0]] + s[1..];
    }
  }

  predicate StartsComponent(s: string, i: nat)
    requires i <= |s|
  {
    i == 0 || s[i - 1] == '/'
  }

  predicate EndsComponent(s: string, j: nat)
    requires j <= |s|
  {
    j == |s| || s[j] == '/'
  }

  /** The pattern accepts a stretch of whole components, beginning at the root if anchored. */
  predicate PatternMatches(pat: Pattern, path: string)
  {
    exists i: nat, j: nat :: i <= j <= |path| && MatchesAt(pat, path, i, j)
  }

  predicate MatchesAt(pat: Pattern, path: string, i: nat, j: nat)
    requires i <= j <= |path|
  {
    && (if pat.anchored then i == 0 else StartsComponent(path, i))
    && EndsComponent(path, j)
    && Glob(pat.glob, path[i..j])
  }

  // ---------------------------------------------------------------------------
  // Translation

  datatype Token = Lit(c: char) | One | Run | Deep | Class(text: string)

  /** The first token of the pattern text g and the number of characters it covers. */
  function First(g: string): (r: (Token, nat))
    requires g != ""
    ensures 0 < r.1 <= |g|
  {
    if g[0] == '*' then
      if |g| > 1 && g[1] == '*' then (Deep, if |g| > 2 && g[2] == '/' then 3 else 2) else (Run, 1)
    else if g[0] == '?' then
      (One, 1)
    else if HasClass(g) then
      (Class(ClassAt(g)), |ClassAt(g)|)
    else
      (Lit(g[0]), 1)
  }

  /** What the translation loop intends for the pattern text g. */
  function Tokens(g: string): seq<Token>
  {
    if g == "" then [] else [First(g).0] + Tokens(g[First(g).1..])
  }

  /** The characters that the translation puts a backslash before. */
  predicate Escaped(c: char)
  {
    || c == '.' || c == '+' || c == '(' || c == ')' || c == '|' || c == '^'
    || c == '$' || c == '{' || c == '}' || c == '\\' || c == '['
  }

  function EmitToken(t: Token): string
  {
    match t
    case Lit(c) => if Escaped(c) then ['\\', c] else [c]
    case One => "[^/]"
    case Run => "[^/]*"
    case Deep => ".*"
    case Class(text) => text
  }

  function Emit(ts: seq<Token>): string
  {
    if ts == [] then "" else EmitToken(ts[0]) + Emit(ts[1..])
  }

  function Head(anchored: bool): string
  {
    if anchored then "^" else "(^|/)"
  }

  const TAIL := "(/|$)"

  /**
   The translation loop of compileIgnoreRule: index `i` over the line, text builder `sb`.
   Each round reads what `First` describes and appends its text.
   */
  method Translate(anchored: bool, line: string) returns (sb: string)
    ensures sb == Head(anchored) + Emit(Tokens(line)) + TAIL
  {
    sb := if anchored then "^" else "(^|/)";
    var i := 0;
    while i < |line|
      invariant 0 <= i <= |line|
      invariant sb + Emit(Tokens(line[i..])) == Head(anchored) + Emit(Tokens(line))
    {
      ghost var i0, sb0 := i, sb;
      var text;
      text, i := TranslateOne(line, i);
      sb := sb + text;
      assert line[i0..][i - i0..] == line[i..];
      EmitStep(line[i0..], sb0, sb, line[i..]);
    }
    sb := sb + "(/|$)";
  }

  /** One round of the loop: the text appended and the next index. */
  method TranslateOne(line: string, i: nat) returns (text: string, next: nat)
    requires i < |line|
    ensures next == i + First(line[i..]).1 <= |line|
    ensures text == EmitToken(First(line[i..]).0)
  {
    ghost var g := line[i..];
    var c := line[i];
    if c == '*' {
      if i + 1 < |line| && line[i + 1] == '*' {
        text, next := ".*", i + 2;
        if next < |line| && line[next] == '/' {
          next := next + 1;
        }
      } else {
        text, next := "[^/]*", i + 1;
      }
    } else if c == '?' {
      text, next := "[^/]", i + 1;
    } else if c == '[' {
      var end := IndexOf(line[i + 1..], ']');
      assert g[1..] == line[i + 1..];
      if end == |line| - i - 1 {
        text, next := "\\[", i + 1;
      } else {
        text, next := line[i..i + end + 2], i + end + 2;
      }
    } else if c == '.' || c == '+' || c == '(' || c == ')' || c == '|' || c == '^'
              || c == '$' || c == '{' || c == '}' || c == '\\' {
      text, next := ['\\', c], i + 1;
    } else {
      text, next := [c], i + 1;
    }
  }

  lemma EmitStep(g: string, before: string, after: string, rest: string)
    requires g != "" && rest == g[First(g).1..]
    requires after == before + EmitToken(First(g).0)
    ensures after + Emit(Tokens(rest)) == before + Emit(Tokens(g))
  {
    EmitCons(First(g).0, Tokens(rest));
    Associative(before, EmitToken(First(g).0), Emit(Tokens(rest)));
  }

  lemma EmitCons(t: Token, ts: seq<Token>)
    ensures Emit([t] + ts) == EmitToken(t) + Emit(ts)
  {
    assert ([t] + ts)[1..] == ts;
  }

  lemma Associative(a: string, b: string, c: string)
    ensures (a + b) + c == a + (b + c)
  {
  }

  // ---------------------------------------------------------------------------
  // The emitted text reads back as the intended expression

  /** What stands between the brackets, after a negating `^`. */
  function Members(text: string): string
    requires |text| >= 2
  {
    var inner := text[1..|text| - 1];
    if Leads(inner, '^') then inner[1..] else inner
  }

  /** A class that is not empty and holds neither escapes nor named classes. */
  predicate PlainClass(text: string)
  {
    && |text| >= 2 && text[0] == '[' && text[|text| - 1] == ']'
    && (forall k :: 0 < k < |text| - 1 ==> text[k] != ']' && text[k] != '\\')
    && Members(text) != ""
    && (forall k :: 0 < k < |text| - 1 ==> !(text[k] == '[' && text[k + 1] == ':'))
  }

  /** The pattern text uses plain classes only. */
  predicate Plain(g: string)
  {
    forall k :: 0 <= k < |Tokens(g)| && Tokens(g)[k].Class? ==> PlainClass(Tokens(g)[k].text)
  }

  /** No class has a range that runs backwards, the one thing regexp.Compile rejects in plain text. */
  predicate Sound(ts: seq<Token>)
  {
    forall k :: 0 <= k < |ts| ==> SoundToken(ts[k])
  }

  predicate SoundToken(t: Token)
  {
    t.Class? ==> SoundClass(t.text)
  }

  predicate SoundClass(text: string)
  {
    text != "" && ParseClass(text).Ok?
  }

  function TokenRe(t: Token): Re
    requires SoundToken(t)
  {
    match t
    case Lit(c) => Chr(c)
    case One => NotSlash
    case Run => Star(NotSlash)
    case Deep => Star(AnyChar)
    case Class(text) => ParseClass(text).re
  }

  /** The parsed form of TAIL. */
  const TAIL_RE := Cat(Alt(Cat(Chr('/'), Eps), Cat(End, Eps)), Eps)

  function BodyRe(ts: seq<Token>): Re
    requires Sound(ts)
  {
    if ts == [] then TAIL_RE else Cat(TokenRe(ts[0]), BodyRe(ts[1..]))
  }

  /** The parsed form of the head. */
  function HeadRe(anchored: bool): Re
  {
    if anchored then Begin else Alt(Cat(Begin, Eps), Cat(Chr('/'), Eps))
  }

  function RuleRe(anchored: bool, ts: seq<Token>): Re
    requires Sound(ts)
  {
    Cat(HeadRe(anchored), BodyRe(ts))
  }

  /** A token of a plain pattern text: literals are never stars or question marks. */
  predicate WellRead(t: Token)
  {
    (t.Lit? ==> t.c != '*' && t.c != '?') && (t.Class? ==> PlainClass(t.text))
  }

  lemma {:induction false} LiteralsOf(g: string)
    ensures forall k :: 0 <= k < |Tokens(g)| && Tokens(g)[k].Lit? ==> Tokens(g)[k].c != '*' && Tokens(g)[k].c != '?'
    decreases |g|
  {
    if g != "" {
      LiteralsOf(g[First(g).1..]);
    }
  }

  predicate Continues(rest: string)
  {
    rest != "" && rest[0] != '*'
  }

  /** The expression re in front of what was parsed. */
  function Then(re: Re, p: Parsed): Parsed
  {
    match p
    case Fail => Fail
    case Ok(next, rest) => Ok(Cat(re, next), rest)
  }

  lemma ParseRun(rest: string)
    requires Continues(rest)
    ensures Continues("[^/]*" + rest)
    ensures ParseCat("[^/]*" + rest) == Then(Star(NotSlash), ParseCat(rest))
  {
    ParseNotSlash("*" + rest);
    assert "[^/]*" + rest == "[^/]" + ("*" + rest) && ("*" + rest)[1..] == rest;
  }

  lemma ParseDeep(rest: string)
    requires Continues(rest)
    ensures Continues(".*" + rest)
    ensures ParseCat(".*" + rest) == Then(Star(AnyChar), ParseCat(rest))
  {
    var text := ".*" + rest;
    assert text[0] == '.' && text[1..] == "*" + rest && text[1..][1..] == rest;
  }

  lemma ParseNotSlash(rest: string)
    ensures ParseAtom("[^/]" + rest) == Ok(NotSlash, rest)
    ensures Continues("[^/]" + rest) && ("[^/]" + rest)[0] == '['
  {
    var text := "[^/]" + rest;
    assert text[..4] == "[^/]" && text[4..] == rest;
  }

  lemma ParseLiteral(c: char, rest: string)
    requires Continues(rest) && c != '*' && c != '?'
    ensures Continues(EmitToken(Lit(c)) + rest)
    ensures ParseCat(EmitToken(Lit(c)) + rest) == Then(Chr(c), ParseCat(rest))
  {
    var text := EmitToken(Lit(c)) + rest;
    if Escaped(c) {
      assert text[0] == '\\' && text[1] == c && text[2..] == rest;
    } else {
      assert text[0] == c && text[1..] == rest;
    }
  }

  /** One step of reading the members q of a class that ends where u begins. */
  lemma RangesStep(q: string, u: string, first: bool)
    requires q != "" && Leads(u, ']') && forall k :: 0 <= k < |q| ==> q[k] != ']'
    ensures ParseRanges(q + u, first) ==
            if q[0] == '\\' || "[:" <= q then NoRanges
            else if |q| > 2 && q[1] == '-' then
              if q[2] == '\\' || q[2] < q[0] then NoRanges else WithRange(q[0], q[2], ParseRanges(q[3..] + u, false))
            else WithRange(q[0], q[0], ParseRanges(q[1..] + u, false))
  {
    var t := q + u;
    assert t[1..] == q[1..] + u;
    assert |q| > 2 ==> t[3..] == q[3..] + u;
    assert |q| == 1 ==> t[1] == u[0];
    assert |q| == 2 ==> t[2] == u[0];
  }

  lemma {:induction false} RangesBeforeRest(q: string, first: bool, rest: string)
    requires (q != "" || !first) && forall k :: 0 <= k < |q| ==> q[k] != ']'
    ensures ParseRanges(q + ("]" + rest), first) ==
            match ParseRanges(q + "]", first) case NoRanges => NoRanges case Ranges(list, _) => Ranges(list, rest)
    decreases |q|
  {
    if q == "" {
      assert q + ("]" + rest) == "]" + rest && ("]" + rest)[1..] == rest;
    } else {
      RangesStep(q, "]" + rest, first);
      RangesStep(q, "]", first);
      RangesBeforeRest(q[1..], false, rest);
      if |q| > 2 && q[1] == '-' {
        RangesBeforeRest(q[3..], false, rest);
      }
    }
  }

  /** A class is its bracket, an optional `^`, its members, and the closing bracket. */
  lemma ClassParts(text: string)
    requires PlainClass(text)
    ensures var from, q := if text[1] == '^' then 2 else 1, Members(text);
            q != "" && (forall k :: 0 <= k < |q| ==> q[k] != ']') && from <= |text| && text[from..] == q + "]"
  {
    var n, q := |text|, Members(text);
    var inner := text[1..n - 1];
    assert inner != "" && inner[0] == text[1];
    var from := if text[1] == '^' then 2 else 1;
    assert q == text[from..n - 1];
    assert text[n - 1..] == "]";
    assert text[from..] == text[from..n - 1] + text[n - 1..];
  }

  /** The same in front of more text. */
  lemma ClassSlices(text: string, rest: string)
    requires PlainClass(text)
    ensures var from, q := if text[1] == '^' then 2 else 1, Members(text);
            && q != "" && (forall k :: 0 <= k < |q| ==> q[k] != ']')
            && text[from..] == q + "]" && (text + rest)[from..] == q + ("]" + rest)
  {
    ClassParts(text);
    var from := if text[1] == '^' then 2 else 1;
    assert (text + rest)[from..] == text[from..] + rest;
    Associative(Members(text), "]", rest);
  }

  lemma SlashClassSlices(text: string, rest: string)
    requires PlainClass(text)
    ensures "[^/]" <= text + rest ==> text == "[^/]" && (text + rest)[4..] == rest
    ensures "[^/]" <= text ==> "[^/]" <= text + rest && text[4..] == ""
  {
    var t := text + rest;
    assert t[..|text|] == text && t[|text|..] == rest;
    if "[^/]" <= t {
      assert t[3] == ']' && t[1] == '^' && t[2] == '/';
      assert |text| >= 4;
      assert text[3] == t[3];
    }
  }

  lemma ClassBeforeRest(text: string, rest: string)
    requires PlainClass(text)
    ensures ParseClass(text + rest) == match ParseClass(text) case Fail => Fail case Ok(re, _) => Ok(re, rest)
  {
    SlashClassSlices(text, rest);
    ClassSlices(text, rest);
    RangesBeforeRest(Members(text), true, rest);
    assert (text + rest)[1] == text[1];
  }

  /** A class is read up to its own closing bracket, whatever follows. */
  lemma ParseClassToken(text: string, rest: string)
    requires Continues(rest) && PlainClass(text)
    ensures Continues(text + rest)
    ensures ParseCat(text + rest) == if SoundClass(text) then Then(ParseClass(text).re, ParseCat(rest)) else Fail
  {
    ClassBeforeRest(text, rest);
    assert (text + rest)[0] == '[';
  }

  lemma ParseToken(t: Token, rest: string)
    requires Continues(rest) && WellRead(t)
    ensures Continues(EmitToken(t) + rest)
    ensures ParseCat(EmitToken(t) + rest) == if SoundToken(t) then Then(TokenRe(t), ParseCat(rest)) else Fail
  {
    match t
    case Lit(c) => ParseLiteral(c, rest);
    case One => ParseNotSlash(rest);
    case Run => ParseRun(rest);
    case Deep => ParseDeep(rest);
    case Class(text) => ParseClassToken(text, rest);
  }

  /** A member of a class: one character, or all from the first to the last of two. */
  datatype Item = Single(c: char) | Range(lo: char, hi: char)

  predicate Ordinary(x: Item)
  {
    match x
    case Single(c) => c !in "[]\\-^"
    case Range(lo, hi) => lo !in "[]\\-^" && hi !in "[]\\-^"
  }

  predicate Covers(x: Item, c: char)
  {
    match x
    case Single(d) => c == d
    case Range(lo, hi) => lo <= c <= hi
  }

  predicate Backward(x: Item)
  {
    x.Range? && x.hi < x.lo
  }

  function SpellItem(x: Item): string
  {
    match x
    case Single(c) => [c]
    case Range(lo, hi) => [lo, '-', hi]
  }

  function SpellItems(items: seq<Item>): string
  {
    if items == [] then "" else SpellItem(items[0]) + SpellItems(items[1..])
  }

  predicate SomeBackward(items: seq<Item>)
  {
    exists k :: 0 <= k < |items| && Backward(items[k])
  }

  predicate SomeCovers(items: seq<Item>, c: char)
  {
    exists k :: 0 <= k < |items| && Covers(items[k], c)
  }

  /** What the parser reads from the members up to the closing bracket. */
  predicate ReadsItems(p: Ranges, items: seq<Item>, c: char)
  {
    if SomeBackward(items) then p.NoRanges?
    else p.Ranges? && p.rest == "" && (InRanges(p.list, c) <==> SomeCovers(items, c))
  }

  lemma FirstItem(x: Item, u: string, first: bool)
    requires Ordinary(x) && u != "" && u[0] != '-'
    ensures ParseRanges(SpellItem(x) + u, first) ==
            if Backward(x) then NoRanges
            else if x.Single? then WithRange(x.c, x.c, ParseRanges(u, false))
            else WithRange(x.lo, x.hi, ParseRanges(u, false))
  {
    var t := SpellItem(x) + u;
    assert t[|SpellItem(x)|..] == u;
    assert x.Single? ==> t[1] == u[0];
  }

  lemma ItemBefore(x: Item, items: seq<Item>, p: Ranges, c: char)
    requires ReadsItems(p, items, c)
    ensures var lo, hi := if x.Single? then x.c else x.lo, if x.Single? then x.c else x.hi;
            ReadsItems(if Backward(x) then NoRanges else WithRange(lo, hi, p), [x] + items, c)
  {
    var all := [x] + items;
    assert all[0] == x;
    forall k | 0 <= k < |items|
      ensures all[k + 1] == items[k]
    {
    }
    if p.Ranges? && !Backward(x) {
      InMoreRanges(if x.Single? then x.c else x.lo, if x.Single? then x.c else x.hi, p.list, c);
    }
  }

  lemma InMoreRanges(lo: char, hi: char, more: seq<(char, char)>, c: char)
    ensures InRanges([(lo, hi)] + more, c) <==> lo <= c <= hi || InRanges(more, c)
  {
    var list := [(lo, hi)] + more;
    assert list[0] == (lo, hi);
    forall k | 0 <= k < |more|
      ensures list[k + 1] == more[k]
    {
    }
  }

  lemma {:induction false} RangesOfItems(items: seq<Item>, first: bool, c: char)
    requires (items != [] || !first) && forall k :: 0 <= k < |items| ==> Ordinary(items[k])
    ensures ReadsItems(ParseRanges(SpellItems(items) + "]", first), items, c)
    decreases |items|
  {
    if items != [] {
      var rest := SpellItems(items[1..]) + "]";
      RangesOfItems(items[1..], false, c);
      assert items[1..] != [] ==> Ordinary(items[1..][0]);
      FirstItem(items[0], rest, first);
      ItemBefore(items[0], items[1..], ParseRanges(rest, false), c);
      assert items == [items[0]] + items[1..];
      Associative(SpellItem(items[0]), SpellItems(items[1..]), "]");
    }
  }

  lemma NoCaret(items: seq<Item>)
    requires items != [] && Ordinary(items[0])
    ensures SpellItems(items) != "" && SpellItems(items)[0] != '^'
  {
  }

  lemma PlainReads(u: string)
    requires u != "" && u[0] != '^'
    ensures ParseClass("[" + u) == OneOfRanges(false, ParseRanges(u, true))
  {
    var t := "[" + u;
    assert t[1..] == u && t[1] == u[0];
  }

  /** `[^/]` has a form of its own. */
  lemma NegatedReads(u: string)
    requires |u| >= 2
    ensures ParseClass("[^" + u) ==
            if u[0] == '/' && u[1] == ']' then Ok(NotSlash, u[2..]) else OneOfRanges(true, ParseRanges(u, true))
  {
    var t := "[^" + u;
    assert t[2..] == u && t[1] == '^' && t[2] == u[0] && t[3] == u[1] && t[4..] == u[2..];
    assert "[^/]" <= t <==> u[0] == '/' && u[1] == ']';
  }

  lemma SlashRanges(u: string, c: char)
    requires |u| >= 2 && u[0] == '/' && u[1] == ']'
    ensures var p := ParseRanges(u, true); p.Ranges? && p.rest == u[2..] && (InRanges(p.list, c) <==> c == '/')
  {
    assert u[1..][1..] == u[2..];
    InMoreRanges('/', '/', [], c);
  }

  /** The class is rejected, or accepts c as stated. */
  predicate ReadsClass(text: string, backward: bool, c: char, accepted: bool)
  {
    (SoundClass(text) <==> !backward) && (!backward ==> (InClass(text, c) <==> accepted))
  }

  lemma ClassOfRanges(u: string, backward: bool, c: char, covered: bool)
    requires |u| >= 2 && u[0] != '^'
    requires var p := ParseRanges(u, true);
             if backward then p.NoRanges? else p.Ranges? && (InRanges(p.list, c) <==> covered)
    ensures ReadsClass("[" + u, backward, c, covered) && ReadsClass("[^" + u, backward, c, !covered)
  {
    PlainReads(u);
    NegatedReads(u);
    if u[0] == '/' && u[1] == ']' {
      SlashRanges(u, c);
    }
  }

  /** A class of ordinary characters and ranges accepts exactly what one of its members covers, and with
      a `^` in front exactly the rest; it is rejected iff a range runs backwards. */
  lemma ClassOfItems(items: seq<Item>, c: char)
    requires items != [] && forall k :: 0 <= k < |items| ==> Ordinary(items[k])
    ensures ReadsClass("[" + (SpellItems(items) + "]"), SomeBackward(items), c, SomeCovers(items, c))
    ensures ReadsClass("[^" + (SpellItems(items) + "]"), SomeBackward(items), c, !SomeCovers(items, c))
  {
    NoCaret(items);
    RangesOfItems(items, true, c);
    ClassOfRanges(SpellItems(items) + "]", SomeBackward(items), c, SomeCovers(items, c));
  }

  function Singles(letters: string): seq<Item>
  {
    seq(|letters|, k requires 0 <= k < |letters| => Single(letters[k]))
  }

  lemma {:induction false} SpellSingles(letters: string)
    ensures SpellItems(Singles(letters)) == letters
  {
    if letters != "" {
      assert Singles(letters)[1..] == Singles(letters[1..]);
      SpellSingles(letters[1..]);
    }
  }

  /** A class of ordinary characters accepts exactly those, and with a `^` in front exactly the
      others. A `!` is an ordinary character. */
  lemma ClassOfLetters(letters: string, c: char)
    requires letters != "" && forall k :: 0 <= k < |letters| ==> letters[k] !in "[]\\-^"
    ensures InClass("[" + letters + "]", c) <==> c in letters
    ensures InClass("[^" + letters + "]", c) <==> c !in letters
  {
    SpellSingles(letters);
    ClassOfItems(Singles(letters), c);
    Associative("[", letters, "]");
    Associative("[^", letters, "]");
    forall k | 0 <= k < |letters|
      ensures Covers(Singles(letters)[k], c) <==> letters[k] == c
    {
    }
    if c in letters {
      var k :| 0 <= k < |letters| && letters[k] == c;
      assert Covers(Singles(letters)[k], c);
    }
  }

  lemma {:induction false} ParseBody(ts: seq<Token>)
    requires forall k :: 0 <= k < |ts| ==> WellRead(ts[k])
    ensures Continues(Emit(ts) + TAIL)
    ensures ParseCat(Emit(ts) + TAIL) == if Sound(ts) then Ok(BodyRe(ts), "") else Fail
    decreases |ts|
  {
    if ts == [] {
      ParseTail();
      assert Emit(ts) + TAIL == TAIL;
    } else {
      ParseBody(ts[1..]);
      ParseToken(ts[0], Emit(ts[1..]) + TAIL);
      Associative(EmitToken(ts[0]), Emit(ts[1..]), TAIL);
      SoundCons(ts);
    }
  }

  lemma SoundCons(ts: seq<Token>)
    requires ts != []
    ensures Sound(ts) <==> SoundToken(ts[0]) && Sound(ts[1..])
  {
    forall k | 0 < k < |ts|
      ensures ts[k] == ts[1..][k - 1]
    {
    }
  }

  function BoundaryRe(c: char): Re
    requires c in "/^$"
  {
    if c == '/' then Chr('/') else if c == '^' then Begin else End
  }

  lemma ParseOneChar(c: char, rest: string)
    requires c in "/^$" && rest != "" && (rest[0] == '|' || rest[0] == ')')
    ensures ParseCat([c] + rest) == Ok(Cat(BoundaryRe(c), Eps), rest)
  {
    assert ([c] + rest)[1..] == rest;
  }

  lemma ParseChoice(a: char, b: char, rest: string)
    requires a in "/^$" && b in "/^$"
    ensures ParseAlt([a] + (['|'] + ([b] + ([')'] + rest)))) ==
            Ok(Alt(Cat(BoundaryRe(a), Eps), Cat(BoundaryRe(b), Eps)), [')'] + rest)
  {
    var t2 := [')'] + rest;
    var t1 := ['|'] + ([b] + t2);
    ParseOneChar(a, t1);
    ParseOneChar(b, t2);
    assert t1[1..] == [b] + t2;
    assert ParseAlt([b] + t2) == Ok(Cat(BoundaryRe(b), Eps), t2);
  }

  lemma ParseGroup(a: char, b: char, rest: string)
    requires a in "/^$" && b in "/^$"
    ensures ParseAtom(['(', a, '|', b, ')'] + rest) == Ok(Alt(Cat(BoundaryRe(a), Eps), Cat(BoundaryRe(b), Eps)), rest)
  {
    var t := ['(', a, '|', b, ')'] + rest;
    var u := [')'] + rest;
    ParseChoice(a, b, rest);
    assert t[1..] == [a] + (['|'] + ([b] + u));
    assert u[1..] == rest;
  }

  lemma ParseTail()
    ensures ParseCat(TAIL) == Ok(TAIL_RE, "")
  {
    ParseGroup('/', '$', "");
    assert TAIL == ['(', '/', '|', '$', ')'] + "";
  }

  lemma HeadParses(anchored: bool, body: string)
    requires Continues(body)
    ensures ParseCat(Head(anchored) + body) ==
            Then(HeadRe(anchored), ParseCat(body))
  {
    if anchored {
      assert (Head(anchored) + body)[1..] == body;
    } else {
      ParseGroup('^', '/', body);
      assert Head(anchored) + body == ['(', '^', '|', '/', ')'] + body;
    }
  }

  /** The emitted text, escapes and classes included, compiles to exactly the intended expression; it
      is rejected exactly when a class has a range that runs backwards. */
  lemma EmittedTextParses(anchored: bool, g: string)
    requires Plain(g)
    ensures Compile(Head(anchored) + Emit(Tokens(g)) + TAIL) ==
            if Sound(Tokens(g)) then Some(RuleRe(anchored, Tokens(g))) else None
  {
    LiteralsOf(g);
    ParseBody(Tokens(g));
    var body := Emit(Tokens(g)) + TAIL;
    Associative(Head(anchored), Emit(Tokens(g)), TAIL);
    HeadParses(anchored, body);
  }
}
