/**
 shellQuote of internal/cloudclaude/mount.go against a reader of shell words built from
 sections 2.2.1 (backslash), 2.2.2 (single quotes) and 2.2.3 (double quotes) of the POSIX
 Shell Command Language.
 */
module ShellQuote {
  import opened Wrappers

  /** strings.ReplaceAll(s, "'", "'\"'\"'"). */
  function Escape(s: string): string
  {
    if s == "" then "" else (if s[0] == '\'' then "'\"'\"'" else [s[0]]) + Escape(s[1..])
  }

  function Quote(s: string): string
  {
    "'" + Escape(s) + "'"
  }

  function JoinQuoted(words: seq<string>): string
  {
    if words == [] then "" else if |words| == 1 then Quote(words[0]) else Quote(words[0]) + " " + JoinQuoted(words[1..])
  }

  // ---------------------------------------------------------------------------
  // Reading words

  datatype Mode = Blank | Bare | Single | Double

  /** Characters with a meaning of their own outside quotes; the reader does not interpret them. */
  predicate Special(c: char)
  {
    c in "|&;<>()$`*?[#~=%\n!{}"
  }

  /** The words of t. `Blank` is between words; in the other modes `word` has been read so far.
      None stands for an unclosed quote or a construct that is more than quoting. */
  function Read(t: string, mode: Mode, word: string): Option<seq<string>>
    decreases |t|
  {
    if t == "" then
      match mode
      case Blank => Some([])
      case Bare => Some([word])
      case _ => None
    else
      var c := t[0];
      match mode
      case Blank =>
        if c == ' ' || c == '\t' then Read(t[1..], Blank, "")
        else if c == '\'' then Read(t[1..], Single, "")
        else if c == '"' then Read(t[1..], Double, "")
        else if c == '\\' then (if |t| > 1 && t[1] != '\n' then Read(t[2..], Bare, [t[1]]) else None)
        else if Special(c) then None
        else Read(t[1..], Bare, [c])
      case Bare =>
        if c == ' ' || c == '\t' then Prepend(word, Read(t[1..], Blank, ""))
        else if c == '\'' then Read(t[1..], Single, word)
        else if c == '"' then Read(t[1..], Double, word)
        else if c == '\\' then (if |t| > 1 && t[1] != '\n' then Read(t[2..], Bare, word + [t[1]]) else None)
        else if Special(c) then None
        else Read(t[1..], Bare, word + [c])
      case Single =>
        if c == '\'' then Read(t[1..], Bare, word) else Read(t[1..], Single, word + [c])
      case Double =>
        if c == '"' then Read(t[1..], Bare, word)
        else if c == '$' || c == '`' then None
        else if c == '\\' && |t| > 1 && t[1] in "$`\"\\" then Read(t[2..], Double, word + [t[1]])
        else if c == '\\' && |t| > 1 && t[1] == '\n' then Read(t[2..], Double, word)
        else Read(t[1..], Double, word + [c])
  }

  function Prepend(word: string, rest: Option<seq<string>>): Option<seq<string>>
  {
    if rest.Some? then Some([word] + rest.value) else None
  }

  // ---------------------------------------------------------------------------
  // Round trip

  /** Inside single quotes the escaped text contributes exactly s. */
  lemma {:induction false} ReadEscaped(s: string, rest: string, word: string)
    ensures Read(Escape(s) + "'" + rest, Single, word) == Read(rest, Bare, word + s)
    decreases |s|
  {
    var t := Escape(s) + "'" + rest;
    if s == "" {
      assert t[1..] == rest && word + s == word;
    } else {
      var more := Escape(s[1..]) + "'" + rest;
      assert (word + [s[0]]) + s[1..] == word + s;
      ReadEscaped(s[1..], rest, word + [s[0]]);
      if s[0] == '\'' {
        assert t == "'\"'\"'" + more;
        ReadQuoteMark(more, word);
      } else {
        assert t[1..] == more;
      }
    }
  }

  /** The five characters that stand for one single quote. */
  lemma ReadQuoteMark(more: string, word: string)
    ensures Read("'\"'\"'" + more, Single, word) == Read(more, Single, word + ['\''])
  {
    var t := "'\"'\"'" + more;
    assert t[1..][0] == '"' && t[1..][1..] == t[2..];
    assert t[2..][0] == '\'' && t[2..][1..] == t[3..];
    assert t[3..][0] == '"' && t[3..][1..] == t[4..];
    assert t[4..][0] == '\'' && t[4..][1..] == more;
    assert Read(t[2..], Double, word) == Read(t[3..], Double, word + ['\'']);
    assert Read(t[3..], Double, word + ['\'']) == Read(t[4..], Bare, word + ['\'']);
  }

  lemma ReadQuoted(s: string, rest: string)
    ensures Read(Quote(s) + rest, Blank, "") == Read(rest, Bare, s)
  {
    var t := Quote(s) + rest;
    assert t[1..] == Escape(s) + "'" + rest;
    ReadEscaped(s, rest, "");
    assert "" + s == s;
  }

  /** Main result: quoting any list of strings and reading the line back gives the list. */
  lemma {:induction false} QuotedWordsReadBack(words: seq<string>)
    ensures Read(JoinQuoted(words), Blank, "") == Some(words)
  {
    if |words| == 1 {
      assert JoinQuoted(words) == Quote(words[0]) + "";
      ReadQuoted(words[0], "");
      assert words == [words[0]];
    } else if |words| > 1 {
      var rest := " " + JoinQuoted(words[1..]);
      assert JoinQuoted(words) == Quote(words[0]) + rest;
      assert rest[1..] == JoinQuoted(words[1..]);
      ReadQuoted(words[0], rest);
      QuotedWordsReadBack(words[1..]);
      assert Read(rest, Bare, words[0]) == Prepend(words[0], Read(rest[1..], Blank, ""));
      assert [words[0]] + words[1..] == words;
    }
  }

  /** So different lists never make the same command line. */
  lemma QuotingIsInjective(a: seq<string>, b: seq<string>)
    requires JoinQuoted(a) == JoinQuoted(b)
    ensures a == b
  {
    QuotedWordsReadBack(a);
    QuotedWordsReadBack(b);
  }
}
