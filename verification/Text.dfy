/** String helpers of the Go standard library that several components use. */
module Text {

  /** unicode.IsSpace. */
  predicate IsSpace(c: char)
  {
    || c in "\t\n\U{0B}\U{0C}\r "
    || c as int in {0x85, 0xA0, 0x1680, 0x2028, 0x2029, 0x202F, 0x205F, 0x3000}
    || 0x2000 <= c as int <= 0x200A
  }

  /** The white space of Unicode, by code points. */
  lemma SpaceCodes(c: char)
    ensures var n := c as int;
            IsSpace(c) <==> 9 <= n <= 13 || n == 32 || n == 133 || n == 160 || n == 5760 || 8192 <= n <= 8202 ||
                            n == 8232 || n == 8233 || n == 8239 || n == 8287 || n == 12288
  {
    assert '\t' as int == 9 && '\n' as int == 10 && '\r' as int == 13 && ' ' as int == 32;
    assert '\U{0B}' as int == 11 && '\U{0C}' as int == 12;
  }

  /** strings.TrimSpace. */
  function TrimSpace(s: string): (t: string)
    ensures |t| <= |s|
    ensures t != "" ==> !IsSpace(t[0]) && !IsSpace(t[|t| - 1])
    ensures t == "" <==> forall k :: 0 <= k < |s| ==> IsSpace(s[k])
    decreases |s|
  {
    if s == "" then ""
    else if IsSpace(s[0]) then TrimSpace(s[1..])
    else if IsSpace(s[|s| - 1]) then TrimSpace(s[..|s| - 1])
    else s
  }

  /** t is what remains of s between the stretches s[..i] and s[j..] of blanks. */
  predicate CutTo(s: string, t: string, i: nat, j: nat)
  {
    i <= j <= |s| && t == s[i..j] && forall k :: 0 <= k < |s| && !(i <= k < j) ==> IsSpace(s[k])
  }

  /** Trimming cuts blanks off both ends and leaves the stretch between them as it is. */
  lemma {:induction false} TrimmedStretch(s: string) returns (i: nat, j: nat)
    ensures CutTo(s, TrimSpace(s), i, j)
    decreases |s|
  {
    if s != "" && IsSpace(s[0]) {
      i, j := TrimmedStretch(s[1..]);
      CutInFront(s, TrimSpace(s[1..]), i, j);
      i, j := i + 1, j + 1;
    } else if s != "" && IsSpace(s[|s| - 1]) {
      i, j := TrimmedStretch(s[..|s| - 1]);
      CutBehind(s, TrimSpace(s[..|s| - 1]), i, j);
    } else {
      i, j := 0, |s|;
    }
  }

  lemma CutInFront(s: string, t: string, i: nat, j: nat)
    requires s != "" && IsSpace(s[0]) && CutTo(s[1..], t, i, j)
    ensures CutTo(s, t, i + 1, j + 1)
  {
    assert s[1..][i..j] == s[i + 1..j + 1];
    forall k | 0 < k < |s| && !(i + 1 <= k < j + 1)
      ensures IsSpace(s[k])
    {
      assert s[1..][k - 1] == s[k];
    }
  }

  lemma CutBehind(s: string, t: string, i: nat, j: nat)
    requires s != "" && IsSpace(s[|s| - 1]) && CutTo(s[..|s| - 1], t, i, j)
    ensures CutTo(s, t, i, j)
  {
    assert s[..|s| - 1][i..j] == s[i..j];
    forall k | 0 <= k < |s| - 1 && !(i <= k < j)
      ensures IsSpace(s[k])
    {
      assert s[..|s| - 1][k] == s[k];
    }
  }
}
