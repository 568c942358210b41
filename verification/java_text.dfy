/**
 * The few java.lang.String and java.util.regex facts the command router relies on:
 * String.trim, String.startsWith, String.equalsIgnoreCase and the regex class `\s`.
 */
module JavaText {

  /** The characters of `\s` in a java.util.regex pattern compiled without UNICODE_CHARACTER_CLASS. */
  predicate IsRegexSpace(c: char)
  {
    c == ' ' || c == '\t' || c == '\n' || c == '\U{000B}' || c == '\U{000C}' || c == '\r'
  }

  /** String.trim removes every character whose code is at most U+0020. */
  predicate IsTrimmable(c: char)
  {
    c <= ' '
  }

  /** The leading part of String.trim: drop trimmable characters at the front. */
  function TrimStart(s: string): (r: string)
    ensures |r| <= |s| && r == s[|s| - |r|..]
    ensures r == [] || !IsTrimmable(r[0])
    ensures forall k :: 0 <= k < |s| - |r| ==> IsTrimmable(s[k])
  {
    if s != [] && IsTrimmable(s[0]) then TrimStart(s[1..]) else s
  }

  /** The trailing part of String.trim: drop trimmable characters at the back. */
  function TrimEnd(s: string): (r: string)
    ensures |r| <= |s| && r == s[..|r|]
    ensures r == [] || !IsTrimmable(r[|r| - 1])
    ensures forall k :: |r| <= k < |s| ==> IsTrimmable(s[k])
  {
    if s != [] && IsTrimmable(s[|s| - 1]) then TrimEnd(s[..|s| - 1]) else s
  }

  /** Number of characters String.trim cuts from the front of `s`. */
  function TrimOffset(s: string): (i: nat)
    ensures i <= |s|
  {
    |s| - |TrimStart(s)|
  }

  /**
   * String.trim: the result is the piece of `s` that starts at TrimOffset(s),
   * everything cut off on either side is trimmable, and the result neither
   * starts nor ends with a trimmable character.
   */
  function Trim(s: string): (r: string)
    ensures TrimOffset(s) + |r| <= |s| && r == s[TrimOffset(s)..TrimOffset(s) + |r|]
    ensures forall k :: 0 <= k < TrimOffset(s) ==> IsTrimmable(s[k])
    ensures forall k :: TrimOffset(s) + |r| <= k < |s| ==> IsTrimmable(s[k])
    ensures r == [] || (!IsTrimmable(r[0]) && !IsTrimmable(r[|r| - 1]))
  {
    var front := TrimStart(s);
    var r := TrimEnd(front);
    var i := |s| - |front|;
    assert r == s[i..i + |r|];
    assert forall k :: i + |r| <= k < |s| ==> s[k] == front[k - i];
    r
  }

  /** A string that neither starts nor ends with a trimmable character is its own trim. */
  lemma TrimKeepsUntrimmable(s: string)
    requires s == [] || (!IsTrimmable(s[0]) && !IsTrimmable(s[|s| - 1]))
    ensures Trim(s) == s
  {
    assert TrimStart(s) == s;
    assert TrimEnd(s) == s;
  }

  /** String.trim is idempotent. */
  lemma TrimIdempotent(s: string)
    ensures Trim(Trim(s)) == Trim(s)
  {
    TrimKeepsUntrimmable(Trim(s));
  }

  /** String.startsWith. */
  predicate StartsWith(s: string, prefix: string)
  {
    |prefix| <= |s| && s[..|prefix|] == prefix
  }

  function AsciiUpper(c: char): char
  {
    if 'a' <= c <= 'z' then (c as int - 32) as char else c
  }

  /** Character equality up to case, for the ASCII letters. */
  predicate CharEqualsIgnoreCase(a: char, b: char)
  {
    AsciiUpper(a) == AsciiUpper(b)
  }

  /** String.equalsIgnoreCase, with case folding restricted to ASCII letters. */
  predicate EqualsIgnoreCase(s: string, t: string)
  {
    |s| == |t| && forall k :: 0 <= k < |s| ==> CharEqualsIgnoreCase(s[k], t[k])
  }

  /** equalsIgnoreCase is an equivalence: a label may be compared either way round and chained. */
  lemma EqualsIgnoreCaseIsEquivalence(s: string, t: string, u: string)
    ensures EqualsIgnoreCase(s, s)
    ensures EqualsIgnoreCase(s, t) ==> EqualsIgnoreCase(t, s)
    ensures EqualsIgnoreCase(s, t) && EqualsIgnoreCase(t, u) ==> EqualsIgnoreCase(s, u)
  {
  }

  /** `HELP`, `help` and `Help` all equal `help` ignoring case; `helq` does not. */
  lemma EqualsIgnoreCaseExamples()
    ensures EqualsIgnoreCase("HELP", "help")
    ensures EqualsIgnoreCase("Help", "help")
    ensures EqualsIgnoreCase("help", "help")
    ensures !EqualsIgnoreCase("helq", "help")
    ensures !EqualsIgnoreCase("help", "hel")
  {
    assert AsciiUpper('q') != AsciiUpper('p');
    assert "helq"[3] == 'q' && "help"[3] == 'p';
  }
}
