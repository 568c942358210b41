/**
 * CommandManager.splitWithQuotes: repeated `Matcher.find` of the pattern
 *   [^\s"']+ | "([^"]*)" | '([^']*)'
 * over a line. At each position the scanner either matches a maximal run of
 * word characters, matches a quoted run up to the next copy of the same quote
 * (keeping only what lies between), or moves on by one character.
 */
module Tokenizer {
  import opened JavaText

  predicate IsQuote(c: char)
  {
    c == '"' || c == '\''
  }

  /** The class [^\s"'] of the first alternative. */
  predicate IsWordChar(c: char)
  {
    !IsRegexSpace(c) && !IsQuote(c)
  }

  /** End of the maximal run of word characters that starts at `from`. */
  function WordEnd(s: string, from: nat): (e: nat)
    requires from <= |s|
    ensures from <= e <= |s|
    ensures forall k :: from <= k < e ==> IsWordChar(s[k])
    ensures e == |s| || !IsWordChar(s[e])
    decreases |s| - from
  {
    if from < |s| && IsWordChar(s[from]) then WordEnd(s, from + 1) else from
  }

  /** Index of the first `c` at or after `from`, or |s| when there is none. */
  function IndexOf(s: string, c: char, from: nat): (k: nat)
    requires from <= |s|
    ensures from <= k <= |s|
    ensures forall j :: from <= j < k ==> s[j] != c
    ensures k == |s| || s[k] == c
    decreases |s| - from
  {
    if from == |s| || s[from] == c then from else IndexOf(s, c, from + 1)
  }

  /** One successful `find`: the span [start, end) of the line, and which alternative matched. */
  datatype Match = Match(start: nat, end: nat, quoted: bool)

  /** A span that lies inside `s` and is long enough for its alternative. */
  predicate InBounds(s: string, m: Match)
  {
    m.start < m.end <= |s| && (m.quoted ==> m.start + 2 <= m.end)
  }

  /** Every span of `ms` lies inside `s`, at or after `from`, and the spans go left to right without overlap. */
  predicate Ordered(s: string, ms: seq<Match>, from: nat)
  {
    && (forall i :: 0 <= i < |ms| ==> InBounds(s, ms[i]) && from <= ms[i].start)
    && (forall i, j :: 0 <= i < j < |ms| ==> ms[i].end <= ms[j].start)
  }

  /** The matches `Matcher.find` reports, in order, when scanning `s` from position `from`. */
  function Scan(s: string, from: nat): (ms: seq<Match>)
    requires from <= |s|
    ensures forall i :: 0 <= i < |ms| ==> InBounds(s, ms[i]) && from <= ms[i].start
    decreases |s| - from
  {
    if from == |s| then []
    else if IsWordChar(s[from]) then
      var e := WordEnd(s, from);
      [Match(from, e, false)] + Scan(s, e)
    else if IsQuote(s[from]) && IndexOf(s, s[from], from + 1) < |s| then
      var close := IndexOf(s, s[from], from + 1);
      [Match(from, close + 1, true)] + Scan(s, close + 1)
    else
      Scan(s, from + 1)
  }

  /** Matches are reported left to right and never overlap. */
  lemma {:induction false} ScanOrdered(s: string, from: nat)
    requires from <= |s|
    ensures Ordered(s, Scan(s, from), from)
    decreases |s| - from
  {
    if from < |s| {
      var ms := Scan(s, from);
      if IsWordChar(s[from]) || (IsQuote(s[from]) && IndexOf(s, s[from], from + 1) < |s|) {
        ScanOrdered(s, ms[0].end);
        assert ms[1..] == Scan(s, ms[0].end);
      } else {
        ScanOrdered(s, from + 1);
      }
    }
  }

  /** The token a match contributes: group(1) or group(2) for a quoted match, group() otherwise. */
  function MatchText(s: string, m: Match): string
    requires InBounds(s, m)
  {
    if m.quoted then s[m.start + 1..m.end - 1] else s[m.start..m.end]
  }

  function Texts(s: string, ms: seq<Match>): (ts: seq<string>)
    requires forall i :: 0 <= i < |ms| ==> InBounds(s, ms[i])
    ensures |ts| == |ms|
  {
    if ms == [] then [] else [MatchText(s, ms[0])] + Texts(s, ms[1..])
  }

  lemma {:induction false} TextsAt(s: string, ms: seq<Match>, i: nat)
    requires forall i :: 0 <= i < |ms| ==> InBounds(s, ms[i])
    requires i < |ms|
    ensures Texts(s, ms)[i] == MatchText(s, ms[i])
  {
    if i > 0 {
      TextsAt(s, ms[1..], i - 1);
    }
  }

  /** The tokens splitWithQuotes returns for `line`. */
  function Tokenize(line: string): seq<string>
  {
    Texts(line, Scan(line, 0))
  }

  /** A word character at `from` contributes the whole run of word characters as one token. */
  lemma WordStep(s: string, from: nat)
    requires from < |s| && IsWordChar(s[from])
    ensures Texts(s, Scan(s, from)) == [s[from..WordEnd(s, from)]] + Texts(s, Scan(s, WordEnd(s, from)))
  {
    var ms := Scan(s, from);
    assert ms[1..] == Scan(s, WordEnd(s, from));
  }

  /** A quote with a later partner contributes the text between the two quotes. */
  lemma QuoteStep(s: string, from: nat)
    requires from < |s| && IsQuote(s[from]) && IndexOf(s, s[from], from + 1) < |s|
    ensures var close := IndexOf(s, s[from], from + 1);
      Texts(s, Scan(s, from)) == [s[from + 1..close]] + Texts(s, Scan(s, close + 1))
  {
    var ms := Scan(s, from);
    assert ms[1..] == Scan(s, IndexOf(s, s[from], from + 1) + 1);
  }

  /** Any other character is stepped over without a token. */
  lemma SkipStep(s: string, from: nat)
    requires from < |s| && !IsWordChar(s[from])
    requires !IsQuote(s[from]) || IndexOf(s, s[from], from + 1) == |s|
    ensures Scan(s, from) == Scan(s, from + 1)
  {
  }

  /** The first alternative: extend a run of word characters as far as it goes. */
  method MatchWord(line: string, p: nat) returns (e: nat)
    requires p < |line| && IsWordChar(line[p])
    ensures e == WordEnd(line, p) && p < e
  {
    e := p + 1;
    while e < |line| && IsWordChar(line[e])
      invariant p < e <= |line|
      invariant forall k :: p <= k < e ==> IsWordChar(line[k])
    {
      e := e + 1;
    }
  }

  /** The quoted alternatives: look for the closing copy of the quote at `p`. */
  method FindClosing(line: string, p: nat) returns (close: nat)
    requires p < |line|
    ensures close == IndexOf(line, line[p], p + 1)
  {
    close := p + 1;
    while close < |line| && line[close] != line[p]
      invariant p < close <= |line|
      invariant forall k :: p < k < close ==> line[k] != line[p]
    {
      close := close + 1;
    }
  }

  /** The loop of splitWithQuotes: each `find` appends one token to the list. */
  method SplitWithQuotes(line: string) returns (tokens: seq<string>)
    ensures tokens == Tokenize(line)
  {
    tokens := [];
    var p := 0;
    while p < |line|
      invariant p <= |line|
      invariant tokens + Texts(line, Scan(line, p)) == Tokenize(line)
      decreases |line| - p
    {
      if IsWordChar(line[p]) {
        var e := MatchWord(line, p);
        WordStep(line, p);
        ghost var rest := Texts(line, Scan(line, e));
        assert (tokens + [line[p..e]]) + rest == tokens + ([line[p..e]] + rest);
        tokens := tokens + [line[p..e]];
        p := e;
      } else if IsQuote(line[p]) {
        var close := FindClosing(line, p);
        if close < |line| {
          QuoteStep(line, p);
          ghost var rest := Texts(line, Scan(line, close + 1));
          assert (tokens + [line[p + 1..close]]) + rest == tokens + ([line[p + 1..close]] + rest);
          tokens := tokens + [line[p + 1..close]];
          p := close + 1;
        } else {
          SkipStep(line, p);
          p := p + 1;
        }
      } else {
        SkipStep(line, p);
        p := p + 1;
      }
    }
  }

  /**
   * What a match covers: an unquoted match is a maximal run of word characters;
   * a quoted match starts and ends with the same quote and holds no other copy of it.
   */
  predicate MatchShape(s: string, m: Match)
    requires InBounds(s, m)
  {
    if m.quoted then
      && IsQuote(s[m.start])
      && s[m.end - 1] == s[m.start]
      && (forall k :: m.start < k < m.end - 1 ==> s[k] != s[m.start])
    else
      && (forall k :: m.start <= k < m.end ==> IsWordChar(s[k]))
      && (m.start == 0 || !IsWordChar(s[m.start - 1]))
      && (m.end == |s| || !IsWordChar(s[m.end]))
  }

  /** `from` does not split a run of word characters in two. */
  predicate NotInsideWord(s: string, from: nat)
    requires from <= |s|
  {
    from == 0 || from == |s| || !IsWordChar(s[from - 1]) || !IsWordChar(s[from])
  }

  lemma {:induction false} ScanShapes(s: string, from: nat)
    requires from <= |s| && NotInsideWord(s, from)
    ensures forall i :: 0 <= i < |Scan(s, from)| ==> MatchShape(s, Scan(s, from)[i])
    decreases |s| - from
  {
    if from == |s| {
    } else if IsWordChar(s[from]) {
      ScanShapes(s, WordEnd(s, from));
    } else if IsQuote(s[from]) && IndexOf(s, s[from], from + 1) < |s| {
      ScanShapes(s, IndexOf(s, s[from], from + 1) + 1);
    } else {
      ScanShapes(s, from + 1);
    }
  }

  /** What the shape of a match says about the text it yields. */
  lemma TextOfShape(s: string, m: Match)
    requires InBounds(s, m) && MatchShape(s, m)
    ensures var t := MatchText(s, m);
      if m.quoted then
        && t == s[m.start + 1..m.end - 1]
        && IsQuote(s[m.start]) && s[m.end - 1] == s[m.start]
        && s[m.start] !in t
      else
        && t == s[m.start..m.end]
        && t != []
        && forall k :: 0 <= k < |t| ==> IsWordChar(t[k])
  {
    var t := MatchText(s, m);
    if m.quoted {
      forall k | 0 <= k < |t|
        ensures t[k] != s[m.start]
      {
        assert t[k] == s[m.start + 1 + k];
      }
    } else {
      forall k | 0 <= k < |t|
        ensures IsWordChar(t[k])
      {
        assert t[k] == s[m.start + k];
      }
    }
  }

  /**
   * The tokens of a line, one by one: an unquoted token is a non-empty run with
   * no whitespace and no quote; a quoted token is exactly the text between a
   * pair of equal quotes and holds no copy of that quote (it may be empty).
   */
  lemma TokenShapes(line: string, i: nat)
    requires i < |Tokenize(line)|
    ensures var m := Scan(line, 0)[i];
      var t := Tokenize(line)[i];
      if m.quoted then
        && t == line[m.start + 1..m.end - 1]
        && IsQuote(line[m.start]) && line[m.end - 1] == line[m.start]
        && line[m.start] !in t
      else
        && t == line[m.start..m.end]
        && t != []
        && forall k :: 0 <= k < |t| ==> IsWordChar(t[k])
  {
    var ms := Scan(line, 0);
    ScanShapes(line, 0);
    TextsAt(line, ms, i);
    assert MatchShape(line, ms[i]);
    TextOfShape(line, ms[i]);
  }

  /** Position `k` lies inside one of the matches. */
  predicate Covered(ms: seq<Match>, k: nat)
  {
    exists i :: 0 <= i < |ms| && ms[i].start <= k < ms[i].end
  }

  /** A character the scanner steps over: whitespace, or a quote with no later copy of itself. */
  predicate Skippable(s: string, k: nat)
    requires k < |s|
  {
    IsRegexSpace(s[k]) || (IsQuote(s[k]) && IndexOf(s, s[k], k + 1) == |s|)
  }

  /** Nothing but whitespace and unpartnered quotes is ever dropped from a line. */
  lemma {:induction false} ScanDropsOnlySkippable(s: string, from: nat)
    requires from <= |s|
    ensures forall k :: from <= k < |s| && !Covered(Scan(s, from), k) ==> Skippable(s, k)
    decreases |s| - from
  {
    var ms := Scan(s, from);
    if from == |s| {
    } else if IsWordChar(s[from]) || (IsQuote(s[from]) && IndexOf(s, s[from], from + 1) < |s|) {
      var e := ms[0].end;
      assert ms[1..] == Scan(s, e);
      ScanDropsOnlySkippable(s, e);
      forall k | from <= k < e
        ensures Covered(ms, k)
      {
        assert ms[0].start <= k < ms[0].end;
      }
      forall k | e <= k < |s| && Covered(Scan(s, e), k)
        ensures Covered(ms, k)
      {
        var i :| 0 <= i < |Scan(s, e)| && Scan(s, e)[i].start <= k < Scan(s, e)[i].end;
        assert ms[i + 1] == Scan(s, e)[i];
      }
    } else {
      ScanDropsOnlySkippable(s, from + 1);
    }
  }

  /** A line of whitespace only (the empty line included) has no tokens. */
  lemma {:induction false} BlankHasNoTokens(s: string, from: nat)
    requires from <= |s|
    requires forall k :: from <= k < |s| ==> IsRegexSpace(s[k])
    ensures Scan(s, from) == []
    decreases |s| - from
  {
    if from < |s| {
      BlankHasNoTokens(s, from + 1);
    }
  }

  /** The runs and the closing quote in the example of the documentation comment. */
  lemma DocumentedExampleRuns(s: string)
    requires s == "I am a \"discord bot\""
    ensures WordEnd(s, 0) == 1 && WordEnd(s, 2) == 4 && WordEnd(s, 5) == 6
    ensures IndexOf(s, '"', 8) == 19
  {
    assert WordEnd(s, 3) == 4;
    assert s[8..19] == "discord bot" && s[19] == '"';
    assert forall j :: 8 <= j < 19 ==> s[j] == s[8..19][j - 8];
  }

  /** The matches of the example in the documentation comment of splitWithQuotes. */
  lemma DocumentedExampleMatches(s: string)
    requires s == "I am a \"discord bot\""
    ensures Scan(s, 0) == [Match(0, 1, false), Match(2, 4, false), Match(5, 6, false), Match(7, 20, true)]
  {
    DocumentedExampleRuns(s);
    assert Scan(s, 7) == [Match(7, 20, true)];
    assert Scan(s, 6) == [Match(7, 20, true)];
    assert Scan(s, 4) == [Match(5, 6, false), Match(7, 20, true)];
    assert Scan(s, 1) == [Match(2, 4, false), Match(5, 6, false), Match(7, 20, true)];
  }

  /** The example in the documentation comment of splitWithQuotes. */
  lemma DocumentedExample()
    ensures Tokenize("I am a \"discord bot\"") == ["I", "am", "a", "discord bot"]
  {
    var s := "I am a \"discord bot\"";
    assert s[0..1] == "I" && s[2..4] == "am" && s[5..6] == "a" && s[8..19] == "discord bot";
    DocumentedExampleMatches(s);
    var ts := Tokenize(s);
    assert ts == [s[0..1], s[2..4], s[5..6], s[8..19]];
  }

  /** A quote with no partner is stepped over, not kept: `say "hi` gives `say` and `hi`. */
  lemma UnterminatedQuoteDropped()
    ensures Tokenize("say \"hi") == ["say", "hi"]
  {
    var s := "say \"hi";
    assert WordEnd(s, 0) == 3;
    assert IndexOf(s, '"', 5) == 7;
    assert WordEnd(s, 5) == 7;
    assert Scan(s, 4) == [Match(5, 7, false)];
    assert Scan(s, 0) == [Match(0, 3, false), Match(5, 7, false)];
    assert Tokenize(s) == [s[0..3], s[5..7]];
    assert s[0..3] == "say" && s[5..7] == "hi";
  }

  /** A pair of quotes with nothing between them is one empty token. */
  lemma EmptyQuotedToken()
    ensures Tokenize("\"\"") == [""]
  {
    var s := "\"\"";
    assert IndexOf(s, '"', 1) == 1;
    assert Scan(s, 0) == [Match(0, 2, true)];
  }
}
