/**
 * The C string routines the shell's text handling is built on, over strings
 * without their terminating NUL: strspn, strcspn, strtok, trimming a suffix
 * drawn from a character set, and atoi.
 */
module CStrings {
  import opened Wrappers

  /** Every character of `s` belongs to `d`. */
  predicate AllIn(s: string, d: set<char>) {
    forall k :: 0 <= k < |s| ==> s[k] in d
  }

  /** A token as strtok returns it: non-empty, and no character of it is a delimiter. */
  predicate IsWord(t: string, d: set<char>) {
    t != [] && forall k :: 0 <= k < |t| ==> t[k] !in d
  }

  /** strspn: the length of the longest prefix of `s` made of characters in `d`. */
  function SpanIn(s: string, d: set<char>): (n: nat)
    ensures n <= |s|
    ensures AllIn(s[..n], d)
    ensures n < |s| ==> s[n] !in d
    decreases |s|
  {
    if s == [] || s[0] !in d then 0
    else
      var m := SpanIn(s[1..], d);
      assert s[..1 + m] == [s[0]] + s[1..][..m];
      1 + m
  }

  /** strcspn: the length of the longest prefix of `s` that avoids `d`. */
  function SpanNotIn(s: string, d: set<char>): (n: nat)
    ensures n <= |s|
    ensures forall k :: 0 <= k < n ==> s[k] !in d
    ensures n < |s| ==> s[n] in d
    decreases |s|
  {
    if s == [] || s[0] in d then 0
    else 1 + SpanNotIn(s[1..], d)
  }

  /**
   * One strtok step: skip the leading delimiters, then take the maximal run of
   * non-delimiters. Returns None when only delimiters remain, and otherwise the
   * token together with the text after it.
   */
  function StrTok(s: string, d: set<char>): (r: (Option<string>, string))
    ensures r.0.None? ==> AllIn(s, d) && r.1 == []
    ensures r.0.Some? ==> IsWord(r.0.value, d) && |r.1| < |s| && !AllIn(s, d)
  {
    var b := SpanIn(s, d);
    if b == |s| then
      assert s[..b] == s;
      (None, [])
    else
      var e := b + SpanNotIn(s[b..], d);
      (Some(s[b..e]), s[e..])
  }

  /**
   * Where strtok's token lies: after a run of delimiters, and followed by the
   * end of the string or a delimiter.
   */
  lemma StrTokSplits(s: string, d: set<char>)
    ensures var r := StrTok(s, d);
      r.0.Some? ==>
        var t := r.0.value;
        var gap := |s| - |t| - |r.1|;
        && 0 <= gap
        && s == s[..gap] + t + r.1
        && AllIn(s[..gap], d)
        && (r.1 == [] || r.1[0] in d)
  {
    var b := SpanIn(s, d);
    if b < |s| {
      var e := b + SpanNotIn(s[b..], d);
      assert s == s[..b] + s[b..e] + s[e..];
    }
  }

  /** strtok applied until it returns NULL: the delimiter-separated words of `s`, in order. */
  function Tokens(s: string, d: set<char>): (r: seq<string>)
    ensures r == [] <==> AllIn(s, d)
    decreases |s|
  {
    match StrTok(s, d)
    case (None, _) => []
    case (Some(t), rest) => [t] + Tokens(rest, d)
  }

  /** Words joined with one separator character between each two. */
  function Join(ws: seq<string>, sep: char): string
  {
    if |ws| == 0 then []
    else if |ws| == 1 then ws[0]
    else ws[0] + [sep] + Join(ws[1..], sep)
  }

  lemma {:induction false} SpanNotInWord(w: string, rest: string, d: set<char>)
    requires IsWord(w, d)
    requires rest == [] || rest[0] in d
    ensures SpanNotIn(w + rest, d) == |w|
    decreases |w|
  {
    if |w| > 1 {
      assert (w + rest)[1..] == w[1..] + rest;
      SpanNotInWord(w[1..], rest, d);
    } else {
      assert (w + rest)[1..] == rest;
    }
  }

  /** A leading delimiter does not change the tokens. */
  lemma TokensSkipDelimiter(c: char, s: string, d: set<char>)
    requires c in d
    ensures Tokens([c] + s, d) == Tokens(s, d)
  {
    var cs := [c] + s;
    assert cs[1..] == s;
    var b := SpanIn(s, d);
    assert SpanIn(cs, d) == 1 + b;
    assert cs[1 + b..] == s[b..];
    if b < |s| {
      var e := b + SpanNotIn(s[b..], d);
      assert cs[1 + b..1 + e] == s[b..e];
      assert cs[1 + e..] == s[e..];
    }
    assert StrTok(cs, d) == StrTok(s, d);
  }

  /** A word followed by nothing or by a delimiter is the first token. */
  lemma TokensWordFirst(w: string, rest: string, d: set<char>)
    requires IsWord(w, d)
    requires rest == [] || rest[0] in d
    ensures Tokens(w + rest, d) == [w] + Tokens(rest, d)
  {
    var s := w + rest;
    SpanNotInWord(w, rest, d);
    assert SpanIn(s, d) == 0 by { assert s[0] == w[0]; }
    assert s[0..] == s;
    assert s[0..|w|] == w;
    assert s[|w|..] == rest;
  }

  lemma JoinCons(ws: seq<string>, sep: char)
    requires |ws| >= 2
    ensures Join(ws, sep) == ws[0] + ([sep] + Join(ws[1..], sep))
  {
  }

  /** A word, a delimiter, then more text: the word, then the tokens of the text. */
  lemma TokensJoinStep(w: string, sep: char, j: string, d: set<char>)
    requires sep in d && IsWord(w, d)
    ensures Tokens(w + ([sep] + j), d) == [w] + Tokens(j, d)
  {
    TokensWordFirst(w, [sep] + j, d);
    TokensSkipDelimiter(sep, j, d);
  }

  /** Tokenizing words joined by a delimiter gives the words back. */
  lemma {:induction false} TokensOfJoin(ws: seq<string>, sep: char, d: set<char>)
    requires sep in d
    requires forall i :: 0 <= i < |ws| ==> IsWord(ws[i], d)
    ensures Tokens(Join(ws, sep), d) == ws
    decreases |ws|
  {
    if |ws| == 0 {
      assert AllIn([], d);
    } else if |ws| == 1 {
      TokensWordFirst(ws[0], [], d);
      assert ws[0] + [] == ws[0];
      assert AllIn([], d);
    } else {
      JoinCons(ws, sep);
      TokensJoinStep(ws[0], sep, Join(ws[1..], sep), d);
      TokensOfJoin(ws[1..], sep, d);
      assert ws == [ws[0]] + ws[1..];
    }
  }

  /** Removes the longest suffix of `s` made of characters in `d` (a backwards pointer walk writing NULs). */
  function TrimRight(s: string, d: set<char>): (r: string)
    ensures r <= s
    ensures r == [] || r[|r| - 1] !in d
    ensures AllIn(s[|r|..], d)
    decreases |s|
  {
    if s != [] && s[|s| - 1] in d then
      var r := TrimRight(s[..|s| - 1], d);
      assert s[|r|..] == s[..|s| - 1][|r|..] + [s[|s| - 1]];
      r
    else s
  }

  /** Characters of `d` appended to a string disappear again under TrimRight. */
  lemma {:induction false} TrimRightAppend(p: string, w: string, d: set<char>)
    requires AllIn(w, d)
    ensures TrimRight(p + w, d) == TrimRight(p, d)
    decreases |w|
  {
    if w != [] {
      var w' := w[..|w| - 1];
      assert (p + w)[..|p + w| - 1] == p + w';
      TrimRightAppend(p, w', d);
    } else {
      assert p + w == p;
    }
  }

  /** The characters C's isspace accepts in the default locale: " \t\n\v\f\r". */
  const CSpace: set<char> := {' ', '\t', '\n', 11 as char, 12 as char, '\r'}

  const DecimalDigits: set<char> := {'0', '1', '2', '3', '4', '5', '6', '7', '8', '9'}

  function DigitValue(c: char): nat
    requires c in DecimalDigits
  {
    c as int - '0' as int
  }

  /** The number a string of decimal digits denotes. */
  function DigitsValue(s: string): nat
    requires AllIn(s, DecimalDigits)
    decreases |s|
  {
    if s == [] then 0
    else DigitsValue(s[..|s| - 1]) * 10 + DigitValue(s[|s| - 1])
  }

  /** The value of the leading run of decimal digits of `s` (0 if there is none). */
  function LeadingValue(s: string): nat
  {
    DigitsValue(s[..SpanIn(s, DecimalDigits)])
  }

  /**
   * atoi: skips leading white space, reads an optional sign, then the leading
   * decimal digits; anything after them is ignored, and no digits read as 0.
   */
  function Atoi(s: string): (r: int)
    ensures AllIn(s, DecimalDigits) ==> r == DigitsValue(s)
  {
    DigitsSpan(s);
    var t := s[SpanIn(s, CSpace)..];
    if t != [] && t[0] == '-' then 0 - LeadingValue(t[1..]) as int
    else if t != [] && t[0] == '+' then LeadingValue(t[1..])
    else LeadingValue(t)
  }

  /** The decimal representation of `n`, as printf's %d writes it. */
  function Decimal(n: nat): (r: string)
    ensures r != [] && AllIn(r, DecimalDigits)
    decreases n
  {
    var c := ['0' + (n % 10) as char];
    if n < 10 then c else Decimal(n / 10) + c
  }

  lemma {:induction false} DecimalValue(n: nat)
    ensures DigitsValue(Decimal(n)) == n
    decreases n
  {
    if n >= 10 {
      DecimalValue(n / 10);
      var s := Decimal(n);
      assert s[..|s| - 1] == Decimal(n / 10);
    }
  }

  /** strspn over a string made only of accepted characters spans all of it. */
  lemma SpanInAll(s: string, d: set<char>)
    requires AllIn(s, d)
    ensures SpanIn(s, d) == |s|
  {
  }

  /** strspn stops at once at a first character outside the set. */
  lemma SpanInStops(s: string, d: set<char>)
    requires s != [] && s[0] !in d
    ensures SpanIn(s, d) == 0
  {
  }

  /** A string of digits has no leading white space, and its leading run of digits is all of it. */
  lemma DigitsSpan(s: string)
    ensures AllIn(s, DecimalDigits) ==>
      SpanIn(s, CSpace) == 0 && s[SpanIn(s, CSpace)..] == s && SpanIn(s, DecimalDigits) == |s| && s[..|s|] == s
  {
    if AllIn(s, DecimalDigits) {
      if s != [] {
        assert s[0] in DecimalDigits;
        SpanInStops(s, CSpace);
      }
      SpanInAll(s, DecimalDigits);
    }
  }

  /** atoi reads back what %d writes. */
  lemma AtoiDecimal(n: nat)
    ensures Atoi(Decimal(n)) == n
  {
    DecimalValue(n);
  }
}
