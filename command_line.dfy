/**
 * The command-line front end of ca$h: trimming a trailing `&`, the job title,
 * parse_command's tokenizer with its `<` / `>` targets, the routing of a line
 * to a single command or a two-stage pipeline, and the `%<id>` argument of
 * fg and bg.
 */
module CommandLine {
  import opened Wrappers
  import opened CStrings

  /** MAX_INPUT: the size of the line buffers; a line is copied with at most MAX_INPUT - 1 characters. */
  const MaxInput: nat := 1024
  /** MAX_ARGS: the size of an argument vector, NULL terminator included. */
  const MaxArgs: nat := 100

  const Bell: char := 7 as char
  /** " \t\n\r\a": the delimiters parse_command splits on. */
  const ArgDelims: set<char> := {' ', '\t', '\n', '\r', Bell}
  /** " \t\n\r": blank for a line or a pipe side, and trimmed off the end of a line. */
  const LineSpace: set<char> := {' ', '\t', '\n', '\r'}
  /** " \t": trimmed before a trailing `&`. */
  const AmpSpace: set<char> := {' ', '\t'}
  /** " \t\n\r&": trimmed off the end of a job title. */
  const TitleTrim: set<char> := {' ', '\t', '\n', '\r', '&'}
  /** " \t\n\r\a|": the delimiters of the first word when testing for a built-in. */
  const FirstWordDelims: set<char> := {' ', '\t', '\n', '\r', Bell, '|'}
  /** "<>|&": a redirection target may not start with one of these. */
  const BadTargetStart: set<char> := {'<', '>', '|', '&'}
  const BuiltinNames: set<string> := {"jobs", "fg", "bg", "exit", "cd", "clear"}

  // ---------------------------------------------------------------------
  // Trailing whitespace and `&`
  // ---------------------------------------------------------------------

  /** The backwards walk of an `end` pointer over characters of `d`: the length left. */
  method TrimTrailing(s: string, d: set<char>) returns (n: nat)
    ensures n <= |s| && s[..n] == TrimRight(s, d)
  {
    n := |s|;
    assert s[..n] == s;
    while n > 0 && s[n - 1] in d
      invariant n <= |s|
      invariant TrimRight(s[..n], d) == TrimRight(s, d)
    {
      assert s[..n][..n - 1] == s[..n - 1];
      n := n - 1;
    }
  }

  /**
   * The line with trailing white space removed and, when it then ends in `&`,
   * that `&` and the spaces and tabs before it removed too; the flag says
   * whether an `&` was found.
   */
  function SplitBackground(input: string): (r: (string, bool))
    ensures r.0 <= input
    ensures r.1 ==> |r.0| < |input| && '&' in input[|r.0|..]
  {
    var t := TrimRight(input, LineSpace);
    if t != [] && t[|t| - 1] == '&' then (TrimRight(t[..|t| - 1], AmpSpace), true)
    else (t, false)
  }

  /** execute_pipeline's `&` detection, writing NULs backwards from the end of the line. */
  method StripBackground(input: string) returns (line: string, background: bool)
    ensures (line, background) == SplitBackground(input)
  {
    var n := TrimTrailing(input, LineSpace);
    line := input[..n];
    background := false;
    if n > 0 && line[n - 1] == '&' {
      background := true;
      var m := TrimTrailing(line[..n - 1], AmpSpace);
      line := line[..n - 1][..m];
    }
  }

  /**
   * A command followed by spaces or tabs, `&` and trailing white space runs in
   * the background with exactly the command left; without the `&` only the
   * trailing white space goes.
   */
  lemma SplitBackgroundOf(c: string, before: string, after: string)
    requires c != [] && c[|c| - 1] !in TitleTrim
    requires AllIn(before, AmpSpace) && AllIn(after, LineSpace)
    ensures SplitBackground(c + before + ['&'] + after) == (c, true)
    ensures SplitBackground(c + after) == (c, false)
  {
    var t := c + before + ['&'];
    TrimRightAppend(t, after, LineSpace);
    assert TrimRight(t, LineSpace) == t;
    assert t[..|t| - 1] == c + before;
    TrimRightAppend(c, before, AmpSpace);
    assert TrimRight(c, AmpSpace) == c;
    TrimRightAppend(c, after, LineSpace);
    assert TrimRight(c, LineSpace) == c;
  }

  /** A line made only of " \t\n\r" (strspn reaches the terminator). */
  predicate Blank(s: string) {
    AllIn(s, LineSpace)
  }

  /** strncpy into a MAX_INPUT buffer followed by a terminating NUL: at most MAX_INPUT - 1 characters survive. */
  function Truncate(line: string): (r: string)
    ensures |r| < MaxInput && r <= line
    ensures |line| < MaxInput ==> r == line
  {
    if |line| < MaxInput then line else line[..MaxInput - 1]
  }

  /**
   * main's job title: the line copied into the buffer, with every trailing
   * space, tab, newline, carriage return and `&` removed.
   */
  method JobTitle(line: string) returns (title: string)
    ensures title == TrimRight(Truncate(line), TitleTrim)
    ensures title <= line && |title| < MaxInput
    ensures title == [] || title[|title| - 1] !in TitleTrim
  {
    var buffer := Truncate(line);
    var n := TrimTrailing(buffer, TitleTrim);
    title := buffer[..n];
  }

  // ---------------------------------------------------------------------
  // parse_command
  // ---------------------------------------------------------------------

  /** An argument vector (without its NULL) and the redirection targets. */
  datatype Command = Command(args: seq<string>, input: Option<string>, output: Option<string>)

  datatype ParseError =
    | BlankCommand            // nothing but delimiters
    | BadInputTarget          // `<` without a target, or one starting with one of "<>|&"
    | BadOutputTarget         // the same for `>`
    | RedirectWithoutCommand  // redirections but no command word
    | NoCommandWord           // the final `args[0] != NULL` test failing

  /** A redirection target strchr("<>|&", target[0]) refuses; the string's terminator is found too, so an empty one is refused as well. */
  predicate BadTarget(t: string) {
    t == [] || t[0] in BadTargetStart
  }

  /**
   * parse_command's loop over the tokens: stops once MAX_ARGS - 1 words are
   * collected; `<` and `>` consume the next token as their target, the last
   * one winning.
   */
  function Scan(toks: seq<string>, acc: Command): (r: Result<Command, ParseError>)
    ensures r.Ok? ==> |r.value.args| <= if |acc.args| < MaxArgs - 1 then MaxArgs - 1 else |acc.args|
    ensures r.Ok? ==> acc.args <= r.value.args
    decreases |toks|
  {
    if toks == [] || |acc.args| >= MaxArgs - 1 then Ok(acc)
    else if toks[0] == "<" then
      if |toks| == 1 || BadTarget(toks[1]) then Err(BadInputTarget)
      else Scan(toks[2..], acc.(input := Some(toks[1])))
    else if toks[0] == ">" then
      if |toks| == 1 || BadTarget(toks[1]) then Err(BadOutputTarget)
      else Scan(toks[2..], acc.(output := Some(toks[1])))
    else Scan(toks[1..], acc.(args := acc.args + [toks[0]]))
  }

  /** parse_command as a function of its input string. */
  function Parse(s: string): (r: Result<Command, ParseError>)
    ensures AllIn(s, ArgDelims) ==> r == Err(BlankCommand)
    ensures r.Ok? ==> 1 <= |r.value.args| <= MaxArgs - 1
  {
    if AllIn(s, ArgDelims) then Err(BlankCommand)
    else
      match Scan(Tokens(s, ArgDelims), Command([], None, None))
      case Err(e) => Err(e)
      case Ok(c) =>
        if c.args == [] && (c.input.Some? || c.output.Some?) then Err(RedirectWithoutCommand)
        else if c.args == [] then Err(NoCommandWord)
        else Ok(c)
  }

  /** The tokens still to be scanned: the one strtok last returned, then the rest of the string. */
  function Pending(tok: Option<string>, rest: string): seq<string>
  {
    (if tok.Some? then [tok.value] else []) + Tokens(rest, ArgDelims)
  }

  /** Scanning a plain word appends it and continues with the tokens after it. */
  lemma ScanWordStep(t: string, rest: string, acc: Command)
    requires IsWord(t, ArgDelims) && t != "<" && t != ">"
    requires |acc.args| < MaxArgs - 1
    ensures Scan(Pending(Some(t), rest), acc) == Scan(Tokens(rest, ArgDelims), acc.(args := acc.args + [t]))
  {
    var toks := Pending(Some(t), rest);
    assert toks[0] == t;
    assert toks[1..] == Tokens(rest, ArgDelims);
  }

  /**
   * Scanning `<` or `>` consumes the next token as the target: no token or a
   * bad one fails, and a good one is recorded before the scan continues after it.
   */
  lemma ScanRedirectStep(t: string, pend: seq<string>, acc: Command)
    requires t == "<" || t == ">"
    requires |acc.args| < MaxArgs - 1
    ensures pend == [] || BadTarget(pend[0]) ==>
      Scan([t] + pend, acc) == if t == "<" then Err(BadInputTarget) else Err(BadOutputTarget)
    ensures pend != [] && !BadTarget(pend[0]) ==>
      Scan([t] + pend, acc) ==
        Scan(pend[1..], if t == "<" then acc.(input := Some(pend[0])) else acc.(output := Some(pend[0])))
  {
    var toks := [t] + pend;
    assert toks[0] == t;
    if pend != [] {
      assert toks[1] == pend[0];
      assert toks[2..] == pend[1..];
    }
  }

  /** One strtok(NULL, " \t\r\n\a") call: the next token, and the text strtok continues from. */
  method NextToken(rest: string) returns (tok: Option<string>, after: string)
    ensures Pending(tok, after) == Tokens(rest, ArgDelims)
    ensures tok.Some? ==> IsWord(tok.value, ArgDelims) && |after| < |rest|
    ensures tok.None? ==> after == []
  {
    var step := StrTok(rest, ArgDelims);
    tok, after := step.0, step.1;
  }

  /** parse_command's strtok loop filling `args`, `inputFile` and `outputFile`. */
  method ScanLine(s: string) returns (r: Result<Command, ParseError>)
    ensures r == Scan(Tokens(s, ArgDelims), Command([], None, None))
  {
    ghost var start := Scan(Tokens(s, ArgDelims), Command([], None, None));
    var acc := Command([], None, None);
    var tok, rest := NextToken(s);
    while tok.Some? && |acc.args| < MaxArgs - 1
      invariant tok.Some? ==> IsWord(tok.value, ArgDelims)
      invariant Scan(Pending(tok, rest), acc) == start
      invariant tok.None? ==> rest == []
      decreases |rest|, tok.Some?
    {
      var t := tok.value;
      if t == "<" || t == ">" {
        var target, after := NextToken(rest);
        ghost var pend := Pending(target, after);
        assert Pending(tok, rest) == [t] + pend;
        if target.None? {
          assert AllIn(after, ArgDelims);
          assert pend == [];
        } else {
          assert pend[0] == target.value && pend[1..] == Tokens(after, ArgDelims);
        }
        ScanRedirectStep(t, pend, acc);
        if target.None? || BadTarget(target.value) {
          return if t == "<" then Err(BadInputTarget) else Err(BadOutputTarget);
        }
        if t == "<" {
          acc := acc.(input := target);
        } else {
          acc := acc.(output := target);
        }
        rest := after;
      } else {
        ScanWordStep(t, rest, acc);
        acc := acc.(args := acc.args + [t]);
      }
      tok, rest := NextToken(rest);
    }
    return Ok(acc);
  }

  /** parse_command: refuse a blank command, scan it, then check that a command word was found. */
  method ParseCommand(s: string) returns (r: Result<Command, ParseError>)
    ensures r == Parse(s)
  {
    if SpanIn(s, ArgDelims) == |s| {
      assert s[..|s|] == s;
      return Err(BlankCommand);
    }
    r := ScanLine(s);
    if r.Err? {
      return;
    }
    var c := r.value;
    if c.args == [] && (c.input.Some? || c.output.Some?) {
      return Err(RedirectWithoutCommand);
    }
    if c.args == [] {
      return Err(NoCommandWord);
    }
  }

  /** The tokens that are not a redirection operator or its target, in order. */
  function Words(toks: seq<string>): seq<string>
    decreases |toks|
  {
    if toks == [] then []
    else if toks[0] == "<" || toks[0] == ">" then (if |toks| == 1 then [] else Words(toks[2..]))
    else [toks[0]] + Words(toks[1..])
  }

  /** The target of the last `op` in the tokens, or `dflt` if there is none. */
  function LastTarget(toks: seq<string>, op: string, dflt: Option<string>): Option<string>
    decreases |toks|
  {
    if |toks| < 2 then dflt
    else if toks[0] == op then LastTarget(toks[2..], op, Some(toks[1]))
    else if toks[0] == "<" || toks[0] == ">" then LastTarget(toks[2..], op, dflt)
    else LastTarget(toks[1..], op, dflt)
  }

  /** Every `<` and `>` is followed by a target that does not start with one of "<>|&". */
  predicate ValidRedirections(toks: seq<string>)
    decreases |toks|
  {
    if toks == [] then true
    else if toks[0] == "<" || toks[0] == ">" then
      |toks| >= 2 && !BadTarget(toks[1]) && ValidRedirections(toks[2..])
    else ValidRedirections(toks[1..])
  }

  /**
   * While fewer than MAX_ARGS - 1 words are seen, the scan accepts exactly the
   * token lists with valid redirections, and then collects all the words in
   * order and the last `<` and `>` targets.
   */
  lemma {:induction false} ScanUncapped(toks: seq<string>, acc: Command)
    requires |acc.args| + |Words(toks)| < MaxArgs - 1
    ensures ValidRedirections(toks) ==>
      Scan(toks, acc) == Ok(Command(acc.args + Words(toks),
                                    LastTarget(toks, "<", acc.input),
                                    LastTarget(toks, ">", acc.output)))
    ensures !ValidRedirections(toks) ==> Scan(toks, acc).Err?
    decreases |toks|
  {
    if toks == [] {
      assert acc.args + [] == acc.args;
    } else if toks[0] == "<" || toks[0] == ">" {
      if |toks| >= 2 {
        var acc' := if toks[0] == "<" then acc.(input := Some(toks[1])) else acc.(output := Some(toks[1]));
        ScanUncapped(toks[2..], acc');
      }
    } else {
      var acc' := acc.(args := acc.args + [toks[0]]);
      ScanUncapped(toks[1..], acc');
      assert acc'.args + Words(toks[1..]) == acc.args + Words(toks);
    }
  }

  /**
   * parse_command on a line with fewer than MAX_ARGS - 1 words: it fails for a
   * bad redirection and for redirections without a command word, and otherwise
   * returns the words in order with the last `<` and `>` targets.
   */
  lemma ParseUncapped(s: string)
    requires |Words(Tokens(s, ArgDelims))| < MaxArgs - 1
    ensures var toks := Tokens(s, ArgDelims);
      && (toks == [] ==> Parse(s) == Err(BlankCommand))
      && (toks != [] && !ValidRedirections(toks) ==>
            Parse(s) == Err(BadInputTarget) || Parse(s) == Err(BadOutputTarget))
      && (toks != [] && ValidRedirections(toks) && Words(toks) == [] ==>
            Parse(s) == Err(RedirectWithoutCommand))
      && (ValidRedirections(toks) && Words(toks) != [] ==>
            Parse(s) == Ok(Command(Words(toks), LastTarget(toks, "<", None), LastTarget(toks, ">", None))))
  {
    var toks := Tokens(s, ArgDelims);
    ScanUncapped(toks, Command([], None, None));
    assert [] + Words(toks) == Words(toks);
    if toks != [] && Words(toks) == [] && ValidRedirections(toks) {
      RedirectTarget(toks);
    }
    if toks != [] && !ValidRedirections(toks) {
      ScanErrors(toks, Command([], None, None));
    }
  }

  /** A valid list starting with a redirection sets that redirection's target. */
  lemma RedirectTarget(toks: seq<string>)
    requires ValidRedirections(toks)
    requires toks != [] && (toks[0] == "<" || toks[0] == ">")
    ensures LastTarget(toks, "<", None).Some? || LastTarget(toks, ">", None).Some?
  {
    if toks[0] == "<" {
      LastTargetKeepsSome(toks[2..], "<", toks[1]);
    } else {
      LastTargetKeepsSome(toks[2..], ">", toks[1]);
    }
  }

  lemma {:induction false} LastTargetKeepsSome(toks: seq<string>, op: string, t: string)
    ensures LastTarget(toks, op, Some(t)).Some?
    decreases |toks|
  {
    if |toks| >= 2 {
      if toks[0] == op {
        LastTargetKeepsSome(toks[2..], op, toks[1]);
      } else if toks[0] == "<" || toks[0] == ">" {
        LastTargetKeepsSome(toks[2..], op, t);
      } else {
        LastTargetKeepsSome(toks[1..], op, t);
      }
    }
  }

  /** The scan fails only with one of the two redirection errors. */
  lemma {:induction false} ScanErrors(toks: seq<string>, acc: Command)
    ensures Scan(toks, acc).Err? ==>
      Scan(toks, acc) == Err(BadInputTarget) || Scan(toks, acc) == Err(BadOutputTarget)
    decreases |toks|
  {
    if toks != [] && |acc.args| < MaxArgs - 1 {
      if toks[0] == "<" || toks[0] == ">" {
        if |toks| >= 2 {
          var acc' := if toks[0] == "<" then acc.(input := Some(toks[1])) else acc.(output := Some(toks[1]));
          ScanErrors(toks[2..], acc');
        }
      } else {
        ScanErrors(toks[1..], acc.(args := acc.args + [toks[0]]));
      }
    }
  }

  /**
   * parse_command succeeds with a command word whenever it does not report an
   * error: the final `args[0] != NULL` test never fails, and a successful
   * result holds between 1 and MAX_ARGS - 1 words.
   */
  lemma ParseShape(s: string)
    ensures Parse(s) != Err(NoCommandWord)
    ensures Parse(s).Ok? ==> 1 <= |Parse(s).value.args| <= MaxArgs - 1
  {
    var toks := Tokens(s, ArgDelims);
    if !AllIn(s, ArgDelims) {
      var empty := Command([], None, None);
      ScanNonEmptyProgress(toks, empty);
      var r := Scan(toks, empty);
      ScanErrors(toks, empty);
      if r.Ok? {
        var c := r.value;
        assert c.args != [] || c.input.Some? || c.output.Some?;
        assert Parse(s) == (if c.args == [] then Err(RedirectWithoutCommand) else Ok(c));
      }
    }
  }

  /** Scanning a non-empty token list from scratch collects a word or sets a target, or fails. */
  lemma {:induction false} ScanNonEmptyProgress(toks: seq<string>, acc: Command)
    requires toks != []
    requires |acc.args| < MaxArgs - 1
    ensures var r := Scan(toks, acc);
      r.Ok? ==> r.value.args != [] || r.value.input.Some? || r.value.output.Some?
    decreases |toks|
  {
    if toks[0] == "<" && |toks| >= 2 && !BadTarget(toks[1]) {
      KeepsTargets(toks[2..], acc.(input := Some(toks[1])));
    } else if toks[0] == ">" && |toks| >= 2 && !BadTarget(toks[1]) {
      KeepsTargets(toks[2..], acc.(output := Some(toks[1])));
    }
  }

  /** Once set, a target stays set through the rest of the scan. */
  lemma {:induction false} KeepsTargets(toks: seq<string>, acc: Command)
    ensures var r := Scan(toks, acc);
      r.Ok? ==> (acc.input.Some? ==> r.value.input.Some?) && (acc.output.Some? ==> r.value.output.Some?)
    decreases |toks|
  {
    if toks != [] && |acc.args| < MaxArgs - 1 {
      if toks[0] == "<" || toks[0] == ">" {
        if |toks| >= 2 && !BadTarget(toks[1]) {
          var acc' := if toks[0] == "<" then acc.(input := Some(toks[1])) else acc.(output := Some(toks[1]));
          KeepsTargets(toks[2..], acc');
        }
      } else {
        KeepsTargets(toks[1..], acc.(args := acc.args + [toks[0]]));
      }
    }
  }

  /**
   * Once MAX_ARGS - 1 plain words are collected the loop stops: whatever
   * follows, redirections and syntax errors included, is ignored.
   */
  lemma ParseCapsWords(s: string)
    requires var toks := Tokens(s, ArgDelims);
      |toks| >= MaxArgs - 1 && forall i :: 0 <= i < MaxArgs - 1 ==> toks[i] != "<" && toks[i] != ">"
    ensures Parse(s) == Ok(Command(Tokens(s, ArgDelims)[..MaxArgs - 1], None, None))
  {
    var toks := Tokens(s, ArgDelims);
    ScanPlainWords(toks, Command([], None, None), MaxArgs - 1);
    assert [] + toks[..MaxArgs - 1] == toks[..MaxArgs - 1];
  }

  /** Scanning plain words appends them one by one up to the cap. */
  lemma {:induction false} ScanPlainWords(toks: seq<string>, acc: Command, n: nat)
    requires |acc.args| + n == MaxArgs - 1 && n <= |toks|
    requires forall i :: 0 <= i < n ==> toks[i] != "<" && toks[i] != ">"
    ensures Scan(toks, acc) == Ok(acc.(args := acc.args + toks[..n]))
    decreases n
  {
    if n == 0 {
      assert acc.args + toks[..0] == acc.args;
    } else {
      ScanPlainWords(toks[1..], acc.(args := acc.args + [toks[0]]), n - 1);
      assert acc.args + [toks[0]] + toks[1..][..n - 1] == acc.args + toks[..n];
    }
  }

  function Min(a: int, b: int): int {
    if a <= b then a else b
  }

  /**
   * Whatever the tokens, a successful scan has appended the words among them
   * in order, as many as fit below MAX_ARGS - 1: the loop stops at the cap.
   */
  lemma {:induction false} ScanWordsPrefix(toks: seq<string>, acc: Command)
    requires |acc.args| <= MaxArgs - 1
    ensures Scan(toks, acc).Ok? ==>
      Scan(toks, acc).value.args == acc.args + Words(toks)[..Min(|Words(toks)|, MaxArgs - 1 - |acc.args|)]
    decreases |toks|
  {
    if toks == [] || |acc.args| == MaxArgs - 1 {
      assert acc.args + Words(toks)[..0] == acc.args;
    } else if toks[0] == "<" || toks[0] == ">" {
      if |toks| >= 2 && !BadTarget(toks[1]) {
        var acc' := if toks[0] == "<" then acc.(input := Some(toks[1])) else acc.(output := Some(toks[1]));
        ScanWordsPrefix(toks[2..], acc');
      }
    } else {
      var acc' := acc.(args := acc.args + [toks[0]]);
      ScanWordsPrefix(toks[1..], acc');
      var w := Words(toks[1..]);
      var m := Min(|w|, MaxArgs - 1 - |acc'.args|);
      assert Words(toks) == [toks[0]] + w;
      assert ([toks[0]] + w)[..1 + m] == [toks[0]] + w[..m];
      assert acc'.args + w[..m] == acc.args + ([toks[0]] + w[..m]);
    }
  }

  /**
   * parse_command on any line: a success holds the words of the line that are
   * not a redirection operator or its target, in order, cut at MAX_ARGS - 1.
   */
  lemma ParseWords(s: string)
    ensures var w := Words(Tokens(s, ArgDelims));
      Parse(s).Ok? ==> Parse(s).value.args == w[..Min(|w|, MaxArgs - 1)]
  {
    var toks := Tokens(s, ArgDelims);
    ScanWordsPrefix(toks, Command([], None, None));
    var w := Words(toks);
    assert [] + w[..Min(|w|, MaxArgs - 1)] == w[..Min(|w|, MaxArgs - 1)];
  }

  // ---------------------------------------------------------------------
  // execute_pipeline: routing a line
  // ---------------------------------------------------------------------

  /** strchr: the first index of `c` in `s`, or -1. */
  function IndexOf(s: string, c: char): (r: int)
    ensures -1 <= r < |s|
    ensures r == -1 <==> c !in s
    ensures r != -1 ==> s[r] == c && c !in s[..r]
    decreases |s|
  {
    if s == [] then -1
    else if s[0] == c then 0
    else
      var k := IndexOf(s[1..], c);
      assert s == [s[0]] + s[1..];
      if k == -1 then -1
      else
        assert s[..k + 1] == [s[0]] + s[1..][..k];
        k + 1
  }

  datatype RouteError =
    | SyntaxError(errors: seq<ParseError>)   // parse_command failed on one or both commands
    | BuiltinPiped(name: string)             // a built-in with a `|` in the line
    | MissingBeforePipe
    | MissingAfterPipe

  /** What execute_pipeline does with a line. */
  datatype Plan =
    | Ignore                                  // blank once the `&` is stripped
    | Rejected(error: RouteError)
    | Single(cmd: Command, background: bool)  // execute_single_command, built-ins included
    | Piped(first: Command, second: Command, background: bool, outputIgnored: bool, inputIgnored: bool)

  function Errors(r: Result<Command, ParseError>): seq<ParseError>
  {
    if r.Err? then [r.error] else []
  }

  /** The first word of the line, delimited by " \t\n\r\a|", when it names a built-in. */
  function BuiltinWord(line: string): (r: Option<string>)
    ensures r.Some? ==> r.value in BuiltinNames && !AllIn(line, FirstWordDelims)
  {
    var first := StrTok(line, FirstWordDelims).0;
    if first.Some? && first.value in BuiltinNames then first else None
  }

  /** The two sides of a pipeline: refuse a blank side, parse both, drop the overridden redirections. */
  function RoutePipe(left: string, right: string, background: bool): (r: Plan)
    ensures r.Piped? || r.Rejected?
    ensures r.Piped? ==> r.background == background && r.first.output.None? && r.second.input.None?
  {
    if Blank(left) then Rejected(MissingBeforePipe)
    else if Blank(right) then Rejected(MissingAfterPipe)
    else
      var r1, r2 := Parse(left), Parse(right);
      if r1.Ok? && r2.Ok? then
        Piped(r1.value.(output := None), r2.value.(input := None), background,
              r1.value.output.Some?, r2.value.input.Some?)
      else Rejected(SyntaxError(Errors(r1) + Errors(r2)))
  }

  /** A non-blank line without its `&`: one command, or a refused built-in, or a pipeline split at the first `|`. */
  function RouteLine(line: string, background: bool): (r: Plan)
    ensures r != Ignore
    ensures r.Piped? ==> '|' in line
  {
    var p := IndexOf(line, '|');
    if p == -1 then
      match Parse(line)
      case Err(e) => Rejected(SyntaxError([e]))
      case Ok(c) => Single(c, background)
    else if BuiltinWord(line).Some? then Rejected(BuiltinPiped(BuiltinWord(line).value))
    else RoutePipe(line[..p], line[p + 1..], background)
  }

  /**
   * execute_pipeline: strip a trailing `&`; ignore a blank line; without a `|`
   * parse the whole line as one command; with one, refuse a built-in, split at
   * the first `|`, refuse a blank side, parse both sides, and drop the first
   * command's `>` and the second's `<`, which the pipe overrides.
   */
  function Route(input: string): (r: Plan)
    ensures r == Ignore <==> Blank(SplitBackground(input).0)
  {
    var split := SplitBackground(input);
    if Blank(split.0) then Ignore else RouteLine(split.0, split.1)
  }

  /** The second half of execute_pipeline, once the line is known to hold a `|` and no built-in. */
  method RunPipe(left: string, right: string, background: bool) returns (plan: Plan)
    ensures plan == RoutePipe(left, right, background)
  {
    if SpanIn(left, LineSpace) == |left| {
      assert left[..|left|] == left;
      return Rejected(MissingBeforePipe);
    }
    if SpanIn(right, LineSpace) == |right| {
      assert right[..|right|] == right;
      return Rejected(MissingAfterPipe);
    }
    var r1 := ParseCommand(left);
    var r2 := ParseCommand(right);
    if r1.Err? || r2.Err? {
      return Rejected(SyntaxError(Errors(r1) + Errors(r2)));
    }
    plan := Piped(r1.value.(output := None), r2.value.(input := None), background,
                  r1.value.output.Some?, r2.value.input.Some?);
  }

  /** execute_pipeline up to the point where it forks or runs a built-in. */
  method ExecutePipeline(input: string) returns (plan: Plan)
    ensures plan == Route(input)
  {
    var line, background := StripBackground(input);
    if SpanIn(line, LineSpace) == |line| {
      assert line[..|line|] == line;
      return Ignore;
    }
    plan := RunLine(line, background);
  }

  /** execute_pipeline once the line is known not to be blank: one command, a refused built-in, or a pipeline. */
  method RunLine(line: string, background: bool) returns (plan: Plan)
    ensures plan == RouteLine(line, background)
  {
    var first := StrTok(line, FirstWordDelims).0;
    var isBuiltin := first.Some? && first.value in BuiltinNames;
    var p := IndexOf(line, '|');
    if p == -1 {
      var r := ParseCommand(line);
      if r.Err? { return Rejected(SyntaxError([r.error])); }
      return Single(r.value, background);
    }
    if isBuiltin {
      return Rejected(BuiltinPiped(first.value));
    }
    plan := RunPipe(line[..p], line[p + 1..], background);
  }

  /** Both commands of a pipeline have a command word; the first never writes to a file and the second never reads from one. */
  lemma RoutePipeRunsCommands(left: string, right: string, background: bool)
    ensures var plan := RoutePipe(left, right, background);
      plan.Piped? ==>
        && plan.first.args != [] && plan.second.args != []
        && plan.first.output.None? && plan.second.input.None?
        && plan.background == background
  {
    ParseShape(left);
    ParseShape(right);
  }

  /**
   * Whatever runs has a command word; a pipeline's first command never writes
   * to a file and its second never reads from one; the background flag is the
   * trailing `&`.
   */
  lemma RouteRunsCommands(input: string)
    ensures Route(input).Single? ==>
      Route(input).cmd.args != [] && Route(input).background == SplitBackground(input).1
    ensures Route(input).Piped? ==>
      && Route(input).first.args != [] && Route(input).second.args != []
      && Route(input).first.output.None? && Route(input).second.input.None?
      && Route(input).background == SplitBackground(input).1
      && '|' in SplitBackground(input).0
  {
    var (line, background) := SplitBackground(input);
    if !Blank(line) {
      var p := IndexOf(line, '|');
      if p == -1 {
        ParseShape(line);
      } else if BuiltinWord(line).None? {
        RoutePipeRunsCommands(line[..p], line[p + 1..], background);
      }
    }
  }

  /** A line with a `|` whose first word is a built-in is refused, naming the built-in. */
  lemma RouteRefusesPipedBuiltin(input: string)
    requires var line := SplitBackground(input).0;
      '|' in line && BuiltinWord(line).Some?
    ensures Route(input) == Rejected(BuiltinPiped(BuiltinWord(SplitBackground(input).0).value))
  {
    var line := SplitBackground(input).0;
    assert !Blank(line) by {
      var k :| 0 <= k < |line| && line[k] !in FirstWordDelims;
      assert line[k] !in LineSpace;
    }
  }

  /** With a `|` and no built-in, a blank side is refused: the left side checked first. */
  lemma RouteRefusesEmptySide(input: string)
    requires var line := SplitBackground(input).0;
      && '|' in line && BuiltinWord(line) == None
      && (Blank(line[..IndexOf(line, '|')]) || Blank(line[IndexOf(line, '|') + 1..]))
    ensures Route(input) == Rejected(MissingBeforePipe) || Route(input) == Rejected(MissingAfterPipe)
    ensures var line := SplitBackground(input).0;
      Blank(line[..IndexOf(line, '|')]) ==> Route(input) == Rejected(MissingBeforePipe)
    ensures var line := SplitBackground(input).0;
      !Blank(line[..IndexOf(line, '|')]) ==> Route(input) == Rejected(MissingAfterPipe)
  {
    var line := SplitBackground(input).0;
    var p := IndexOf(line, '|');
    assert line[p] == '|' && '|' !in LineSpace;
  }

  /** main's step for one line read: skip a blank line, else build the job title and route the buffer copy. */
  method HandleLine(line: string) returns (title: string, plan: Plan)
    ensures Blank(line) ==> plan == Ignore
    ensures !Blank(line) ==>
      title == TrimRight(Truncate(line), TitleTrim) && plan == Route(Truncate(line))
  {
    title := [];
    if SpanIn(line, LineSpace) == |line| {
      assert line[..|line|] == line;
      return title, Ignore;
    }
    title := JobTitle(line);
    plan := ExecutePipeline(Truncate(line));
  }

  // ---------------------------------------------------------------------
  // The `%<id>` argument of fg and bg
  // ---------------------------------------------------------------------

  datatype JobArgError = Usage | InvalidJobId(arg: string)

  /** fg / bg: the argument must exist and start with `%`, and atoi of the rest must be positive. */
  function JobArg(args: seq<string>): (r: Result<int, JobArgError>)
    ensures r.Ok? ==> r.value > 0 && |args| >= 2
  {
    if |args| < 2 || args[1] == [] || args[1][0] != '%' then Err(Usage)
    else
      var id := Atoi(args[1][1..]);
      if id <= 0 then Err(InvalidJobId(args[1])) else Ok(id)
  }

  /** `%n` for a positive n as %d writes it is accepted as job n. */
  lemma JobArgAccepts(args: seq<string>, n: nat)
    requires n > 0 && |args| >= 2 && args[1] == ['%'] + Decimal(n)
    ensures JobArg(args) == Ok(n)
  {
    assert args[1][1..] == Decimal(n);
    AtoiDecimal(n);
  }

  /** An accepted argument starts with `%` and names a positive id; a missing one or one without `%` is a usage error. */
  lemma JobArgRejects(args: seq<string>)
    ensures JobArg(args).Ok? ==>
      |args| >= 2 && args[1] != [] && args[1][0] == '%' && JobArg(args).value > 0
    ensures (|args| < 2 || args[1] == [] || args[1][0] != '%') ==> JobArg(args) == Err(Usage)
    ensures (|args| >= 2 && args[1] != [] && args[1][0] == '%' && Atoi(args[1][1..]) <= 0) ==>
      JobArg(args) == Err(InvalidJobId(args[1]))
  {
  }
}
