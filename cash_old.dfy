/**
 * The prototype shell's execute_command: split the line on spaces and
 * newlines into a fixed argument array, take a final lone `&` as the
 * background flag, then dispatch the built-ins clear, exit and cd before
 * launching anything else.
 */
module CashOld {
  import opened Wrappers
  import opened CStrings

  /** MAX_ARGS of the prototype: the size of `args`, NULL terminator included. */
  const MaxArgs: nat := 100
  /** The prototype splits on " \n" only: a tab is part of a word. */
  const Separators: set<char> := {' ', '\n'}

  /** What execute_command does with a line. */
  datatype Action =
    | NoCommand                                  // no tokens: returns at once
    | ClearScreen                                // system("clear")
    | Exit                                       // "Closing ca$h..." and exit(0)
    | ChangeDir(dir: string)                     // chdir(dir)
    | HomeNotSet                                 // "cd: HOME not set", no chdir
    | Launch(argv: seq<string>, background: bool) // fork and execvp(argv[0], argv)

  /**
   * The dispatch on the token list: a final lone `&` is dropped and sets the
   * background flag; then clear, exit and cd are checked in that order; cd
   * without an argument goes to HOME.
   */
  function Dispatch(toks: seq<string>, home: Option<string>): (a: Action)
    requires toks != ["&"]
    ensures a == NoCommand <==> toks == []
    ensures a.Launch? ==> a.argv != [] && a.argv[0] !in {"clear", "exit", "cd"} && a.argv <= toks
  {
    if toks == [] then NoCommand
    else
      var background := toks[|toks| - 1] == "&";
      var argv := if background then toks[..|toks| - 1] else toks;
      if argv[0] == "clear" then ClearScreen
      else if argv[0] == "exit" then Exit
      else if argv[0] == "cd" then
        if |argv| >= 2 then ChangeDir(argv[1])
        else if home.Some? then ChangeDir(home.value)
        else HomeNotSet
      else Launch(argv, background)
  }

  /**
   * After `args[i] = strtok(...)`: slots 0 to i - 1 hold the first i tokens,
   * slot i holds the next one (NULL once they are used up), and strtok
   * continues from `rest`, whose tokens are those after it.
   */
  ghost predicate Stored(args: array<Option<string>>, i: nat, rest: string, toks: seq<string>)
    reads args
  {
    && i < args.Length && i <= |toks|
    && (forall k :: 0 <= k < i ==> args[k] == Some(toks[k]))
    && (args[i].None? <==> i == |toks|)
    && (args[i].Some? ==> args[i].value == toks[i] && Tokens(rest, Separators) == toks[i + 1..])
  }

  /**
   * One `args[i] = strtok(..., " \n")` statement: the next token of the line,
   * or NULL once the tokens are used up, stored in slot `i`; also returns the
   * text strtok will continue from.
   */
  method StoreNextArg(args: array<Option<string>>, i: nat, rest: string, ghost toks: seq<string>)
      returns (after: string)
    requires i < args.Length && i <= |toks| && Tokens(rest, Separators) == toks[i..]
    requires forall k :: 0 <= k < i ==> args[k] == Some(toks[k])
    modifies args
    ensures Stored(args, i, after, toks)
    ensures forall k :: 0 <= k < args.Length && k != i ==> args[k] == old(args[k])
  {
    var step := StrTok(rest, Separators);
    args[i], after := step.0, step.1;
    if step.0.Some? {
      assert Tokens(rest, Separators) == [step.0.value] + Tokens(step.1, Separators);
      assert toks[i + 1..] == toks[i..][1..];
    }
  }

  /** The strtok loop of execute_command: `args` holds the tokens in order, then NULL. */
  method SplitArgs(input: string) returns (args: array<Option<string>>, count: nat)
    requires |Tokens(input, Separators)| < MaxArgs
    ensures fresh(args) && args.Length == MaxArgs
    ensures count == |Tokens(input, Separators)|
    ensures forall k :: 0 <= k < count ==> args[k] == Some(Tokens(input, Separators)[k])
    ensures args[count] == None
  {
    ghost var toks := Tokens(input, Separators);
    args := new Option<string>[MaxArgs];
    var i := 0;
    assert toks[0..] == toks;
    var rest := StoreNextArg(args, i, input, toks);
    while args[i].Some?
      invariant Stored(args, i, rest, toks)
      decreases |toks| - i
    {
      i := i + 1;
      rest := StoreNextArg(args, i, rest, toks);
    }
    count := i;
  }

  /**
   * The part of execute_command after the strtok loop, on the argument array:
   * `args` holds `toks` and then NULL; the final `&` is overwritten with NULL.
   */
  method DispatchArgs(args: array<Option<string>>, count: nat, home: Option<string>, ghost toks: seq<string>)
      returns (action: Action)
    requires toks != ["&"] && count == |toks| < args.Length
    requires forall k :: 0 <= k < count ==> args[k] == Some(toks[k])
    requires args[count] == None
    modifies args
    ensures action == Dispatch(toks, home)
    ensures args[..] == if count > 0 && toks[count - 1] == "&" then old(args[..])[count - 1 := None] else old(args[..])
  {
    if args[0].None? {
      return NoCommand;
    }
    var background := false;
    if count > 0 && args[count - 1] == Some("&") {
      background := true;
      args[count - 1] := None;
    }
    ghost var argvSpec := if background then toks[..|toks| - 1] else toks;
    var n := if background then count - 1 else count;
    assert n == |argvSpec| && n >= 1;
    assert forall k :: 0 <= k < n ==> args[k] == Some(argvSpec[k]);
    assert args[n] == None;
    var cmd := args[0].value;
    if cmd == "clear" {
      return ClearScreen;
    }
    if cmd == "exit" {
      return Exit;
    }
    if cmd == "cd" {
      var dir := args[1];
      if dir.None? {
        dir := home;
        if dir.None? {
          return HomeNotSet;
        }
      }
      return ChangeDir(dir.value);
    }
    // execvp reads the vector up to its NULL
    var argv: seq<string> := [];
    var k := 0;
    while args[k].Some?
      invariant 0 <= k <= n
      invariant argv == argvSpec[..k]
      decreases n - k
    {
      argv := argv + [args[k].value];
      k := k + 1;
    }
    assert argvSpec[..n] == argvSpec;
    action := Launch(argv, background);
  }

  /**
   * execute_command up to the fork. The source does not bound its tokenizing
   * loop, so a line needs fewer than MAX_ARGS tokens; and a line that is a lone
   * `&` would leave args[0] NULL before the strcmp calls.
   */
  method ExecuteCommand(input: string, home: Option<string>) returns (action: Action)
    requires |Tokens(input, Separators)| < MaxArgs
    requires Tokens(input, Separators) != ["&"]
    ensures action == Dispatch(Tokens(input, Separators), home)
  {
    var args, count := SplitArgs(input);
    action := DispatchArgs(args, count, home, Tokens(input, Separators));
  }

  /**
   * The background flag is set exactly when the last token is a lone `&`, which
   * is then left out of the vector; an `&` anywhere else stays an argument.
   */
  lemma BackgroundIffTrailingAmpersand(toks: seq<string>, home: Option<string>)
    requires toks != ["&"]
    requires Dispatch(toks, home).Launch?
    ensures var a := Dispatch(toks, home);
      && (a.background <==> toks[|toks| - 1] == "&")
      && a.argv == (if a.background then toks[..|toks| - 1] else toks)
      && forall k :: 0 <= k < |toks| - 1 && toks[k] == "&" ==> a.argv[k] == "&"
  {
  }

  /** No tokens: nothing is checked or launched. */
  lemma EmptyLineDoesNothing(input: string, home: Option<string>)
    requires AllIn(input, Separators)
    ensures Dispatch(Tokens(input, Separators), home) == NoCommand
  {
  }

  /** clear, exit and cd never fork, whatever follows them. */
  lemma BuiltinsDoNotLaunch(toks: seq<string>, home: Option<string>)
    requires toks != [] && toks != ["&"]
    requires toks[0] in {"clear", "exit", "cd"}
    ensures !Dispatch(toks, home).Launch? && Dispatch(toks, home) != NoCommand
    ensures toks[0] == "clear" ==> Dispatch(toks, home) == ClearScreen
    ensures toks[0] == "exit" ==> Dispatch(toks, home) == Exit
  {
    if toks[|toks| - 1] == "&" {
      assert toks[..|toks| - 1][0] == toks[0];
    }
  }

  /**
   * cd goes to its first argument (later ones are ignored); without one, or
   * with only a trailing `&`, it goes to HOME, and with HOME unset it only
   * reports the error.
   */
  lemma CdTarget(toks: seq<string>, home: Option<string>)
    requires toks != [] && toks[0] == "cd"
    ensures |toks| >= 2 && toks[1] != "&" ==> Dispatch(toks, home) == ChangeDir(toks[1])
    ensures (toks == ["cd"] || toks == ["cd", "&"]) ==>
      Dispatch(toks, home) == if home.Some? then ChangeDir(home.value) else HomeNotSet
  {
    if |toks| >= 2 && toks[|toks| - 1] == "&" {
      assert toks[..|toks| - 1][0] == "cd";
      if |toks| > 2 {
        assert toks[..|toks| - 1][1] == toks[1];
      }
    }
  }

  /** The words of a line joined by single spaces come back as the argument vector. */
  lemma ArgsOfJoinedWords(ws: seq<string>)
    requires forall i :: 0 <= i < |ws| ==> IsWord(ws[i], Separators)
    ensures Tokens(Join(ws, ' '), Separators) == ws
  {
    TokensOfJoin(ws, ' ', Separators);
  }
}
