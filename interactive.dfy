/** The interactive refinement loop (`interactive_mode`, the same code in
    rstring/utils.py, stringify.py and stringify/utils.py). The user's answers
    are a finite script of input lines; `validate_rsync_args` and `shlex.split`
    are oracles. Printing the file list between rounds does not affect the
    arguments and is left out. */
module Interactive {
  import opened PyText
  import opened Wrappers
  import opened ArgRules

  datatype Action = Done | Add | Remove | Edit | Unknown

  /** The action an answer selects, compared after lower-casing. */
  function ParseAction(answer: string): (a: Action)
    ensures a == Done <==> Lower(answer) in ["done", "d"]
    ensures a == Add <==> Lower(answer) in ["add", "a"]
    ensures a == Remove <==> Lower(answer) in ["remove", "r"]
    ensures a == Edit <==> Lower(answer) in ["edit", "e"]
  {
    var s := Lower(answer);
    if s == "done" || s == "d" then Done
    else if s == "add" || s == "a" then Add
    else if s == "remove" || s == "r" then Remove
    else if s == "edit" || s == "e" then Edit
    else Unknown
  }

  /** How the loop ends: `d` returns the arguments; arguments that fail
      validation make the loop re-validate them for ever without reading input;
      running out of input raises `EOFError`; a line `shlex.split` rejects
      raises `ValueError`. */
  datatype Outcome =
    | Finished(args: seq<string>)
    | Spins(args: seq<string>)
    | InputExhausted(args: seq<string>)
    | SplitFailed(args: seq<string>)

  datatype StepResult = Stop(outcome: Outcome) | Next(args: seq<string>, rest: seq<string>)

  /** One round of the loop from `args` with the remaining answers `inputs`. */
  function Step(args: seq<string>, inputs: seq<string>,
                valid: seq<string> -> bool, split: string -> Option<seq<string>>): (r: StepResult)
    ensures r.Next? ==> |r.rest| < |inputs|
    ensures r.Next? ==> valid(args)
  {
    if !valid(args) then Stop(Spins(args))
    else if inputs == [] then Stop(InputExhausted(args))
    else
      match ParseAction(inputs[0])
      case Done => Stop(Finished(args))
      case Add =>
        if |inputs| < 2 then Stop(InputExhausted(args)) else Next(args + ["--include", inputs[1]], inputs[2..])
      case Remove =>
        if |inputs| < 2 then Stop(InputExhausted(args)) else Next(args + ["--exclude", inputs[1]], inputs[2..])
      case Edit =>
        if |inputs| < 2 then Stop(InputExhausted(args))
        else
          (match split(inputs[1])
           case None => Stop(SplitFailed(args))
           case Some(tokens) =>
             var newArgs := WithDefaultSource(tokens);
             Next(if valid(newArgs) then newArgs else args, inputs[2..]))
      case Unknown => Next(args, inputs[1..])
  }

  /** The whole loop: rounds until one of them stops it. */
  function Run(args: seq<string>, inputs: seq<string>,
               valid: seq<string> -> bool, split: string -> Option<seq<string>>): Outcome
    decreases |inputs|
  {
    match Step(args, inputs, valid, split)
    case Stop(o) => o
    case Next(a, rest) => Run(a, rest, valid, split)
  }

  /** `interactive_mode(initial_args)` */
  method InteractiveMode(initialArgs: seq<string>, inputs: seq<string>,
                         valid: seq<string> -> bool, split: string -> Option<seq<string>>)
    returns (outcome: Outcome)
    ensures outcome == Run(initialArgs, inputs, valid, split)
  {
    var args := initialArgs;
    var rest := inputs;
    while true
      invariant Run(args, rest, valid, split) == Run(initialArgs, inputs, valid, split)
      decreases |rest|
    {
      if !valid(args) {
        return Spins(args);
      }
      if rest == [] {
        return InputExhausted(args);
      }
      var action := ParseAction(rest[0]);
      var tail := rest[1..];
      if action == Done {
        return Finished(args);
      } else if action == Add {
        if tail == [] {
          return InputExhausted(args);
        }
        args := args + ["--include", tail[0]];
        rest := tail[1..];
      } else if action == Remove {
        if tail == [] {
          return InputExhausted(args);
        }
        args := args + ["--exclude", tail[0]];
        rest := tail[1..];
      } else if action == Edit {
        if tail == [] {
          return InputExhausted(args);
        }
        var tokens := split(tail[0]);
        if tokens.None? {
          return SplitFailed(args);
        }
        var newArgs := WithDefaultSource(tokens.value);
        if valid(newArgs) {
          args := newArgs;
        }
        rest := tail[1..];
      } else {
        rest := tail;
      }
    }
  }

  /** `a`/`add` appends exactly `--include` and the pattern; `r`/`remove`
      appends `--exclude` and the pattern; the earlier arguments stay a prefix. */
  lemma AddRemoveAppend(args: seq<string>, answer: string, pattern: string, rest: seq<string>,
                        valid: seq<string> -> bool, split: string -> Option<seq<string>>)
    requires valid(args)
    requires ParseAction(answer) in {Add, Remove}
    ensures var r := Step(args, [answer, pattern] + rest, valid, split);
      r.Next? && r.rest == rest
      && r.args == args + [if ParseAction(answer) == Add then "--include" else "--exclude", pattern]
      && r.args[..|args|] == args
  {
    assert ([answer, pattern] + rest)[2..] == rest;
  }

  /** `e`/`edit` either keeps the arguments or replaces them with the new tokens
      (plus `.` when they name no source), and only when those validate. */
  lemma EditReplacesOnlyValid(args: seq<string>, answer: string, line: string, rest: seq<string>,
                              valid: seq<string> -> bool, split: string -> Option<seq<string>>)
    requires valid(args) && ParseAction(answer) == Edit && split(line).Some?
    ensures var r := Step(args, [answer, line] + rest, valid, split);
      r.Next? && r.rest == rest
      && (r.args == args || (r.args == WithDefaultSource(split(line).value) && valid(r.args) && HasSource(r.args)))
      && (valid(WithDefaultSource(split(line).value)) ==> r.args == WithDefaultSource(split(line).value))
  {
    assert ([answer, line] + rest)[2..] == rest;
  }

  /** How each kind of round ends or goes on, for every input: invalid
      arguments spin; no answer left is end of input; `d`/`done` returns the
      arguments; add, remove and edit with no second line are end of input;
      an edit line `shlex.split` rejects is a split failure; an unknown answer
      only consumes itself. */
  lemma RoundOutcomes(args: seq<string>, inputs: seq<string>,
                      valid: seq<string> -> bool, split: string -> Option<seq<string>>)
    ensures !valid(args) ==> Run(args, inputs, valid, split) == Spins(args)
    ensures valid(args) && inputs == [] ==> Run(args, inputs, valid, split) == InputExhausted(args)
    ensures valid(args) && inputs != [] && ParseAction(inputs[0]) == Done
      ==> Run(args, inputs, valid, split) == Finished(args)
    ensures valid(args) && inputs != [] && ParseAction(inputs[0]) == Unknown
      ==> (Step(args, inputs, valid, split) == Next(args, inputs[1..])
           && Run(args, inputs, valid, split) == Run(args, inputs[1..], valid, split))
    ensures valid(args) && |inputs| == 1 && ParseAction(inputs[0]) in {Add, Remove, Edit}
      ==> Run(args, inputs, valid, split) == InputExhausted(args)
    ensures valid(args) && |inputs| >= 2 && ParseAction(inputs[0]) == Edit && split(inputs[1]).None?
      ==> Run(args, inputs, valid, split) == SplitFailed(args)
  {
  }

  /** The arguments the loop returns have passed validation. */
  lemma {:induction false} FinishedValid(args: seq<string>, inputs: seq<string>,
                                         valid: seq<string> -> bool, split: string -> Option<seq<string>>)
    requires Run(args, inputs, valid, split).Finished?
    ensures valid(Run(args, inputs, valid, split).args)
    decreases |inputs|
  {
    match Step(args, inputs, valid, split)
    case Stop(o) =>
    case Next(a, rest) => FinishedValid(a, rest, valid, split);
  }

  /** With only add and remove answers, every round keeps the arguments so far
      as a prefix, so the initial arguments are a prefix of the result. */
  lemma {:induction false} AddOnlyExtends(args: seq<string>, inputs: seq<string>,
                                          valid: seq<string> -> bool, split: string -> Option<seq<string>>)
    requires forall k :: 0 <= k < |inputs| && k % 2 == 0 ==> ParseAction(inputs[k]) in {Add, Remove, Done}
    ensures args <= Run(args, inputs, valid, split).args
    decreases |inputs|
  {
    var r := Step(args, inputs, valid, split);
    if r.Next? {
      assert ParseAction(inputs[0]) in {Add, Remove};
      forall k | 0 <= k < |r.rest| && k % 2 == 0
        ensures ParseAction(r.rest[k]) in {Add, Remove, Done}
      {
        assert r.rest[k] == inputs[k + 2];
      }
      AddOnlyExtends(r.args, r.rest, valid, split);
    }
  }

  /** The repository's test: answering `a`, `*.txt`, `d` from `--include=*.py`
      with every argument list valid returns the extended list. */
  lemma ExampleAddPattern(split: string -> Option<seq<string>>)
    ensures Run(["--include=*.py"], ["a", "*.txt", "d"], _ => true, split)
      == Finished(["--include=*.py", "--include", "*.txt"])
  {
    var valid: seq<string> -> bool := _ => true;
    assert Lower("a") == "a";
    assert Lower("d") == "d";
    assert ["a", "*.txt", "d"][2..] == ["d"];
    assert Step(["--include=*.py"], ["a", "*.txt", "d"], valid, split)
      == Next(["--include=*.py", "--include", "*.txt"], ["d"]);
    assert Step(["--include=*.py", "--include", "*.txt"], ["d"], valid, split)
      == Stop(Finished(["--include=*.py", "--include", "*.txt"]));
  }
}
