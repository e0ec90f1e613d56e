/** The argument rules of rstring's `main` (rstring/cli.py): finding the target
    directory, choosing a preset, prepending the `.gitignore` filters and adding
    the default source. `isdir`, `abspath` and the `.gitignore` file are
    inputs. */
module Cli {
  import opened PyText
  import opened Wrappers
  import opened ArgRules
  import opened Gitignore
  import opened Presets

  // ---------------------------------------------------------------------------
  // parse_target_directory

  predicate IsDirectoryFlag(arg: string) {
    arg == "-C" || arg == "--directory"
  }

  const DirectoryEq := "--directory="

  /** A token the scan consumes as (part of) a directory option. */
  predicate IsDirectoryToken(arg: string) {
    IsDirectoryFlag(arg) || StartsWith(arg, DirectoryEq)
  }

  const MissingValue := "-C/--directory requires a directory argument"

  /** `arg.split('=', 1)[1]`: everything after the first `=`. */
  function AfterFirstEq(arg: string): string
    requires '=' in arg
  {
    arg[IndexOf(arg, '=') + 1..]
  }

  lemma AfterFirstEqOfDirectory(arg: string)
    requires StartsWith(arg, DirectoryEq)
    ensures '=' in arg && AfterFirstEq(arg) == arg[|DirectoryEq|..]
  {
    assert arg[11] == DirectoryEq[11] == '=';
    assert forall k :: 0 <= k < 11 ==> arg[..11][k] == DirectoryEq[k];
    assert '=' !in arg[..11];
    var i := IndexOf(arg, '=');
    assert forall k :: 0 <= k < i ==> arg[..i][k] == arg[k];
    assert i == 11;
  }

  /** What the scan of lines 24-37 has found: the last directory named, and the
      other tokens in order. */
  datatype Scan = Scan(target: Option<string>, remaining: seq<string>)

  /** The scan as a function of the tokens still to read: a directory found
      later overrides one found earlier, and a flag with nothing after it is an
      error. */
  function ScanArgs(args: seq<string>): Result<Scan>
    decreases |args|
  {
    if args == [] then Ok(Scan(None, []))
    else if IsDirectoryFlag(args[0]) then
      if |args| < 2 then Err(MissingValue)
      else Merge(Some(args[1]), [], ScanArgs(args[2..]))
    else if StartsWith(args[0], DirectoryEq) then
      AfterFirstEqOfDirectory(args[0]);
      Merge(Some(AfterFirstEq(args[0])), [], ScanArgs(args[1..]))
    else Merge(None, [args[0]], ScanArgs(args[1..]))
  }

  /** The state of the scan so far combined with the scan of the rest. */
  function Merge(target: Option<string>, remaining: seq<string>, rest: Result<Scan>): Result<Scan> {
    match rest
    case Err(m) => Err(m)
    case Ok(s) => Ok(Scan(if s.target.Some? then s.target else target, remaining + s.remaining))
  }

  /** Lines 39-50: with no directory option, a first remaining token that does
      not start with `-` and is a directory becomes the target and is dropped;
      the target defaults to `.`, and is made absolute. */
  function TargetDirectory(args: seq<string>, isDir: string -> bool, abspath: string -> string)
    : Result<(string, seq<string>)>
  {
    match ScanArgs(args)
    case Err(m) => Err(m)
    case Ok(s) =>
      var positional := s.target.None? && s.remaining != [] && !StartsWith(s.remaining[0], "-") && isDir(s.remaining[0]);
      var target := if positional then Some(s.remaining[0]) else s.target;
      var remaining := if positional then s.remaining[1..] else s.remaining;
      Ok((abspath(if target.None? then "." else target.value), remaining))
  }

  lemma MergeNone(r: Result<Scan>)
    ensures Merge(None, [], r) == r
  {
    if r.Ok? {
      assert [] + r.value.remaining == r.value.remaining;
    }
  }

  lemma MergeMerge(t: Option<string>, rem: seq<string>, t2: Option<string>, rem2: seq<string>, r: Result<Scan>)
    ensures Merge(t, rem, Merge(t2, rem2, r)) == Merge(if t2.Some? then t2 else t, rem + rem2, r)
  {
    if r.Ok? {
      assert rem + (rem2 + r.value.remaining) == rem + rem2 + r.value.remaining;
    }
  }

  /** `parse_target_directory(args)` */
  method ParseTargetDirectory(args: seq<string>, isDir: string -> bool, abspath: string -> string)
    returns (r: Result<(string, seq<string>)>)
    ensures r == TargetDirectory(args, isDir, abspath)
  {
    var targetDir: Option<string> := None;
    var remainingArgs: seq<string> := [];
    var i := 0;
    MergeNone(ScanArgs(args));
    while i < |args|
      invariant 0 <= i <= |args|
      invariant ScanArgs(args) == Merge(targetDir, remainingArgs, ScanArgs(args[i..]))
    {
      var arg := args[i];
      assert args[i..][0] == arg;
      if arg == "-C" || arg == "--directory" {
        if i + 1 < |args| {
          assert args[i..][1] == args[i + 1] && args[i..][2..] == args[i + 2..];
          MergeMerge(targetDir, remainingArgs, Some(args[i + 1]), [], ScanArgs(args[i + 2..]));
          assert remainingArgs + [] == remainingArgs;
          targetDir := Some(args[i + 1]);
          i := i + 2;
        } else {
          return Err(MissingValue);
        }
      } else if StartsWith(arg, "--directory=") {
        AfterFirstEqOfDirectory(arg);
        assert args[i..][1..] == args[i + 1..];
        MergeMerge(targetDir, remainingArgs, Some(AfterFirstEq(arg)), [], ScanArgs(args[i + 1..]));
        assert remainingArgs + [] == remainingArgs;
        targetDir := Some(AfterFirstEq(arg));
        i := i + 1;
      } else {
        assert args[i..][1..] == args[i + 1..];
        MergeMerge(targetDir, remainingArgs, None, [arg], ScanArgs(args[i + 1..]));
        remainingArgs := remainingArgs + [arg];
        i := i + 1;
      }
    }
    assert args[i..] == [];
    assert remainingArgs + [] == remainingArgs;
    if targetDir.None? && remainingArgs != [] {
      var firstArg := remainingArgs[0];
      if !StartsWith(firstArg, "-") && isDir(firstArg) {
        targetDir := Some(firstArg);
        remainingArgs := remainingArgs[1..];
      }
    }
    if targetDir.None? {
      targetDir := Some(".");
    }
    return Ok((abspath(targetDir.value), remainingArgs));
  }

  // ---------------------------------------------------------------------------
  // Properties of the scan

  /** Scanning a run of tokens that ends cleanly and then more tokens is
      scanning each: the later run's directory wins, and its other tokens
      follow the earlier run's. */
  lemma {:induction false} ScanAppend(a: seq<string>, b: seq<string>)
    requires ScanArgs(a).Ok?
    ensures ScanArgs(a + b) == Merge(ScanArgs(a).value.target, ScanArgs(a).value.remaining, ScanArgs(b))
    decreases |a|
  {
    if a == [] {
      assert a + b == b;
      MergeNone(ScanArgs(b));
    } else if IsDirectoryFlag(a[0]) {
      assert (a + b)[0] == a[0] && (a + b)[1] == a[1] && (a + b)[2..] == a[2..] + b;
      ScanAppend(a[2..], b);
      MergeMerge(Some(a[1]), [], ScanArgs(a[2..]).value.target, ScanArgs(a[2..]).value.remaining, ScanArgs(b));
    } else {
      var t := if StartsWith(a[0], DirectoryEq) then Some(AfterFirstEq(a[0])) else None;
      var rem := if StartsWith(a[0], DirectoryEq) then [] else [a[0]];
      assert (a + b)[0] == a[0] && (a + b)[1..] == a[1..] + b;
      ScanAppend(a[1..], b);
      MergeMerge(t, rem, ScanArgs(a[1..]).value.target, ScanArgs(a[1..]).value.remaining, ScanArgs(b));
    }
  }

  /** Tokens that are not directory options pass through in order. */
  lemma {:induction false} ScanPlain(b: seq<string>)
    requires forall k :: 0 <= k < |b| ==> !IsDirectoryToken(b[k])
    ensures ScanArgs(b) == Ok(Scan(None, b))
    decreases |b|
  {
    if b != [] {
      ScanPlain(b[1..]);
      assert [b[0]] + b[1..] == b;
    }
  }

  /** The last `-C dir` wins and is removed with its value; the other tokens
      keep their order. */
  lemma LastFlagWins(a: seq<string>, flag: string, dir: string, b: seq<string>)
    requires ScanArgs(a).Ok? && IsDirectoryFlag(flag)
    requires forall k :: 0 <= k < |b| ==> !IsDirectoryToken(b[k])
    ensures ScanArgs(a + [flag, dir] + b) == Ok(Scan(Some(dir), ScanArgs(a).value.remaining + b))
  {
    var ra := ScanArgs(a).value.remaining;
    ScanPlain(b);
    ScanFlag(flag, dir);
    ScanAppend(a, [flag, dir]);
    assert ra + [] == ra;
    assert ScanArgs(a + [flag, dir]) == Ok(Scan(Some(dir), ra));
    ScanAppend(a + [flag, dir], b);
  }

  /** `--directory=X` sets the target to `X` and is removed. */
  lemma DirectoryEqWins(a: seq<string>, x: string, b: seq<string>)
    requires ScanArgs(a).Ok?
    requires forall k :: 0 <= k < |b| ==> !IsDirectoryToken(b[k])
    ensures ScanArgs(a + [DirectoryEq + x] + b) == Ok(Scan(Some(x), ScanArgs(a).value.remaining + b))
  {
    var tok := DirectoryEq + x;
    var ra := ScanArgs(a).value.remaining;
    ScanDirectoryEq(x);
    ScanPlain(b);
    ScanAppend(a, [tok]);
    assert ra + [] == ra;
    assert ScanArgs(a + [tok]) == Ok(Scan(Some(x), ra));
    ScanAppend(a + [tok], b);
  }

  lemma ScanDirectoryEq(x: string)
    ensures ScanArgs([DirectoryEq + x]) == Ok(Scan(Some(x), []))
  {
    var tok := DirectoryEq + x;
    assert tok[..|DirectoryEq|] == DirectoryEq;
    AfterFirstEqOfDirectory(tok);
    assert tok[|DirectoryEq|..] == x;
    assert !IsDirectoryFlag(tok) by {
      assert |tok| >= 12;
    }
    var e: seq<string> := [];
    assert StartsWith(tok, DirectoryEq);
    assert [tok][1..] == e;
    assert ScanArgs([tok]) == Merge(Some(x), e, ScanArgs(e));
    assert Merge(Some(x), e, Ok(Scan(None, e))).value.remaining == e;
  }

  lemma ScanFlag(flag: string, dir: string)
    requires IsDirectoryFlag(flag)
    ensures ScanArgs([flag, dir]) == Ok(Scan(Some(dir), []))
  {
    var args := [flag, dir];
    var e: seq<string> := [];
    assert args[2..] == e;
    assert ScanArgs(args) == Merge(Some(dir), e, ScanArgs(e));
    assert Merge(Some(dir), e, Ok(Scan(None, e))).value.remaining == e;
  }

  /** A flag as the very last token, after a clean run, is an error. */
  lemma TrailingFlagFails(a: seq<string>, flag: string)
    requires ScanArgs(a).Ok? && IsDirectoryFlag(flag)
    ensures ScanArgs(a + [flag]) == Err(MissingValue)
  {
    ScanAppend(a, [flag]);
  }

  /** What survives the scan is never a directory option, and keeps the order
      of the input: it is a subsequence of it. */
  lemma {:induction false} ScanRemaining(args: seq<string>)
    requires ScanArgs(args).Ok?
    ensures forall k :: 0 <= k < |ScanArgs(args).value.remaining| ==> !IsDirectoryToken(ScanArgs(args).value.remaining[k])
    ensures Subsequence(ScanArgs(args).value.remaining, args)
    decreases |args|
  {
    if args != [] {
      var skip := if IsDirectoryFlag(args[0]) then 2 else 1;
      ScanRemaining(args[skip..]);
      var rest := ScanArgs(args[skip..]).value.remaining;
      var all := ScanArgs(args).value.remaining;
      SubsequenceDrop(rest, args, skip);
      if !IsDirectoryToken(args[0]) {
        assert all == [args[0]] + rest;
        assert all[1..] == rest;
        assert forall k :: 1 <= k < |all| ==> all[k] == rest[k - 1];
      } else {
        assert all == [] + rest == rest;
      }
    }
  }

  /** `xs` is `ys` with some elements left out. */
  predicate Subsequence(xs: seq<string>, ys: seq<string>)
    decreases |ys|
  {
    xs == [] || (ys != [] && ((xs[0] == ys[0] && Subsequence(xs[1..], ys[1..])) || Subsequence(xs, ys[1..])))
  }

  lemma {:induction false} SubsequenceDrop(xs: seq<string>, ys: seq<string>, n: nat)
    requires n <= |ys| && Subsequence(xs, ys[n..])
    ensures Subsequence(xs, ys)
    decreases n
  {
    if n > 0 {
      assert ys[1..][n - 1..] == ys[n..];
      SubsequenceDrop(xs, ys[1..], n - 1);
    }
  }

  /** With no directory option at all, the first token becomes the target when
      it does not start with `-` and is a directory; otherwise the target is
      `.` and every token remains. */
  lemma PositionalFallback(args: seq<string>, isDir: string -> bool, abspath: string -> string)
    requires forall k :: 0 <= k < |args| ==> !IsDirectoryToken(args[k])
    ensures args != [] && !StartsWith(args[0], "-") && isDir(args[0])
      ==> TargetDirectory(args, isDir, abspath) == Ok((abspath(args[0]), args[1..]))
    ensures !(args != [] && !StartsWith(args[0], "-") && isDir(args[0]))
      ==> TargetDirectory(args, isDir, abspath) == Ok((abspath("."), args))
  {
    ScanPlain(args);
  }

  /** Once a directory option is seen, no positional token is taken. */
  lemma OptionBeatsPositional(args: seq<string>, isDir: string -> bool, abspath: string -> string)
    requires ScanArgs(args).Ok? && ScanArgs(args).value.target.Some?
    ensures TargetDirectory(args, isDir, abspath)
      == Ok((abspath(ScanArgs(args).value.target.value), ScanArgs(args).value.remaining))
  {
  }

  // ---------------------------------------------------------------------------
  // main, lines 99-145

  /** Lines 100-113: an explicit `-C` parsed by argparse wins and leaves the other
      tokens alone; otherwise the tokens are scanned. The target must then be a
      directory. */
  function BaseArgs(directory: Option<string>, unknown: seq<string>, isDir: string -> bool,
                    abspath: string -> string): Result<(string, seq<string>)>
  {
    var r := if Truthy(directory) then Ok((abspath(directory.value), unknown)) else TargetDirectory(unknown, isDir, abspath);
    match r
    case Err(m) => Err(m)
    case Ok(p) => if isDir(p.0) then Ok(p) else Err("Directory '" + p.0 + "' does not exist.")
  }

  /** Line 116 as written: `args.preset or get_default_preset(presets) if not
      rsync_args_base else None` groups as `(args.preset or default) if not
      rsync_args_base else None`, so any extra argument discards even an
      explicit preset. */
  function ChosenPresetAsWritten(explicit: Option<string>, default: Option<string>, base: seq<string>): Option<string> {
    if base == [] then (if Truthy(explicit) then explicit else default) else None
  }

  /** What the rest of line 120 evidently intends: an explicit preset always
      applies, with the extra arguments after its own; the default preset only
      when there are no extra arguments. */
  function ChosenPreset(explicit: Option<string>, default: Option<string>, base: seq<string>): Option<string> {
    if Truthy(explicit) then explicit else if base == [] then default else None
  }

  /** Lines 117-125: a chosen preset's arguments go first, followed by the
      extra ones; an unknown name is an error; no name keeps the extra ones. */
  function ApplyPreset(name: Option<string>, presets: map<string, Preset>, base: seq<string>): Result<seq<string>> {
    if !Truthy(name) then Ok(base)
    else if name.value in presets then Ok(presets[name.value].args + base)
    else Err("Preset '" + name.value + "' not found.")
  }

  /** Lines 135-141: the `.gitignore` filters go in front of everything else. */
  function WithGitignore(useGitignore: bool, present: bool, lines: seq<string>, args: seq<string>): seq<string> {
    if useGitignore && present then [ExcludeGit] + Translated(lines) + args else args
  }

  /** The argument list `main` hands to rsync, with the target directory. */
  function PreparedArgs(directory: Option<string>, preset: Option<string>, unknown: seq<string>,
                        names: seq<string>, presets: map<string, Preset>,
                        useGitignore: bool, present: bool, lines: seq<string>,
                        isDir: string -> bool, abspath: string -> string): Result<(string, seq<string>)>
    requires forall i :: 0 <= i < |names| ==> names[i] in presets
  {
    match BaseArgs(directory, unknown, isDir, abspath)
    case Err(m) => Err(m)
    case Ok(p) =>
      match ApplyPreset(ChosenPreset(preset, FirstDefault(names, presets), p.1), presets, p.1)
      case Err(m) => Err(m)
      case Ok(args) => Ok((p.0, WithDefaultSource(WithGitignore(useGitignore, present, lines, args))))
  }

  /** Lines 99-145 of `main` over the in-memory preset table. */
  method PrepareArgs(directory: Option<string>, preset: Option<string>, unknown: seq<string>, table: PresetTable,
                     useGitignore: bool, present: bool, lines: seq<string>,
                     isDir: string -> bool, abspath: string -> string)
    returns (r: Result<(string, seq<string>)>)
    requires table.Valid()
    ensures r == PreparedArgs(directory, preset, unknown, table.names, table.entries, useGitignore, present, lines,
                              isDir, abspath)
  {
    var targetDir: string;
    var rsyncArgsBase: seq<string>;
    if Truthy(directory) {
      targetDir := abspath(directory.value);
      rsyncArgsBase := unknown;
    } else {
      var parsed := ParseTargetDirectory(unknown, isDir, abspath);
      if parsed.Err? {
        return Err(parsed.message);
      }
      targetDir, rsyncArgsBase := parsed.value.0, parsed.value.1;
    }
    if !isDir(targetDir) {
      return Err("Directory '" + targetDir + "' does not exist.");
    }
    var default := table.GetDefault();
    var presetName := ChosenPreset(preset, default, rsyncArgsBase);
    var rsyncArgs: seq<string>;
    if Truthy(presetName) {
      if presetName.value in table.entries {
        rsyncArgs := table.entries[presetName.value].args + rsyncArgsBase;
      } else {
        return Err("Preset '" + presetName.value + "' not found.");
      }
    } else {
      rsyncArgs := rsyncArgsBase;
    }
    if useGitignore && present {
      var patterns := ParseGitignore(present, lines);
      rsyncArgs := patterns + rsyncArgs;
    }
    if !HasSource(rsyncArgs) {
      rsyncArgs := rsyncArgs + ["."];
    }
    return Ok((targetDir, rsyncArgs));
  }

  // ---------------------------------------------------------------------------
  // Properties of main's rules

  /** As written, any extra argument makes line 116 choose no preset, even one
      named with `-p`. */
  lemma ExplicitPresetIgnored(explicit: Option<string>, default: Option<string>, base: seq<string>)
    requires base != []
    ensures ChosenPresetAsWritten(explicit, default, base) == None
  {
  }

  /** `rstring -p web --include='*.py'` run in an existing current directory
      keeps `--include=*.py` as an extra argument (it starts with `-`, so it is
      never taken as the target), and then runs without the `web` preset as
      written, while the intended reading applies it. */
  lemma ExplicitPresetCounterexample(isDir: string -> bool, abspath: string -> string)
    requires isDir(abspath("."))
    ensures BaseArgs(None, ["--include=*.py"], isDir, abspath) == Ok((abspath("."), ["--include=*.py"]))
    ensures ChosenPresetAsWritten(Some("web"), None, ["--include=*.py"]) == None
    ensures ChosenPreset(Some("web"), None, ["--include=*.py"]) == Some("web")
  {
    var t := "--include=*.py";
    assert t[2] != DirectoryEq[2];
    assert !IsDirectoryToken(t);
    assert t[0] == '-';
    PositionalFallback([t], isDir, abspath);
  }

  /** The intended rule: a named preset is always used; with no extra
      arguments the two readings agree; with extra arguments and no name, no
      preset is used. */
  lemma ChosenPresetFacts(explicit: Option<string>, default: Option<string>, base: seq<string>)
    ensures Truthy(explicit) ==> ChosenPreset(explicit, default, base) == explicit
    ensures base == [] ==> ChosenPreset(explicit, default, base) == ChosenPresetAsWritten(explicit, default, base)
    ensures base != [] && !Truthy(explicit) ==> ChosenPreset(explicit, default, base) == None
  {
  }

  /** Applying a preset fails exactly for an unknown name, and otherwise ends
      with the extra arguments, after the preset's own. */
  lemma ApplyPresetFacts(name: Option<string>, presets: map<string, Preset>, base: seq<string>)
    ensures ApplyPreset(name, presets, base).Err? <==> Truthy(name) && name.value !in presets
    ensures ApplyPreset(name, presets, base).Ok? ==> var v := ApplyPreset(name, presets, base).value;
      |base| <= |v| && v[|v| - |base|..] == base
    ensures Truthy(name) && name.value in presets
      ==> ApplyPreset(name, presets, base).value[..|presets[name.value].args|] == presets[name.value].args
  {
    var r := ApplyPreset(name, presets, base);
    if r.Ok? {
      var v := r.value;
      assert v[|v| - |base|..] == base;
    }
  }

  /** With `.gitignore` in use and present, its filters come first, led by
      `--exclude=.git`, and the earlier arguments follow unchanged; otherwise
      the arguments are untouched. */
  lemma WithGitignoreFacts(useGitignore: bool, present: bool, lines: seq<string>, args: seq<string>)
    ensures var r := WithGitignore(useGitignore, present, lines, args);
      |args| <= |r| && r[|r| - |args|..] == args
      && (useGitignore && present ==> |r| == 1 + KeptCount(lines) + |args| && r[0] == ExcludeGit)
      && (!(useGitignore && present) ==> r == args)
  {
    var r := WithGitignore(useGitignore, present, lines, args);
    TranslatedLength(lines);
    assert r[|r| - |args|..] == args;
  }

  /** Whatever `main` goes on with names a source and has an existing target
      directory. */
  lemma PreparedArgsFacts(directory: Option<string>, preset: Option<string>, unknown: seq<string>,
                          names: seq<string>, presets: map<string, Preset>,
                          useGitignore: bool, present: bool, lines: seq<string>,
                          isDir: string -> bool, abspath: string -> string)
    requires forall i :: 0 <= i < |names| ==> names[i] in presets
    ensures var r := PreparedArgs(directory, preset, unknown, names, presets, useGitignore, present, lines, isDir, abspath);
      r.Ok? ==> isDir(r.value.0) && HasSource(r.value.1)
  {
  }
}
