/** The "default source" rule shared by `main` in rstring/cli.py and stringify.py
    and by the edit step of the interactive loop: when no argument names a
    source, `.` is appended. */
module ArgRules {
  import opened PyText
  import opened Wrappers

  /** An optional string Python treats as true: present and not empty. */
  predicate Truthy(o: Option<string>) {
    o.Some? && o.value != ""
  }

  /** An argument that counts as a source for
      `any(arg for arg in args if not arg.startswith('--'))`: it must not start
      with `--`, and it must be truthy, so the empty string does not count. */
  predicate IsSource(arg: string) {
    arg != "" && !StartsWith(arg, "--")
  }

  predicate HasSource(args: seq<string>) {
    exists i :: 0 <= i < |args| && IsSource(args[i])
  }

  /** The arguments after the rule: unchanged when one of them is a source,
      otherwise with exactly one `.` appended. Either way a source is present. */
  function WithDefaultSource(args: seq<string>): (r: seq<string>)
    ensures HasSource(args) ==> r == args
    ensures !HasSource(args) ==> r == args + ["."]
    ensures HasSource(r)
  {
    if HasSource(args) then args
    else
      assert IsSource((args + ["."])[|args|]);
      args + ["."]
  }

  /** Applying the rule a second time changes nothing. */
  lemma WithDefaultSourceIdempotent(args: seq<string>)
    ensures WithDefaultSource(WithDefaultSource(args)) == WithDefaultSource(args)
  {
  }

  /** `.` is appended exactly when every argument is empty or starts with `--`. */
  lemma WithDefaultSourceAppends(args: seq<string>)
    ensures WithDefaultSource(args) != args
      <==> forall i :: 0 <= i < |args| ==> args[i] == "" || StartsWith(args[i], "--")
  {
    if WithDefaultSource(args) != args {
      assert |WithDefaultSource(args)| == |args| + 1;
    }
  }
}
