/** The argument rules of `main` in stringify.py (lines 230-260): the preset's
    arguments, then the unknown command-line tokens, then the default source;
    validation, the optional interactive loop, and `--save-as-preset`.
    `validate_rsync_args`, `shlex.split` and the user's answers are inputs, as
    in the interactive loop. */
module StringifyMain {
  import opened Wrappers
  import opened ArgRules
  import opened Interactive

  /** The preset table of stringify: a name maps to its argument list. */
  type Table = map<string, seq<string>>

  /** Line 230: a truthy, known preset name selects that preset's list, any
      other name the empty list. */
  predicate UsesStored(preset: Option<string>, presets: Table) {
    Truthy(preset) && preset.value in presets
  }

  function PresetArgs(preset: Option<string>, presets: Table): seq<string> {
    if UsesStored(preset, presets) then presets[preset.value] else []
  }

  /** Lines 230-236: the arguments rsync is first run with. */
  function InitialArgs(preset: Option<string>, presets: Table, unknown: seq<string>): seq<string> {
    WithDefaultSource(PresetArgs(preset, presets) + unknown)
  }

  /** Lines 230-236 as written: `presets.get(...)` hands back the very list the
      table holds, and `extend` and `append` change that list in place, so the
      stored preset ends up equal to the composed arguments. */
  function HeldAsWritten(preset: Option<string>, presets: Table, unknown: seq<string>): Table {
    if UsesStored(preset, presets) then presets[preset.value := InitialArgs(preset, presets, unknown)] else presets
  }

  /** Lines 230-236 as written, with the table as it is then held in memory. */
  method ComposeArgsAsWritten(preset: Option<string>, presets: Table, unknown: seq<string>)
    returns (rsyncArgs: seq<string>, held: Table)
    ensures rsyncArgs == InitialArgs(preset, presets, unknown)
    ensures held == HeldAsWritten(preset, presets, unknown)
  {
    var aliased := UsesStored(preset, presets);
    rsyncArgs := if aliased then presets[preset.value] else [];
    held := presets;
    rsyncArgs := rsyncArgs + unknown;
    if aliased {
      held := held[preset.value := rsyncArgs];
    }
    if !HasSource(rsyncArgs) {
      rsyncArgs := rsyncArgs + ["."];
      if aliased {
        held := held[preset.value := rsyncArgs];
      }
    }
  }

  /** Lines 230-236 as evidently intended: the composed list is a new one and the
      table stays as it was loaded. */
  method ComposeArgs(preset: Option<string>, presets: Table, unknown: seq<string>)
    returns (rsyncArgs: seq<string>)
    ensures rsyncArgs == InitialArgs(preset, presets, unknown)
  {
    rsyncArgs := PresetArgs(preset, presets);
    rsyncArgs := rsyncArgs + unknown;
    if !HasSource(rsyncArgs) {
      rsyncArgs := rsyncArgs + ["."];
    }
  }

  /** Lines 238-243: invalid initial arguments end the run; with `-i` the
      loop's result replaces them, and a loop that does not finish (it spins,
      or raises) ends the run without arguments. */
  function FinalArgs(initial: seq<string>, interactive: bool, inputs: seq<string>,
                     valid: seq<string> -> bool, split: string -> Option<seq<string>>): Option<seq<string>>
  {
    if !valid(initial) then None
    else if !interactive then Some(initial)
    else
      match Run(initial, inputs, valid, split)
      case Finished(args) => Some(args)
      case _ => None
  }

  /** Lines 257-260: `--save-as-preset NAME` stores the final arguments under
      NAME in the table held in memory and writes that whole table. */
  function Saved(held: Table, saveAs: Option<string>, final: seq<string>): Table {
    if Truthy(saveAs) then held[saveAs.value := final] else held
  }

  // ---------------------------------------------------------------------------
  // Properties

  /** The composed arguments are the preset's, then every unknown token in
      order, then at most a `.`; they always name a source. */
  lemma InitialArgsFacts(preset: Option<string>, presets: Table, unknown: seq<string>)
    ensures var p := PresetArgs(preset, presets);
      var r := InitialArgs(preset, presets, unknown);
      |p| + |unknown| <= |r| <= |p| + |unknown| + 1
      && r[..|p|] == p && r[|p|..|p| + |unknown|] == unknown
      && HasSource(r)
    ensures !UsesStored(preset, presets) ==> InitialArgs(preset, presets, unknown) == WithDefaultSource(unknown)
  {
    var p := PresetArgs(preset, presets);
    var r := InitialArgs(preset, presets, unknown);
    assert r[..|p|] == (p + unknown)[..|p|] == p;
    assert r[|p|..|p| + |unknown|] == (p + unknown)[|p|..] == unknown;
    if !UsesStored(preset, presets) {
      assert p + unknown == unknown;
    }
  }

  /** Arguments that fail validation are never used, and the final arguments
      always pass it. */
  lemma {:induction false} FinalArgsValid(initial: seq<string>, interactive: bool, inputs: seq<string>,
                                          valid: seq<string> -> bool, split: string -> Option<seq<string>>)
    ensures var f := FinalArgs(initial, interactive, inputs, valid, split);
      (f.Some? ==> valid(f.value)) && (!valid(initial) ==> f.None?)
  {
    if valid(initial) && interactive && Run(initial, inputs, valid, split).Finished? {
      FinishedValid(initial, inputs, valid, split);
    }
  }

  /** As written, using a stored preset together with further arguments or the
      default source rewrites that preset in memory, and `--save-as-preset`
      under any name then writes the rewritten preset back. */
  lemma StoredPresetRewritten(preset: Option<string>, presets: Table, unknown: seq<string>,
                              saveAs: string, final: seq<string>)
    requires UsesStored(preset, presets) && saveAs != "" && saveAs != preset.value
    ensures Saved(HeldAsWritten(preset, presets, unknown), Some(saveAs), final)[preset.value]
      == InitialArgs(preset, presets, unknown)
    ensures unknown != [] ==> InitialArgs(preset, presets, unknown) != presets[preset.value]
  {
    InitialArgsFacts(preset, presets, unknown);
  }

  /** `stringify -p web -sap web2 src` with `web` stored as `-a` saves `web` as
      `-a src`. */
  lemma AliasingCounterexample()
    ensures var presets: Table := map["web" := ["-a"]];
      Saved(HeldAsWritten(Some("web"), presets, ["src"]), Some("web2"), ["-a", "src"])["web"] == ["-a", "src"]
  {
    var presets: Table := map["web" := ["-a"]];
    assert "src"[..2][0] == 's';
    assert IsSource(["-a", "src"][1]);
    assert ["-a"] + ["src"] == ["-a", "src"];
    assert InitialArgs(Some("web"), presets, ["src"]) == ["-a", "src"];
  }

  /** With the table left as loaded, saving changes exactly the saved name: every
      other preset keeps its arguments, and no preset is added or lost besides
      it. */
  lemma SavedKeepsOthers(presets: Table, saveAs: Option<string>, final: seq<string>)
    ensures var s := Saved(presets, saveAs, final);
      (forall n :: n in presets && !(Truthy(saveAs) && n == saveAs.value) ==> n in s && s[n] == presets[n])
      && (forall n :: n in s ==> n in presets || (Truthy(saveAs) && n == saveAs.value))
      && (Truthy(saveAs) ==> s[saveAs.value] == final)
  {
  }
}
