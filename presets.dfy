/** The in-memory preset table of rstring (`get_default_preset` and
    `set_default_preset` in rstring/utils.py). A preset file is a dictionary from
    preset name to `{'is_default': bool, 'args': [...]}`; Python dictionaries
    iterate in insertion order, which `names` records. */
module Presets {
  import opened Wrappers

  /** One preset. A missing `is_default` key reads as false. */
  datatype Preset = Preset(isDefault: bool, args: seq<string>)

  predicate Distinct(names: seq<string>) {
    forall i, j :: 0 <= i < j < |names| ==> names[i] != names[j]
  }

  /** The first name, in iteration order, whose preset is marked default. */
  function FirstDefault(names: seq<string>, entries: map<string, Preset>): (r: Option<string>)
    requires forall i :: 0 <= i < |names| ==> names[i] in entries
    ensures r.None? <==> forall i :: 0 <= i < |names| ==> !entries[names[i]].isDefault
    ensures r.Some? ==> exists i :: 0 <= i < |names| && names[i] == r.value && entries[r.value].isDefault
                                 && (forall j :: 0 <= j < i ==> !entries[names[j]].isDefault)
  {
    if names == [] then None
    else if entries[names[0]].isDefault then
      assert names[0] == names[0];
      Some(names[0])
    else
      var r := FirstDefault(names[1..], entries);
      assert forall i :: 1 <= i < |names| ==> names[i] == names[1..][i - 1];
      if r.Some? then
        var i :| 0 <= i < |names[1..]| && names[1..][i] == r.value && entries[r.value].isDefault
                 && (forall j :: 0 <= j < i ==> !entries[names[1..][j]].isDefault);
        assert names[i + 1] == r.value;
        assert forall j :: 0 <= j < i + 1 ==> !entries[names[j]].isDefault by {
          forall j | 0 <= j < i + 1
            ensures !entries[names[j]].isDefault
          {
            if j > 0 {
              assert names[j] == names[1..][j - 1];
            }
          }
        }
        r
      else
        r
  }

  /** The table after `set_default_preset(name)`: exactly `name` is marked
      default, and every preset keeps its arguments. */
  function MarkDefault(entries: map<string, Preset>, name: string): (e: map<string, Preset>)
    ensures e.Keys == entries.Keys
    ensures forall k :: k in e ==> e[k].args == entries[k].args && (e[k].isDefault <==> k == name)
  {
    map k | k in entries :: entries[k].(isDefault := k == name)
  }

  /** Choosing a present preset as default makes it the one
      `get_default_preset` returns. */
  lemma {:induction false} MarkDefaultFound(names: seq<string>, entries: map<string, Preset>, name: string)
    requires forall i :: 0 <= i < |names| ==> names[i] in entries
    requires name in names
    ensures FirstDefault(names, MarkDefault(entries, name)) == Some(name)
  {
    var e := MarkDefault(entries, name);
    var i :| 0 <= i < |names| && names[i] == name;
    assert e[names[i]].isDefault;
  }

  class PresetTable {
    var names: seq<string>
    var entries: map<string, Preset>

    /** The names are the dictionary's keys, each once, in iteration order. */
    ghost predicate Valid()
      reads this
    {
      Distinct(names) && forall n :: n in entries <==> n in names
    }

    constructor (names0: seq<string>, entries0: map<string, Preset>)
      requires Distinct(names0) && forall n :: n in entries0 <==> n in names0
      ensures Valid()
      ensures names == names0 && entries == entries0
    {
      names := names0;
      entries := entries0;
    }

    /** `get_default_preset(presets)`: the first preset, in iteration order, that
        is marked default, or `None` when there is none. */
    method GetDefault() returns (r: Option<string>)
      requires Valid()
      ensures r == FirstDefault(names, entries)
    {
      var i := 0;
      while i < |names|
        invariant 0 <= i <= |names|
        invariant FirstDefault(names, entries) == FirstDefault(names[i..], entries)
      {
        var name := names[i];
        assert names[i..][1..] == names[i + 1..];
        if entries[name].isDefault {
          return Some(name);
        }
        i := i + 1;
      }
      return None;
    }

    /** `set_default_preset(presets, name)`: with a known name, mark it and only
        it as default, keeping every preset's arguments; with an unknown name,
        report it and change nothing. */
    method SetDefault(name: string) returns (found: bool)
      requires Valid()
      modifies this
      ensures Valid()
      ensures found <==> name in old(entries)
      ensures names == old(names)
      ensures found ==> entries == MarkDefault(old(entries), name)
      ensures !found ==> entries == old(entries)
    {
      if name !in entries {
        return false;
      }
      var i := 0;
      while i < |names|
        invariant 0 <= i <= |names|
        invariant Valid() && names == old(names) && entries.Keys == old(entries).Keys
        invariant forall j :: 0 <= j < i ==> entries[names[j]] == old(entries)[names[j]].(isDefault := names[j] == name)
        invariant forall j :: i <= j < |names| ==> entries[names[j]] == old(entries)[names[j]]
      {
        var n := names[i];
        entries := entries[n := entries[n].(isDefault := n == name)];
        i := i + 1;
      }
      forall k | k in entries
        ensures entries[k] == MarkDefault(old(entries), name)[k]
      {
        var j :| 0 <= j < |names| && names[j] == k;
      }
      return true;
    }
  }
}
