/** Translating `.gitignore` lines into rsync `--exclude` filters
    (`parse_gitignore` in rstring/utils.py). The file's existence and its lines
    are inputs: reading the file is left to the caller. */
module Gitignore {
  import opened PyText
  import opened PyTextFacts
  import opened Wrappers

  const ExcludeGit := "--exclude=.git"
  const Exclude := "--exclude="

  /** The pattern a `.gitignore` line becomes, if any: after stripping
      whitespace, empty lines and comments give none; one leading `/` is
      dropped, and a trailing `/` gets a `*` after it. */
  function Translate(line: string): (r: Option<string>)
    ensures r.None? <==> Strip(line) == [] || StartsWith(Strip(line), "#")
    ensures r.Some? ==> StartsWith(r.value, Exclude)
  {
    var s := Strip(line);
    if s == [] || StartsWith(s, "#") then None
    else
      var t := Unrooted(s);
      var p := if EndsWith(t, "/") then Exclude + t + "*" else Exclude + t;
      assert p[..|Exclude|] == Exclude;
      Some(p)
  }

  /** A stripped line with one leading `/` removed. */
  function Unrooted(s: string): string {
    if StartsWith(s, "/") then s[1..] else s
  }

  /** The patterns of the kept lines, in file order. */
  function Translated(lines: seq<string>): seq<string> {
    if lines == [] then []
    else (if Translate(lines[0]).Some? then [Translate(lines[0]).value] else []) + Translated(lines[1..])
  }

  /** How many lines are kept. */
  function KeptCount(lines: seq<string>): nat {
    if lines == [] then 0
    else (if Translate(lines[0]).Some? then 1 else 0) + KeptCount(lines[1..])
  }

  /** `parse_gitignore(path)`: nothing when the file does not exist, otherwise
      `--exclude=.git` followed by the translation of every kept line. */
  method ParseGitignore(present: bool, lines: seq<string>) returns (patterns: seq<string>)
    ensures !present ==> patterns == []
    ensures present ==> patterns == [ExcludeGit] + Translated(lines)
  {
    if !present {
      return [];
    }
    patterns := [ExcludeGit];
    var i := 0;
    while i < |lines|
      invariant 0 <= i <= |lines|
      invariant patterns == [ExcludeGit] + Translated(lines[..i])
    {
      var line := Strip(lines[i]);
      ghost var before := patterns;
      if line != [] && !StartsWith(line, "#") {
        if StartsWith(line, "/") {
          line := line[1..];
        }
        if EndsWith(line, "/") {
          patterns := patterns + [Exclude + line + "*"];
        } else {
          patterns := patterns + [Exclude + line];
        }
      }
      assert patterns == before + (if Translate(lines[i]).Some? then [Translate(lines[i]).value] else []);
      TranslatedStep(lines, i);
      i := i + 1;
    }
    assert lines[..i] == lines;
  }

  lemma TranslatedStep(lines: seq<string>, i: nat)
    requires i < |lines|
    ensures Translated(lines[..i + 1])
      == Translated(lines[..i]) + (if Translate(lines[i]).Some? then [Translate(lines[i]).value] else [])
  {
    assert lines[..i + 1] == lines[..i] + [lines[i]];
    TranslatedAppend(lines[..i], [lines[i]]);
    assert [lines[i]][1..] == [];
  }

  /** The translation keeps file order: translating two runs of lines one after
      the other gives the two translations one after the other. */
  lemma {:induction false} TranslatedAppend(a: seq<string>, b: seq<string>)
    ensures Translated(a + b) == Translated(a) + Translated(b)
  {
    if a == [] {
      assert a + b == b;
    } else {
      assert (a + b)[1..] == a[1..] + b;
      TranslatedAppend(a[1..], b);
    }
  }

  /** One pattern per kept line: the result has length 1 + the number of kept
      lines. */
  lemma {:induction false} TranslatedLength(lines: seq<string>)
    ensures |Translated(lines)| == KeptCount(lines)
    ensures KeptCount(lines) <= |lines|
  {
    if lines != [] {
      TranslatedLength(lines[1..]);
    }
  }

  /** Every pattern is an `--exclude=` filter, and a pattern appears exactly when
      some kept line translates to it. */
  lemma {:induction false} TranslatedMembers(lines: seq<string>, p: string)
    ensures p in Translated(lines) <==> exists i :: 0 <= i < |lines| && Translate(lines[i]) == Some(p)
    ensures p in Translated(lines) ==> StartsWith(p, Exclude)
  {
    if lines != [] {
      TranslatedMembers(lines[1..], p);
      if exists i :: 0 <= i < |lines[1..]| && Translate(lines[1..][i]) == Some(p) {
        var i :| 0 <= i < |lines[1..]| && Translate(lines[1..][i]) == Some(p);
        assert lines[i + 1] == lines[1..][i];
      }
      if exists i :: 0 <= i < |lines| && Translate(lines[i]) == Some(p) {
        var i :| 0 <= i < |lines| && Translate(lines[i]) == Some(p);
        if i > 0 {
          assert lines[1..][i - 1] == lines[i];
        }
      }
    }
  }

  /** The name a pattern excludes, read back from the pattern: the text after
      `--exclude=`, with the star that follows a directory's slash removed. */
  function Excluded(pattern: string): string
    requires StartsWith(pattern, Exclude)
  {
    var t := pattern[|Exclude|..];
    if EndsWith(t, "/*") then t[..|t| - 1] else t
  }

  lemma ExcludedOf(t: string)
    requires !EndsWith(t, "/*")
    ensures Excluded(Exclude + t + (if EndsWith(t, "/") then "*" else "")) == t
  {
    if EndsWith(t, "/") {
      var p := Exclude + t + "*";
      assert p[|Exclude|..] == t + "*";
      assert (t + "*")[|t + "*"| - 2..] == "/*";
      assert (t + "*")[..|t|] == t;
    } else {
      var p := Exclude + t + "";
      assert p[|Exclude|..] == t;
    }
  }

  lemma EndsWithTail(s: string, t: string, k: nat, p: string)
    requires k <= |s| && t == s[k..]
    ensures EndsWith(t, p) ==> EndsWith(s, p)
  {
    if EndsWith(t, p) {
      assert s[|s| - |p|..] == t[|t| - |p|..];
    }
  }

  /** Reading the pattern back gives the stripped line without its leading
      slash: a kept line is recovered from its pattern, unless the line itself
      ends in a slash and a star, which reads back like a directory. */
  lemma TranslateInverse(line: string)
    requires Translate(line).Some? && !EndsWith(Strip(line), "/*")
    ensures Excluded(Translate(line).value) == Unrooted(Strip(line))
  {
    var s := Strip(line);
    var t := Unrooted(s);
    EndsWithTail(s, t, if StartsWith(s, "/") then 1 else 0, "/*");
    ExcludedOf(t);
    assert Translate(line).value == Exclude + t + (if EndsWith(t, "/") then "*" else "");
  }

  /** A rooted directory becomes a recursive exclude of its contents. */
  lemma TranslateRootedDirectory()
    ensures Translate("/build/\n") == Some("--exclude=build/*")
  {
    StripIs("/build/\n", 0, 7);
    var s := "/build/\n"[0..7];
    assert s == "/build/";
    assert Unrooted(s) == "build/";
    assert EndsWith("build/", "/");
    assert Exclude + "build/" + "*" == "--exclude=build/*";
  }

  /** A comment line, even indented, gives no pattern. */
  lemma TranslateComment()
    ensures Translate("  # comment") == None
  {
    StripIs("  # comment", 2, 11);
  }

  /** A blank line gives no pattern. */
  lemma TranslateBlank()
    ensures Translate(" \t ") == None
  {
    StripIs(" \t ", 3, 3);
  }

  /** A plain name is excluded as it is. */
  lemma TranslatePlain()
    ensures Translate("*.pyc") == Some("--exclude=*.pyc")
  {
    StripIs("*.pyc", 0, 5);
    assert "*.pyc"[0..5] == "*.pyc";
    assert Unrooted("*.pyc") == "*.pyc";
    assert !EndsWith("*.pyc", "/");
    assert Exclude + "*.pyc" == "--exclude=*.pyc";
  }
}
