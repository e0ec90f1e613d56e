/** Reading the file list out of `rsync -ain --list-only` output
    (`parse_rsync_output`; the three copies of that function in the repository
    are the same code). */
module Rsync {
  import opened PyText
  import opened PyTextFacts

  /** The path rsync prints on a listing line: the fields from the fifth on,
      joined by single spaces. */
  function PathOf(line: string): string {
    var fs := SplitFields(line);
    if |fs| < 5 then "" else JoinWith(" ", fs[4..])
  }

  /** A listing line names a file of the result: it has at least five fields, does
      not end in `/` (directory lines do), and its path is not the root `.`. */
  predicate Keeps(line: string) {
    |SplitFields(line)| >= 5 && !EndsWith(line, "/") && PathOf(line) != "."
  }

  /** What one line contributes to the result: its path if it is kept. */
  function Entry(line: string): seq<string> {
    if Keeps(line) then [PathOf(line)] else []
  }

  /** The paths of the kept lines, in line order. */
  function ListedFiles(lines: seq<string>): seq<string> {
    if lines == [] then [] else Entry(lines[0]) + ListedFiles(lines[1..])
  }

  /** `parse_rsync_output(output)` */
  method ParseRsyncOutput(output: string) returns (fileList: seq<string>)
    ensures fileList == ListedFiles(SplitLines(output))
  {
    var lines := SplitLines(output);
    fileList := [];
    var i := 0;
    while i < |lines|
      invariant 0 <= i <= |lines|
      invariant fileList == ListedFiles(lines[..i])
    {
      var line := lines[i];
      var parts := SplitFields(line);
      ghost var before := fileList;
      if |parts| >= 5 && !EndsWith(line, "/") {
        var filePath := JoinWith(" ", parts[4..]);
        if filePath != "." {
          fileList := fileList + [filePath];
        }
      }
      assert fileList == before + Entry(line);
      ListedFilesStep(lines, i);
      i := i + 1;
    }
    assert lines[..i] == lines;
  }

  lemma ListedFilesStep(lines: seq<string>, i: nat)
    requires i < |lines|
    ensures ListedFiles(lines[..i + 1]) == ListedFiles(lines[..i]) + Entry(lines[i])
  {
    assert lines[..i + 1] == lines[..i] + [lines[i]];
    ListedFilesAppend(lines[..i], [lines[i]]);
    assert [lines[i]][1..] == [];
  }

  /** Output order follows line order: the listing of two consecutive runs of
      lines is the listing of the first followed by that of the second. */
  lemma {:induction false} ListedFilesAppend(a: seq<string>, b: seq<string>)
    ensures ListedFiles(a + b) == ListedFiles(a) + ListedFiles(b)
  {
    if a == [] {
      assert a + b == b;
    } else {
      assert (a + b)[1..] == a[1..] + b;
      ListedFilesAppend(a[1..], b);
    }
  }

  /** A path is in the result exactly when some kept line carries it. */
  lemma {:induction false} ListedFilesMembers(lines: seq<string>, p: string)
    ensures p in ListedFiles(lines) <==> exists i :: 0 <= i < |lines| && Keeps(lines[i]) && PathOf(lines[i]) == p
  {
    if lines != [] {
      ListedFilesMembers(lines[1..], p);
      if exists i :: 0 <= i < |lines[1..]| && Keeps(lines[1..][i]) && PathOf(lines[1..][i]) == p {
        var i :| 0 <= i < |lines[1..]| && Keeps(lines[1..][i]) && PathOf(lines[1..][i]) == p;
        assert lines[i + 1] == lines[1..][i];
      }
      if exists i :: 0 <= i < |lines| && Keeps(lines[i]) && PathOf(lines[i]) == p {
        var i :| 0 <= i < |lines| && Keeps(lines[i]) && PathOf(lines[i]) == p;
        if i > 0 {
          assert lines[1..][i - 1] == lines[i];
        }
      }
    }
  }

  /** A path with no space at either end and no two spaces in a row. */
  predicate SingleSpaced(p: string) {
    p != []
    && p[0] != ' ' && p[|p| - 1] != ' '
    && forall k :: 0 <= k < |p| - 1 ==> !(p[k] == ' ' && p[k + 1] == ' ')
  }

  lemma {:induction false} JoinFieldsSingleSpaced(fs: seq<string>)
    requires fs != []
    requires forall i :: 0 <= i < |fs| ==> IsField(fs[i])
    ensures SingleSpaced(JoinWith(" ", fs))
  {
    if |fs| > 1 {
      var rest := JoinWith(" ", fs[1..]);
      JoinFieldsSingleSpaced(fs[1..]);
      assert IsField(fs[0]);
      var p := fs[0] + " " + rest;
      assert p == JoinWith(" ", fs);
      forall k | 0 <= k < |p| - 1
        ensures !(p[k] == ' ' && p[k + 1] == ' ')
      {
        if k < |fs[0]| - 1 {
          assert p[k] == fs[0][k];
        } else if k == |fs[0]| - 1 {
          assert p[k] == fs[0][k];
        } else if k == |fs[0]| {
          assert p[k + 1] == rest[0];
        } else {
          assert p[k] == rest[k - |fs[0]| - 1] && p[k + 1] == rest[k - |fs[0]|];
        }
      }
    } else {
      assert IsField(fs[0]);
    }
  }

  /** Every path in the result is non-empty, is not `.`, and has no space at
      either end and no run of spaces. */
  lemma {:induction false} ListedFilesWellFormed(lines: seq<string>)
    ensures forall k :: 0 <= k < |ListedFiles(lines)| ==>
      ListedFiles(lines)[k] != "." && SingleSpaced(ListedFiles(lines)[k])
  {
    if lines != [] {
      ListedFilesWellFormed(lines[1..]);
      var fs := SplitFields(lines[0]);
      if Keeps(lines[0]) {
        SplitFieldsAreFields(lines[0]);
        JoinFieldsSingleSpaced(fs[4..]);
      }
    }
  }

  /** `n` spaces. */
  function Spaces(n: nat): (s: string)
    ensures |s| == n && forall k :: 0 <= k < n ==> s[k] == ' '
  {
    seq(n, _ => ' ')
  }

  /** A listing line as rsync prints it: the mode, the size right-aligned after
      `pad` spaces, the date, the time and the path, separated by spaces. */
  function Row(mode: string, pad: nat, size: string, date: string, time: string, path: string): string {
    mode + (Spaces(pad) + (size + (" " + (date + (" " + (time + (" " + path)))))))
  }

  lemma RowFields(mode: string, pad: nat, size: string, date: string, time: string, path: string)
    requires IsField(mode) && IsField(size) && IsField(date) && IsField(time) && IsField(path)
    requires pad > 0
    ensures SplitFields(Row(mode, pad, size, date, time, path)) == [mode, size, date, time, path]
  {
    var t5 := " " + path;
    var t4 := " " + (time + t5);
    var t3 := " " + (date + t4);
    SplitFieldsLast(" ", path);
    SplitFieldsCons(" ", time, t5);
    SplitFieldsCons(" ", date, t4);
    SplitFieldsCons(Spaces(pad), size, t3);
    SplitFieldsFirst(mode, Spaces(pad) + (size + t3));
  }

  lemma RowNoLineBreak(mode: string, pad: nat, size: string, date: string, time: string, path: string)
    requires NoSpace(mode) && NoSpace(size) && NoSpace(date) && NoSpace(time) && NoSpace(path)
    ensures NoLineBreak(Row(mode, pad, size, date, time, path))
  {
    var line := Row(mode, pad, size, date, time, path);
    var t2 := Spaces(pad) + (size + (" " + (date + (" " + (time + (" " + path))))));
    forall k | 0 <= k < |line|
      ensures !IsLineBreak(line[k])
    {
      if k < |mode| {
        assert line[k] == mode[k];
      } else {
        assert line[k] == t2[k - |mode|];
        NoLineBreakRest(pad, size, date, time, path, k - |mode|);
      }
    }
  }

  lemma NoLineBreakRest(pad: nat, size: string, date: string, time: string, path: string, k: nat)
    requires NoSpace(size) && NoSpace(date) && NoSpace(time) && NoSpace(path)
    requires k < |Spaces(pad) + (size + (" " + (date + (" " + (time + (" " + path))))))|
    ensures !IsLineBreak((Spaces(pad) + (size + (" " + (date + (" " + (time + (" " + path)))))))[k])
  {
    var t := size + (" " + (date + (" " + (time + (" " + path)))));
    if k >= pad {
      var j := k - pad;
      if j >= |size| + 1 {
        var u := date + (" " + (time + (" " + path)));
        var i := j - |size| - 1;
        assert t[j] == u[i];
        if i >= |date| + 1 {
          var v := time + (" " + path);
          assert u[i] == v[i - |date| - 1];
        }
      }
    }
  }

  /** A one-field path on a listing line is kept unless it is `.` or names a
      directory (ends in `/`). */
  lemma RowEntry(mode: string, pad: nat, size: string, date: string, time: string, path: string)
    requires IsField(mode) && IsField(size) && IsField(date) && IsField(time) && IsField(path)
    requires pad > 0
    ensures Entry(Row(mode, pad, size, date, time, path))
      == if path == "." || path[|path| - 1] == '/' then [] else [path]
  {
    var line := Row(mode, pad, size, date, time, path);
    RowFields(mode, pad, size, date, time, path);
    assert [mode, size, date, time, path][4..] == [path];
    assert PathOf(line) == path;
    assert line[|line| - 1] == path[|path| - 1];
  }

  /** One listing line's fields. */
  datatype Listed = Listed(mode: string, pad: nat, size: string, date: string, time: string, path: string)

  predicate WellLaid(e: Listed) {
    IsField(e.mode) && e.pad > 0 && IsField(e.size) && IsField(e.date) && IsField(e.time) && IsField(e.path)
  }

  function Rows(es: seq<Listed>): (rows: seq<string>)
    ensures |rows| == |es|
    ensures forall k :: 0 <= k < |es| ==> rows[k] == Row(es[k].mode, es[k].pad, es[k].size, es[k].date, es[k].time, es[k].path)
  {
    if es == [] then [] else [Row(es[0].mode, es[0].pad, es[0].size, es[0].date, es[0].time, es[0].path)] + Rows(es[1..])
  }

  /** The paths that are neither `.` nor a directory (ending in `/`), in order. */
  function KeptPaths(es: seq<Listed>): seq<string> {
    if es == [] then []
    else
      var p := es[0].path;
      (if p == "." || (p != [] && p[|p| - 1] == '/') then [] else [p]) + KeptPaths(es[1..])
  }

  /** Parsing a listing that rsync printed, one line per entry, yields exactly the
      paths that are neither `.` nor directories, in listing order. */
  lemma {:induction false} ListingOfRows(es: seq<Listed>)
    requires forall k :: 0 <= k < |es| ==> WellLaid(es[k])
    ensures ListedFiles(SplitLines(Terminated(Rows(es)))) == KeptPaths(es)
  {
    var rows := Rows(es);
    forall k | 0 <= k < |rows|
      ensures NoLineBreak(rows[k])
    {
      var e := es[k];
      RowNoLineBreak(e.mode, e.pad, e.size, e.date, e.time, e.path);
    }
    SplitLinesTerminated(rows);
    RowsListed(es);
  }

  lemma {:induction false} RowsListed(es: seq<Listed>)
    requires forall k :: 0 <= k < |es| ==> WellLaid(es[k])
    ensures ListedFiles(Rows(es)) == KeptPaths(es)
  {
    if es != [] {
      var e := es[0];
      RowEntry(e.mode, e.pad, e.size, e.date, e.time, e.path);
      RowsListed(es[1..]);
      assert Rows(es)[1..] == Rows(es[1..]);
    }
  }

  /** The listing of the repository's test. */
  const TestListing := [
    Listed("drwxr-xr-x", 10, "4,096", "2023/04/01", "12:00:00", "."),
    Listed("-rw-r--r--", 10, "1,234", "2023/04/01", "12:00:00", "file1.py"),
    Listed("-rw-r--r--", 10, "2,345", "2023/04/01", "12:00:00", "file2.py"),
    Listed("drwxr-xr-x", 10, "4,096", "2023/04/01", "12:00:00", "subdir/"),
    Listed("-rw-r--r--", 10, "3,456", "2023/04/01", "12:00:00", "subdir/file3.py")]

  lemma TestListingWellLaid()
    ensures forall k :: 0 <= k < |TestListing| ==> WellLaid(TestListing[k])
  {
    ModeFields();
    StampFields();
    SizeFields();
    PathFields();
  }

  lemma ModeFields() ensures IsField("drwxr-xr-x") && IsField("-rw-r--r--") {}
  lemma StampFields() ensures IsField("2023/04/01") && IsField("12:00:00") {}
  lemma SizeFields() ensures IsField("4,096") && IsField("1,234") && IsField("2,345") && IsField("3,456") {}
  lemma PathFields()
    ensures IsField(".") && IsField("file1.py") && IsField("file2.py") && IsField("subdir/") && IsField("subdir/file3.py")
  {}

  lemma TestListingKept()
    ensures KeptPaths(TestListing) == ["file1.py", "file2.py", "subdir/file3.py"]
  {
  }

  /** The root `.` and the directory line `subdir/` are dropped, the files are
      kept in order. */
  lemma ExampleListing()
    ensures ListedFiles(SplitLines(Terminated(Rows(TestListing)))) == ["file1.py", "file2.py", "subdir/file3.py"]
  {
    TestListingWellLaid();
    TestListingKept();
    ListingOfRows(TestListing);
  }
}
