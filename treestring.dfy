/** `get_tree_string` of rstring/tree.py: the file list drawn as a tree under
    the name of its common directory, directories first, with optional ANSI
    colours. The file system queries (`isdir`, `isfile`, `access(X_OK)`,
    `abspath`, `relpath`) are oracles. */
module TreeString {
  import opened PyText
  import opened PyTextFacts
  import opened PathTree

  /** The colorama codes `Style.RESET_ALL`, `Fore.BLUE`, `Fore.GREEN` and
      `Fore.YELLOW`. */
  const Reset := "\U{1B}[0m"
  const Blue := "\U{1B}[34m"
  const Green := "\U{1B}[32m"
  const Yellow := "\U{1B}[33m"

  /** What the tree asks of the file system. `executable` is
      `os.access(p, os.X_OK)`. */
  datatype FileSystem = FileSystem(
    isDir: string -> bool,
    isFile: string -> bool,
    executable: string -> bool,
    abspath: string -> string,
    relpath: (string, string) -> string)

  /** `colorize(text, color)`: the text wrapped in the colour and the reset code
      when colours are on, the text itself otherwise. */
  function Colorize(text: string, color: string, useColor: bool): (r: string)
    ensures !useColor ==> r == text
    ensures useColor ==> StartsWith(r, color) && EndsWith(r, Reset) && |r| == |color| + |text| + |Reset|
    ensures useColor ==> r[|color|..|r| - |Reset|] == text
  {
    if useColor then
      var r := color + text + Reset;
      assert r[..|color|] == color;
      assert r[|r| - |Reset|..] == Reset;
      assert r[|color|..|r| - |Reset|] == text;
      r
    else text
  }

  // ---------------------------------------------------------------------------
  // Python's string order and the sort key of line 46

  /** `a <= b` on Python strings: code point by code point, a prefix first. */
  predicate StrLe(a: string, b: string)
    decreases |a|
  {
    a == [] || (b != [] && (a[0] < b[0] || (a[0] == b[0] && StrLe(a[1..], b[1..]))))
  }

  lemma {:induction false} StrLeTotal(a: string, b: string)
    ensures StrLe(a, b) || StrLe(b, a)
    decreases |a|
  {
    if a != [] && b != [] && a[0] == b[0] {
      StrLeTotal(a[1..], b[1..]);
    }
  }

  lemma {:induction false} StrLeTrans(a: string, b: string, c: string)
    requires StrLe(a, b) && StrLe(b, c)
    ensures StrLe(a, c)
    decreases |a|
  {
    if a != [] && a[0] == b[0] && b[0] == c[0] {
      StrLeTrans(a[1..], b[1..], c[1..]);
    }
  }

  lemma {:induction false} StrLeAntisymmetric(a: string, b: string)
    requires StrLe(a, b) && StrLe(b, a)
    ensures a == b
    decreases |a|
  {
    if a != [] {
      StrLeAntisymmetric(a[1..], b[1..]);
      assert a == [a[0]] + a[1..] && b == [b[0]] + b[1..];
    }
  }

  /** Whether the entry is a directory, as line 46 asks of `path` joined with
      its name. */
  predicate IsDirEntry(fs: FileSystem, path: string, c: Child) {
    fs.isDir(PathJoin(path, c.name))
  }

  /** The same test as a function of the name alone, which the sort is
      parameterised by. */
  function DirTest(fs: FileSystem, path: string): string -> bool {
    n => fs.isDir(PathJoin(path, n))
  }

  /** The key `(not isdir, name)` of `x` is at most that of `y`: `False` sorts
      before `True`, so directories come first, then names in order. */
  predicate KeyLe(dir: string -> bool, x: Child, y: Child) {
    (dir(x.name) && !dir(y.name)) || (dir(x.name) == dir(y.name) && StrLe(x.name, y.name))
  }

  lemma KeyLeTotal(dir: string -> bool, x: Child, y: Child)
    ensures KeyLe(dir, x, y) || KeyLe(dir, y, x)
  {
    StrLeTotal(x.name, y.name);
  }

  lemma KeyLeTrans(dir: string -> bool, x: Child, y: Child, z: Child)
    requires KeyLe(dir, x, y) && KeyLe(dir, y, z)
    ensures KeyLe(dir, x, z)
  {
    if dir(x.name) == dir(z.name) {
      StrLeTrans(x.name, y.name, z.name);
    }
  }

  predicate SortedBy(dir: string -> bool, s: seq<Child>) {
    forall i, j :: 0 <= i < j < |s| ==> KeyLe(dir, s[i], s[j])
  }

  function InsertSorted(dir: string -> bool, x: Child, s: seq<Child>): (r: seq<Child>)
    ensures multiset(r) == multiset(s) + multiset{x}
  {
    if s == [] then [x]
    else if KeyLe(dir, x, s[0]) then
      assert multiset([x] + s) == multiset{x} + multiset(s);
      [x] + s
    else
      var rest := InsertSorted(dir, x, s[1..]);
      assert multiset(s) == multiset{s[0]} + multiset(s[1..]) by {
        assert s == [s[0]] + s[1..];
      }
      assert multiset([s[0]] + rest) == multiset{s[0]} + multiset(rest);
      [s[0]] + rest
  }

  /** `sorted(node.items(), key=...)`, as an insertion sort: the entries
      rearranged, none added or lost. */
  function SortEntries(dir: string -> bool, cs: seq<Child>): (r: seq<Child>)
    ensures multiset(r) == multiset(cs)
  {
    if cs == [] then []
    else
      assert cs == [cs[0]] + cs[1..];
      InsertSorted(dir, cs[0], SortEntries(dir, cs[1..]))
  }

  lemma {:induction false} InsertSortedSorted(dir: string -> bool, x: Child, s: seq<Child>)
    requires SortedBy(dir, s)
    ensures SortedBy(dir, InsertSorted(dir, x, s))
  {
    if s != [] {
      if KeyLe(dir, x, s[0]) {
        forall j | 0 <= j < |s|
          ensures KeyLe(dir, x, s[j])
        {
          if j > 0 {
            KeyLeTrans(dir, x, s[0], s[j]);
          }
        }
        SortedCons(dir, x, s);
      } else {
        KeyLeTotal(dir, x, s[0]);
        SortedTail(dir, s);
        InsertSortedSorted(dir, x, s[1..]);
        LeadsInserted(dir, s[0], x, s[1..]);
      }
    }
  }

  /** The tail of a sorted list is sorted, and its head is at most all of it. */
  lemma SortedTail(dir: string -> bool, s: seq<Child>)
    requires s != [] && SortedBy(dir, s)
    ensures SortedBy(dir, s[1..])
    ensures forall k :: 0 <= k < |s[1..]| ==> KeyLe(dir, s[0], s[1..][k])
  {
    assert forall k :: 0 <= k < |s[1..]| ==> s[1..][k] == s[k + 1];
  }

  /** An entry at most every entry of a sorted list may lead it. */
  lemma SortedCons(dir: string -> bool, h: Child, rest: seq<Child>)
    requires SortedBy(dir, rest)
    requires forall j :: 0 <= j < |rest| ==> KeyLe(dir, h, rest[j])
    ensures SortedBy(dir, [h] + rest)
  {
    var r := [h] + rest;
    assert forall j :: 0 < j < |r| ==> r[j] == rest[j - 1];
  }

  /** An entry at most `x` and every entry of `s` may lead the sorted list that
      inserting `x` into `s` gives. */
  lemma LeadsInserted(dir: string -> bool, h: Child, x: Child, s: seq<Child>)
    requires KeyLe(dir, h, x)
    requires forall k :: 0 <= k < |s| ==> KeyLe(dir, h, s[k])
    requires SortedBy(dir, InsertSorted(dir, x, s))
    ensures SortedBy(dir, [h] + InsertSorted(dir, x, s))
  {
    var r := InsertSorted(dir, x, s);
    forall j | 0 <= j < |r|
      ensures KeyLe(dir, h, r[j])
    {
      assert r[j] in multiset(r);
      if r[j] != x {
        assert r[j] in multiset(s);
        var k :| 0 <= k < |s| && s[k] == r[j];
      }
    }
    SortedCons(dir, h, r);
  }

  /** The entries come out ordered by the key: directories first, then by
      name. */
  lemma {:induction false} SortEntriesSorted(dir: string -> bool, cs: seq<Child>)
    ensures SortedBy(dir, SortEntries(dir, cs))
  {
    if cs != [] {
      SortEntriesSorted(dir, cs[1..]);
      InsertSortedSorted(dir, cs[0], SortEntries(dir, cs[1..]));
    }
  }

  /** In sorted order no directory follows a non-directory. */
  lemma DirectoriesFirst(fs: FileSystem, path: string, cs: seq<Child>)
    ensures var s := SortEntries(DirTest(fs, path), cs);
      forall i, j :: 0 <= i < j < |s| && IsDirEntry(fs, path, s[j]) ==> IsDirEntry(fs, path, s[i])
  {
    SortEntriesSorted(DirTest(fs, path), cs);
  }

  /** Among the directories, and among the other entries, names ascend. */
  lemma NamesAscend(fs: FileSystem, path: string, cs: seq<Child>)
    ensures var s := SortEntries(DirTest(fs, path), cs);
      forall i, j :: 0 <= i < j < |s| && IsDirEntry(fs, path, s[i]) == IsDirEntry(fs, path, s[j])
        ==> StrLe(s[i].name, s[j].name)
  {
    SortEntriesSorted(DirTest(fs, path), cs);
  }

  // ---------------------------------------------------------------------------
  // build_tree_string

  /** The name as printed: blue for a directory, green for an executable
      non-directory, yellow for other names starting with `.`. */
  function Display(fs: FileSystem, full: string, name: string, useColor: bool): string {
    if fs.isDir(full) then Colorize(name, Blue, useColor)
    else if fs.executable(full) then Colorize(name, Green, useColor)
    else if StartsWith(name, ".") then Colorize(name, Yellow, useColor)
    else name
  }

  /** `build_tree_string(node, path, prefix)`: the entries in sorted order, one
      line each, and under each directory its own lines with the prefix
      extended. */
  function Lines(fs: FileSystem, t: Tree, path: string, prefix: string, useColor: bool): seq<string>
    decreases t, 1
  {
    var items := SortEntries(DirTest(fs, path), t.children);
    assert forall k :: 0 <= k < |items| ==> items[k] in multiset(t.children);
    LinesFrom(fs, t, items, 0, path, prefix, useColor)
  }

  function LinesFrom(fs: FileSystem, t: Tree, items: seq<Child>, i: nat, path: string, prefix: string,
                     useColor: bool): seq<string>
    requires i <= |items|
    requires forall k :: 0 <= k < |items| ==> items[k] in t.children
    decreases t, 0, |items| - i
  {
    if i == |items| then []
    else
      var c := items[i];
      var last := i == |items| - 1;
      var full := PathJoin(path, c.name);
      [prefix + (if last then Corner else Tee) + Display(fs, full, c.name, useColor)]
      + (if fs.isDir(full) then Lines(fs, c.sub, full, prefix + (if last then Blank else Pipe), useColor) else [])
      + LinesFrom(fs, t, items, i + 1, path, prefix, useColor)
  }

  // ---------------------------------------------------------------------------
  // get_tree_string

  /** The directory the tree is drawn under: the common prefix of the paths, cut
      back to its directory when it is not one, and `.` when that leaves nothing
      or the file system root. */
  function Root(fs: FileSystem, fileList: seq<string>): string {
    var cp := CommonPrefix(fileList);
    var d := if !fs.isDir(cp) then Dirname(cp) else cp;
    if d == "" || d == "/" then "." else d
  }

  function RootName(fs: FileSystem, fileList: seq<string>): string {
    Basename(fs.abspath(Root(fs, fileList)))
  }

  /** `os.path.relpath(p, root)` for each path. */
  function RelTo(fs: FileSystem, root: string): string -> string {
    p => fs.relpath(p, root)
  }

  /** A path's last segment is inserted when `include_dirs` is set or it is a
      file. */
  function KeepLeaf(fs: FileSystem, includeDirs: bool): string -> bool {
    p => includeDirs || fs.isFile(p)
  }

  /** The lines of the drawing: the root's name in blue, then its tree. */
  function TreeLines(fs: FileSystem, fileList: seq<string>, includeDirs: bool, useColor: bool): seq<string> {
    var root := Root(fs, fileList);
    [Colorize(RootName(fs, fileList), Blue, useColor)]
    + Lines(fs, Build(fileList, RelTo(fs, root), KeepLeaf(fs, includeDirs)), root, "", useColor)
  }

  /** The whole drawing, or the empty string for an empty list. */
  function TreeText(fs: FileSystem, fileList: seq<string>, includeDirs: bool, useColor: bool): string {
    if fileList == [] then "" else JoinWith("\n", TreeLines(fs, fileList, includeDirs, useColor))
  }

  /** `get_tree_string(file_list, include_dirs, use_color)` */
  method GetTreeString(fs: FileSystem, fileList: seq<string>, includeDirs: bool, useColor: bool)
    returns (s: string)
    ensures s == TreeText(fs, fileList, includeDirs, useColor)
  {
    if fileList == [] {
      return "";
    }
    var commonPrefix := CommonPrefix(fileList);
    if !fs.isDir(commonPrefix) {
      commonPrefix := Dirname(commonPrefix);
    }
    if commonPrefix == "" || commonPrefix == "/" {
      commonPrefix := ".";
    }
    assert commonPrefix == Root(fs, fileList);
    var rootName := Basename(fs.abspath(commonPrefix));
    var tree := BuildTree(fileList, RelTo(fs, commonPrefix), KeepLeaf(fs, includeDirs));
    var result := [Colorize(rootName, Blue, useColor)];
    result := result + Lines(fs, tree, commonPrefix, "", useColor);
    assert result == TreeLines(fs, fileList, includeDirs, useColor);
    s := JoinWith("\n", result);
  }

  // ---------------------------------------------------------------------------
  // Properties

  lemma DirnamePrefix(p: string)
    ensures Dirname(p) <= p
  {
    var head := p[..RFind(p, '/') + 1];
    if head != [] && !AllSlashes(head) {
      var r := StripTrailingSlashes(head);
      assert r == head[..|r|];
    }
  }

  /** The root is never empty nor `/`. */
  lemma RootNeverEmpty(fs: FileSystem, fileList: seq<string>)
    ensures Root(fs, fileList) != "" && Root(fs, fileList) != "/"
  {
  }

  /** Unless it is `.`, the root is a prefix of every path. */
  lemma RootIsPrefix(fs: FileSystem, fileList: seq<string>)
    ensures Root(fs, fileList) != "." ==> forall i :: 0 <= i < |fileList| ==> Root(fs, fileList) <= fileList[i]
  {
    var cp := CommonPrefix(fileList);
    DirnamePrefix(cp);
    var d := if !fs.isDir(cp) then Dirname(cp) else cp;
    assert d <= cp;
    forall i | 0 <= i < |fileList|
      ensures d <= fileList[i]
    {
      assert cp <= fileList[i];
    }
  }

  /** A common prefix that is a directory other than `/` is the root itself. */
  lemma RootIsCommonDirectory(fs: FileSystem, fileList: seq<string>)
    requires fs.isDir(CommonPrefix(fileList)) && CommonPrefix(fileList) != "" && CommonPrefix(fileList) != "/"
    ensures Root(fs, fileList) == CommonPrefix(fileList)
  {
  }

  /** An empty file list draws nothing at all. */
  lemma TreeTextEmpty(fs: FileSystem, includeDirs: bool, useColor: bool)
    ensures TreeText(fs, [], includeDirs, useColor) == ""
  {
  }

  /** The first line is the root's name, in blue when colours are on. */
  lemma TreeTextStartsWithRoot(fs: FileSystem, fileList: seq<string>, includeDirs: bool, useColor: bool)
    requires fileList != []
    ensures StartsWith(TreeText(fs, fileList, includeDirs, useColor), Colorize(RootName(fs, fileList), Blue, useColor))
  {
    JoinWithFirst("\n", TreeLines(fs, fileList, includeDirs, useColor));
  }

  /** Splitting the drawing at line breaks gives its lines back, when no name
      holds a line break. */
  lemma TreeTextLines(fs: FileSystem, fileList: seq<string>, includeDirs: bool, useColor: bool)
    requires fileList != []
    requires var lines := TreeLines(fs, fileList, includeDirs, useColor);
      forall k :: 0 <= k < |lines| ==> '\n' !in lines[k]
    ensures SplitOn(TreeText(fs, fileList, includeDirs, useColor), '\n') == TreeLines(fs, fileList, includeDirs, useColor)
  {
    SplitOnJoin(TreeLines(fs, fileList, includeDirs, useColor), '\n');
  }

  /** The line of the `i`-th entry in sorted order: `└── ` for the last,
      `├── ` for the others, then the displayed name. */
  lemma LinesFromHead(fs: FileSystem, t: Tree, items: seq<Child>, i: nat, path: string, prefix: string, useColor: bool)
    requires i < |items|
    requires forall k :: 0 <= k < |items| ==> items[k] in t.children
    ensures LinesFrom(fs, t, items, i, path, prefix, useColor) != []
    ensures LinesFrom(fs, t, items, i, path, prefix, useColor)[0]
      == prefix + (if i == |items| - 1 then Corner else Tee)
         + Display(fs, PathJoin(path, items[i].name), items[i].name, useColor)
  {
  }

  /** Nothing is printed under an entry that is not a directory, whatever its
      subtree holds. */
  lemma NoDescentIntoFiles(fs: FileSystem, t: Tree, items: seq<Child>, i: nat, path: string, prefix: string,
                           useColor: bool)
    requires i < |items|
    requires forall k :: 0 <= k < |items| ==> items[k] in t.children
    requires !fs.isDir(PathJoin(path, items[i].name))
    ensures LinesFrom(fs, t, items, i, path, prefix, useColor)
      == [prefix + (if i == |items| - 1 then Corner else Tee) + Display(fs, PathJoin(path, items[i].name), items[i].name, useColor)]
         + LinesFrom(fs, t, items, i + 1, path, prefix, useColor)
  {
  }

  /** With colours off every name is printed as it is; with colours on, a
      directory is blue, an executable file green, and a hidden name yellow. */
  lemma DisplayColours(fs: FileSystem, full: string, name: string, useColor: bool)
    ensures !useColor ==> Display(fs, full, name, useColor) == name
    ensures useColor && fs.isDir(full) ==> Display(fs, full, name, useColor) == Blue + name + Reset
    ensures useColor && !fs.isDir(full) && fs.executable(full) ==> Display(fs, full, name, useColor) == Green + name + Reset
    ensures useColor && !fs.isDir(full) && !fs.executable(full) && StartsWith(name, ".")
      ==> Display(fs, full, name, useColor) == Yellow + name + Reset
    ensures !fs.isDir(full) && !fs.executable(full) && !StartsWith(name, ".")
      ==> Display(fs, full, name, useColor) == name
  {
  }

  /** Every line of a level starts with its prefix. */
  lemma {:induction false} LinesPrefix(fs: FileSystem, t: Tree, path: string, prefix: string, useColor: bool)
    ensures AllStartWith(Lines(fs, t, path, prefix, useColor), prefix)
    decreases t, 1
  {
    var items := SortEntries(DirTest(fs, path), t.children);
    assert forall k :: 0 <= k < |items| ==> items[k] in multiset(t.children);
    LinesFromPrefix(fs, t, items, 0, path, prefix, useColor);
  }

  lemma {:induction false} LinesFromPrefix(fs: FileSystem, t: Tree, items: seq<Child>, i: nat, path: string,
                                           prefix: string, useColor: bool)
    requires i <= |items|
    requires forall k :: 0 <= k < |items| ==> items[k] in t.children
    ensures AllStartWith(LinesFrom(fs, t, items, i, path, prefix, useColor), prefix)
    decreases t, 0, |items| - i
  {
    if i < |items| {
      var c := items[i];
      var last := i == |items| - 1;
      var full := PathJoin(path, c.name);
      var ext := if last then Blank else Pipe;
      var head := prefix + (if last then Corner else Tee) + Display(fs, full, c.name, useColor);
      var sub := if fs.isDir(full) then Lines(fs, c.sub, full, prefix + ext, useColor) else [];
      LinesPrefix(fs, c.sub, full, prefix + ext, useColor);
      LinesFromPrefix(fs, t, items, i + 1, path, prefix, useColor);
      assert head[..|prefix|] == prefix;
      IndentedBlock(head, sub, ext, LinesFrom(fs, t, items, i + 1, path, prefix, useColor), prefix);
    }
  }
}
