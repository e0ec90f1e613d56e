/** The file tree of `print_tree` (rstring/utils.py, stringify.py and
    stringify/utils.py): a nested dictionary keyed by path segment, built from
    the file list, then printed with box-drawing connectors. The dictionary is a
    value here: a node is the ordered list of its entries, in insertion order,
    as a Python dictionary iterates them. */
module PathTree {
  import opened PyText
  import opened PyTextFacts
  import opened Wrappers

  datatype Tree = Tree(children: seq<Child>)
  datatype Child = Child(name: string, sub: Tree)

  const Empty := Tree([])

  /** The keys of a node, in iteration order. */
  function Names(t: Tree): (ns: seq<string>)
    ensures |ns| == |t.children| && forall k :: 0 <= k < |ns| ==> ns[k] == t.children[k].name
  {
    seq(|t.children|, k requires 0 <= k < |t.children| => t.children[k].name)
  }

  /** The position of the first entry called `name`, or -1. */
  function Find(cs: seq<Child>, name: string): (i: int)
    ensures -1 <= i < |cs|
    ensures 0 <= i ==> cs[i].name == name && forall k :: 0 <= k < i ==> cs[k].name != name
    ensures i == -1 ==> forall k :: 0 <= k < |cs| ==> cs[k].name != name
  {
    if cs == [] then -1
    else if cs[0].name == name then 0
    else
      var j := Find(cs[1..], name);
      assert forall k :: 1 <= k < |cs| ==> cs[k] == cs[1..][k - 1];
      if j == -1 then -1 else j + 1
  }

  /** `current[name]`, reading a missing key as a fresh empty node. */
  function Get(t: Tree, name: string): Tree {
    var i := Find(t.children, name);
    if i < 0 then Empty else t.children[i].sub
  }

  /** `current[name] = sub`: an existing key keeps its position, a new key goes
      last. */
  function Put(t: Tree, name: string, sub: Tree): Tree {
    var i := Find(t.children, name);
    if i < 0 then Tree(t.children + [Child(name, sub)]) else Tree(t.children[i := Child(name, sub)])
  }

  /** `Find` is pinned down by its contract: the first entry with the name. */
  lemma FindIs(cs: seq<Child>, name: string, j: int)
    requires 0 <= j < |cs| && cs[j].name == name
    requires forall k :: 0 <= k < j ==> cs[k].name != name
    ensures Find(cs, name) == j
  {
  }

  lemma FindMissing(cs: seq<Child>, name: string)
    requires forall k :: 0 <= k < |cs| ==> cs[k].name != name
    ensures Find(cs, name) == -1
  {
  }

  /** After `current[name] = sub` the keys are the old keys, with `name` added
      last if it was new, and `current[name]` is `sub`. */
  lemma PutGet(t: Tree, name: string, sub: Tree)
    ensures Names(Put(t, name, sub)) == if name in Names(t) then Names(t) else Names(t) + [name]
    ensures Get(Put(t, name, sub), name) == sub
  {
    var i := Find(t.children, name);
    var r := Put(t, name, sub);
    if i < 0 {
      FindIs(r.children, name, |t.children|);
      assert name !in Names(t);
      assert Names(r) == Names(t) + [name];
    } else {
      FindIs(r.children, name, i);
      assert name in Names(t);
      assert Names(r) == Names(t);
    }
  }

  /** Every other key keeps its subtree. */
  lemma PutOther(t: Tree, name: string, sub: Tree, m: string)
    requires m != name
    ensures Get(Put(t, name, sub), m) == Get(t, m)
  {
    var i := Find(t.children, name);
    var r := Put(t, name, sub);
    var j := Find(t.children, m);
    if j >= 0 {
      FindIs(r.children, m, j);
      assert r.children[j] == t.children[j];
    } else {
      FindMissing(r.children, m);
    }
  }

  /** Inserting one path's segments: every segment but the last is created if
      missing and descended into; the last is set to an empty node only when
      `leaf` holds (replacing whatever was there). */
  function InsertPath(t: Tree, parts: seq<string>, leaf: bool): Tree
    requires |parts| >= 1
    decreases |parts|
  {
    if |parts| == 1 then (if leaf then Put(t, parts[0], Empty) else t)
    else Put(t, parts[0], InsertPath(Get(t, parts[0]), parts[1..], leaf))
  }

  /** The tree of a file list: every path inserted in turn, split on `/`, its
      last segment kept when `keep` says so. */
  function Build(paths: seq<string>, rel: string -> string, keep: string -> bool): Tree {
    if paths == [] then Empty
    else
      var p := paths[|paths| - 1];
      InsertPath(Build(paths[..|paths| - 1], rel, keep), SplitOn(rel(p), '/'), keep(p))
  }

  /** The loop of `print_tree` over `file_list`. */
  method BuildTree(fileList: seq<string>, rel: string -> string, keep: string -> bool) returns (tree: Tree)
    ensures tree == Build(fileList, rel, keep)
  {
    tree := Empty;
    var i := 0;
    while i < |fileList|
      invariant 0 <= i <= |fileList|
      invariant tree == Build(fileList[..i], rel, keep)
    {
      var filePath := fileList[i];
      assert fileList[..i + 1][..i] == fileList[..i];
      tree := InsertPath(tree, SplitOn(rel(filePath), '/'), keep(filePath));
      i := i + 1;
    }
    assert fileList[..i] == fileList;
  }

  // ---------------------------------------------------------------------------
  // Shape of the tree

  predicate Distinct(ns: seq<string>) {
    forall i, j :: 0 <= i < j < |ns| ==> ns[i] != ns[j]
  }

  /** Every node has each key once. */
  predicate Unique(t: Tree)
    decreases t
  {
    Distinct(Names(t)) && forall k :: 0 <= k < |t.children| ==> Unique(t.children[k].sub)
  }

  /** The path of segments `parts` leads from the root to an entry. */
  predicate HasPath(t: Tree, parts: seq<string>)
    requires |parts| >= 1
    decreases |parts|
  {
    parts[0] in Names(t) && (|parts| == 1 || HasPath(Get(t, parts[0]), parts[1..]))
  }

  lemma GetUnique(t: Tree, name: string)
    requires Unique(t)
    ensures Unique(Get(t, name))
  {
  }

  lemma PutUnique(t: Tree, name: string, sub: Tree)
    requires Unique(t) && Unique(sub)
    ensures Unique(Put(t, name, sub))
  {
    var r := Put(t, name, sub);
    var i := Find(t.children, name);
    PutGet(t, name, sub);
    forall k | 0 <= k < |r.children|
      ensures Unique(r.children[k].sub)
    {
      if i < 0 && k == |t.children| {
        assert r.children[k] == Child(name, sub);
      } else if k != i {
        assert r.children[k] == t.children[k];
      }
    }
    if name !in Names(t) {
      assert Names(r) == Names(t) + [name];
    }
  }

  /** Inserting a path keeps every key unique at every level: an intermediate
      segment already present is reused, never duplicated. */
  lemma {:induction false} InsertPathUnique(t: Tree, parts: seq<string>, leaf: bool)
    requires |parts| >= 1 && Unique(t)
    ensures Unique(InsertPath(t, parts, leaf))
    decreases |parts|
  {
    if |parts| == 1 {
      if leaf {
        PutUnique(t, parts[0], Empty);
      }
    } else {
      GetUnique(t, parts[0]);
      InsertPathUnique(Get(t, parts[0]), parts[1..], leaf);
      PutUnique(t, parts[0], InsertPath(Get(t, parts[0]), parts[1..], leaf));
    }
  }

  lemma {:induction false} BuildUnique(paths: seq<string>, rel: string -> string, keep: string -> bool)
    ensures Unique(Build(paths, rel, keep))
  {
    if paths != [] {
      var p := paths[|paths| - 1];
      BuildUnique(paths[..|paths| - 1], rel, keep);
      InsertPathUnique(Build(paths[..|paths| - 1], rel, keep), SplitOn(rel(p), '/'), keep(p));
    }
  }

  /** After inserting a path, all its directories are in the tree, and so is
      the path itself when its last segment was kept. */
  lemma {:induction false} InsertPathHas(t: Tree, parts: seq<string>, leaf: bool)
    requires |parts| >= 1
    ensures |parts| > 1 ==> HasPath(InsertPath(t, parts, leaf), parts[..|parts| - 1])
    ensures leaf ==> HasPath(InsertPath(t, parts, leaf), parts)
    decreases |parts|
  {
    if |parts| > 1 {
      var sub := InsertPath(Get(t, parts[0]), parts[1..], leaf);
      var r := Put(t, parts[0], sub);
      PutGet(t, parts[0], sub);
      InsertPathHas(Get(t, parts[0]), parts[1..], leaf);
      assert parts[0] in Names(r);
      assert parts[..|parts| - 1][1..] == parts[1..][..|parts| - 2];
    } else if leaf {
      PutGet(t, parts[0], Empty);
    }
  }

  /** Inserting a path never loses an entry already reachable, except the
      contents of a directory that a kept last segment names: Python's
      `current[parts[-1]] = {}` replaces that directory with an empty one. */
  lemma {:induction false} InsertPathKeeps(t: Tree, parts: seq<string>, leaf: bool, q: seq<string>)
    requires |parts| >= 1 && |q| >= 1 && HasPath(t, q)
    requires !(leaf && parts < q)
    ensures HasPath(InsertPath(t, parts, leaf), q)
    decreases |parts|
  {
    var r := InsertPath(t, parts, leaf);
    if |parts| == 1 {
      if leaf {
        PutGet(t, parts[0], Empty);
        if |q| > 1 {
          PutOther(t, parts[0], Empty, q[0]);
        }
      }
    } else {
      var sub := InsertPath(Get(t, parts[0]), parts[1..], leaf);
      PutGet(t, parts[0], sub);
      if |q| > 1 {
        if q[0] == parts[0] {
          InsertPathKeeps(Get(t, parts[0]), parts[1..], leaf, q[1..]);
        } else {
          PutOther(t, parts[0], sub, q[0]);
        }
      }
    }
  }

  /** What printing a path promises: its directories are in the tree, and the
      path itself when its last segment is kept. */
  predicate Shows(t: Tree, parts: seq<string>, leaf: bool)
    requires |parts| >= 1
  {
    (|parts| > 1 ==> HasPath(t, parts[..|parts| - 1])) && (leaf ==> HasPath(t, parts))
  }

  /** No kept path names a directory of an earlier path. */
  predicate NoLaterDirectory(paths: seq<string>, rel: string -> string, keep: string -> bool) {
    forall i, j :: 0 <= i < j < |paths| && keep(paths[j]) ==> !(SplitOn(rel(paths[j]), '/') < SplitOn(rel(paths[i]), '/'))
  }

  /** Every path of the list shows in the tree built from it, as long as no kept
      path names a directory listed before it. */
  lemma {:induction false} BuildShows(paths: seq<string>, rel: string -> string, keep: string -> bool)
    requires NoLaterDirectory(paths, rel, keep)
    ensures forall i :: 0 <= i < |paths| ==> Shows(Build(paths, rel, keep), SplitOn(rel(paths[i]), '/'), keep(paths[i]))
  {
    if paths != [] {
      var n := |paths| - 1;
      var init := paths[..n];
      var last := SplitOn(rel(paths[n]), '/');
      NoLaterDirectoryInit(paths, rel, keep);
      BuildShows(init, rel, keep);
      var t := Build(init, rel, keep);
      assert Build(paths, rel, keep) == InsertPath(t, last, keep(paths[n]));
      InsertPathHas(t, last, keep(paths[n]));
      assert Shows(Build(paths, rel, keep), last, keep(paths[n]));
      forall i | 0 <= i < n
        ensures Shows(Build(paths, rel, keep), SplitOn(rel(paths[i]), '/'), keep(paths[i]))
      {
        assert init[i] == paths[i];
        ShowsKept(t, last, keep(paths[n]), SplitOn(rel(paths[i]), '/'), keep(paths[i]));
      }
    }
  }

  lemma NoLaterDirectoryInit(paths: seq<string>, rel: string -> string, keep: string -> bool)
    requires paths != [] && NoLaterDirectory(paths, rel, keep)
    ensures NoLaterDirectory(paths[..|paths| - 1], rel, keep)
  {
    var init := paths[..|paths| - 1];
    forall i, j | 0 <= i < j < |init| && keep(init[j])
      ensures !(SplitOn(rel(init[j]), '/') < SplitOn(rel(init[i]), '/'))
    {
      assert init[i] == paths[i] && init[j] == paths[j];
    }
  }

  /** One insertion keeps an earlier path showing. */
  lemma ShowsKept(t: Tree, parts: seq<string>, leaf: bool, q: seq<string>, qLeaf: bool)
    requires |parts| >= 1 && |q| >= 1 && Shows(t, q, qLeaf)
    requires !(leaf && parts < q)
    ensures Shows(InsertPath(t, parts, leaf), q, qLeaf)
  {
    if |q| > 1 {
      var d := q[..|q| - 1];
      assert leaf && parts < d ==> parts < q;
      InsertPathKeeps(t, parts, leaf, d);
    }
    if qLeaf {
      InsertPathKeeps(t, parts, leaf, q);
    }
  }

  /** A later path that names an earlier directory empties it. */
  lemma OverwrittenDirectory()
    ensures Build(["a/b", "a"], p => p, _ => true) == Tree([Child("a", Empty)])
  {
    assert "a/b" == JoinWith("/", ["a", "b"]);
    SplitOnJoin(["a", "b"], '/');
    SplitOnJoin(["a"], '/');
    assert ["a/b", "a"][..1] == ["a/b"];
    assert [Child("a", Empty)][0 := Child("a", Empty)] == [Child("a", Empty)];
  }

  // ---------------------------------------------------------------------------
  // Rendering

  const Tee := "├── "
  const Corner := "└── "
  const Pipe := "│   "
  const Blank := "    "

  /** The number of entries in the tree, at every depth. */
  function Count(t: Tree): nat
    decreases t, 1
  {
    CountFrom(t, 0)
  }

  function CountFrom(t: Tree, i: nat): nat
    requires i <= |t.children|
    decreases t, 0, |t.children| - i
  {
    if i == |t.children| then 0 else 1 + Count(t.children[i].sub) + CountFrom(t, i + 1)
  }

  /** `print_tree_recursive(node, prefix)` of stringify.py and
      stringify/utils.py: one line per entry, `└── ` for the last sibling and
      `├── ` for the others, then the entry's own entries under the prefix
      extended by `    ` or `│   `; an empty node prints nothing. */
  function Render(t: Tree, prefix: string): seq<string>
    decreases t, 1
  {
    RenderFrom(t, 0, prefix)
  }

  function RenderFrom(t: Tree, i: nat, prefix: string): seq<string>
    requires i <= |t.children|
    decreases t, 0, |t.children| - i
  {
    if i == |t.children| then []
    else
      var c := t.children[i];
      var last := i == |t.children| - 1;
      [prefix + (if last then Corner else Tee) + c.name]
      + (if c.sub.children != [] then Render(c.sub, prefix + (if last then Blank else Pipe)) else [])
      + RenderFrom(t, i + 1, prefix)
  }

  /** `print_tree_recursive` of rstring/utils.py, which also descends into an
      empty entry when `include_dirs` is set and `isdir` holds for
      `os.path.join(*node.keys(), name)`; `descend` is that test. */
  function RenderDirs(t: Tree, prefix: string, descend: (seq<string>, string) -> bool): seq<string>
    decreases t, 1
  {
    RenderDirsFrom(t, 0, prefix, descend)
  }

  function RenderDirsFrom(t: Tree, i: nat, prefix: string, descend: (seq<string>, string) -> bool): seq<string>
    requires i <= |t.children|
    decreases t, 0, |t.children| - i
  {
    if i == |t.children| then []
    else
      var c := t.children[i];
      var last := i == |t.children| - 1;
      [prefix + (if last then Corner else Tee) + c.name]
      + (if c.sub.children != [] || descend(Names(t), c.name)
         then RenderDirs(c.sub, prefix + (if last then Blank else Pipe), descend) else [])
      + RenderDirsFrom(t, i + 1, prefix, descend)
  }

  /** Descending into an empty entry prints nothing, so the extra `isdir` test
      of rstring/utils.py never changes the output. */
  lemma {:induction false} RenderDirsSame(t: Tree, prefix: string, descend: (seq<string>, string) -> bool)
    ensures RenderDirs(t, prefix, descend) == Render(t, prefix)
    decreases t, 1
  {
    RenderDirsFromSame(t, 0, prefix, descend);
  }

  lemma {:induction false} RenderDirsFromSame(t: Tree, i: nat, prefix: string, descend: (seq<string>, string) -> bool)
    requires i <= |t.children|
    ensures RenderDirsFrom(t, i, prefix, descend) == RenderFrom(t, i, prefix)
    decreases t, 0, |t.children| - i
  {
    if i < |t.children| {
      var c := t.children[i];
      var np := prefix + (if i == |t.children| - 1 then Blank else Pipe);
      RenderDirsSame(c.sub, np, descend);
      RenderDirsFromSame(t, i + 1, prefix, descend);
      if c.sub.children == [] {
        assert RenderFrom(c.sub, 0, np) == [];
      }
    }
  }

  /** One printed line per entry of the tree. */
  lemma {:induction false} RenderCount(t: Tree, prefix: string)
    ensures |Render(t, prefix)| == Count(t)
    decreases t, 1
  {
    RenderFromCount(t, 0, prefix);
  }

  lemma {:induction false} RenderFromCount(t: Tree, i: nat, prefix: string)
    requires i <= |t.children|
    ensures |RenderFrom(t, i, prefix)| == CountFrom(t, i)
    decreases t, 0, |t.children| - i
  {
    if i < |t.children| {
      var c := t.children[i];
      var np := prefix + (if i == |t.children| - 1 then Blank else Pipe);
      RenderCount(c.sub, np);
      RenderFromCount(t, i + 1, prefix);
      if c.sub.children == [] {
        assert CountFrom(c.sub, 0) == 0;
      }
    }
  }

  /** Every line at a level starts with that level's prefix. */
  lemma {:induction false} RenderPrefix(t: Tree, prefix: string)
    ensures AllStartWith(Render(t, prefix), prefix)
    decreases t, 1
  {
    RenderFromPrefix(t, 0, prefix);
  }

  lemma {:induction false} RenderFromPrefix(t: Tree, i: nat, prefix: string)
    requires i <= |t.children|
    ensures AllStartWith(RenderFrom(t, i, prefix), prefix)
    decreases t, 0, |t.children| - i
  {
    if i < |t.children| {
      var c := t.children[i];
      var last := i == |t.children| - 1;
      var ext := if last then Blank else Pipe;
      var head := prefix + (if last then Corner else Tee) + c.name;
      var sub := if c.sub.children != [] then Render(c.sub, prefix + ext) else [];
      RenderPrefix(c.sub, prefix + ext);
      RenderFromPrefix(t, i + 1, prefix);
      assert head[..|prefix|] == prefix;
      IndentedBlock(head, sub, ext, RenderFrom(t, i + 1, prefix), prefix);
    }
  }

  /** The first line printed for entry `i` names it, after `└── ` when it is the
      last sibling and `├── ` otherwise. */
  lemma RenderFromHead(t: Tree, i: nat, prefix: string)
    requires i < |t.children|
    ensures RenderFrom(t, i, prefix) != []
    ensures RenderFrom(t, i, prefix)[0]
      == prefix + (if i == |t.children| - 1 then Corner else Tee) + t.children[i].name
  {
  }

  /** `print_tree(file_list)` as stringify.py and stringify/utils.py have it:
      every path's last segment is inserted. */
  method PrintTree(fileList: seq<string>) returns (lines: seq<string>)
    ensures lines == Render(Build(fileList, p => p, _ => true), "")
  {
    var tree := BuildTree(fileList, p => p, _ => true);
    lines := Render(tree, "");
  }

  /** `print_tree(file_list, include_dirs)` of rstring/utils.py: a path's last
      segment is inserted when `include_dirs` is set or the path is a file. */
  method PrintTreeFiles(fileList: seq<string>, includeDirs: bool, isFile: string -> bool,
                        isDir: (seq<string>, string) -> bool)
    returns (lines: seq<string>)
    ensures lines == Render(Build(fileList, p => p, p => includeDirs || isFile(p)), "")
  {
    var tree := BuildTree(fileList, p => p, p => includeDirs || isFile(p));
    lines := RenderDirs(tree, "", (keys, name) => includeDirs && isDir(keys, name));
    RenderDirsSame(tree, "", (keys, name) => includeDirs && isDir(keys, name));
  }

  // ---------------------------------------------------------------------------
  // The repository's print_tree test, stated for any five names of its shape

  predicate Segment(s: string) {
    '/' !in s
  }

  lemma SplitTwo(a: string, b: string)
    requires Segment(a) && Segment(b)
    ensures SplitOn(a + "/" + b, '/') == [a, b]
  {
    assert JoinWith("/", [a, b]) == a + "/" + b;
    SplitOnJoin([a, b], '/');
  }

  lemma SplitThree(a: string, b: string, c: string)
    requires Segment(a) && Segment(b) && Segment(c)
    ensures SplitOn(a + "/" + b + "/" + c, '/') == [a, b, c]
  {
    assert [a, b, c][1..] == [b, c];
    assert JoinWith("/", [b, c]) == b + "/" + c;
    assert JoinWith("/", [a, b, c]) == a + "/" + JoinWith("/", [b, c]);
    assert a + "/" + b + "/" + c == a + "/" + (b + "/" + c);
    SplitOnJoin([a, b, c], '/');
  }

  /** A kept name new to its node goes last. */
  lemma PutNew(cs: seq<Child>, name: string)
    requires forall k :: 0 <= k < |cs| ==> cs[k].name != name
    ensures Put(Tree(cs), name, Empty) == Tree(cs + [Child(name, Empty)])
    ensures InsertPath(Tree(cs), [name], true) == Tree(cs + [Child(name, Empty)])
  {
    FindMissing(cs, name);
  }

  lemma ShapeInsert1(d1: string, f1: string)
    ensures InsertPath(Empty, [d1, f1], true) == Tree([Child(d1, Tree([Child(f1, Empty)]))])
  {
    assert [d1, f1][1..] == [f1];
    PutNew([], f1);
    assert [] + [Child(f1, Empty)] == [Child(f1, Empty)];
    assert Find([], d1) == -1;
    assert Get(Empty, d1) == Empty;
    assert InsertPath(Empty, [d1, f1], true) == Put(Empty, d1, Tree([Child(f1, Empty)]));
    assert [] + [Child(d1, Tree([Child(f1, Empty)]))] == [Child(d1, Tree([Child(f1, Empty)]))];
  }

  lemma ShapeInsert2(d1: string, f1: string, d2: string, f2: string)
    requires f1 != d2
    ensures InsertPath(Tree([Child(d1, Tree([Child(f1, Empty)]))]), [d1, d2, f2], true)
      == Tree([Child(d1, Tree([Child(f1, Empty), Child(d2, Tree([Child(f2, Empty)]))]))])
  {
    var t := Tree([Child(d1, Tree([Child(f1, Empty)]))]);
    assert Find(t.children, d1) == 0;
    assert Get(t, d1) == Tree([Child(f1, Empty)]);
    assert [d1, d2, f2][1..] == [d2, f2];
    assert [d2, f2][1..] == [f2];
    PutNew([], f2);
    assert [] + [Child(f2, Empty)] == [Child(f2, Empty)];
    assert Find([Child(f1, Empty)], d2) == -1;
    assert Get(Tree([Child(f1, Empty)]), d2) == Empty;
    var sub := Tree([Child(f1, Empty), Child(d2, Tree([Child(f2, Empty)]))]);
    assert InsertPath(Tree([Child(f1, Empty)]), [d2, f2], true) == sub;
    assert t.children[0 := Child(d1, sub)] == [Child(d1, sub)];
  }

  lemma ShapeInsert3(t: Tree, d1: string, f3: string)
    requires d1 != f3
    ensures InsertPath(Tree([Child(d1, t)]), [f3], true) == Tree([Child(d1, t), Child(f3, Empty)])
  {
    PutNew([Child(d1, t)], f3);
  }

  /** The shape of the test's tree: `d1` holding `f1` and `d2`, `d2` holding
      `f2`, then `f3` at the top. */
  function Shape(d1: string, f1: string, d2: string, f2: string, f3: string): Tree {
    Tree([Child(d1, Tree([Child(f1, Empty), Child(d2, Tree([Child(f2, Empty)]))])), Child(f3, Empty)])
  }

  lemma ShapeBuild(d1: string, f1: string, d2: string, f2: string, f3: string, keep: string -> bool)
    requires Segment(d1) && Segment(f1) && Segment(d2) && Segment(f2) && Segment(f3)
    requires f1 != d2 && d1 != f3
    requires keep(d1 + "/" + f1) && keep(d1 + "/" + d2 + "/" + f2) && keep(f3)
    ensures Build([d1 + "/" + f1, d1 + "/" + d2 + "/" + f2, f3], p => p, keep) == Shape(d1, f1, d2, f2, f3)
  {
    var paths := [d1 + "/" + f1, d1 + "/" + d2 + "/" + f2, f3];
    SplitTwo(d1, f1);
    SplitThree(d1, d2, f2);
    SplitOnJoin([f3], '/');
    assert paths[..2][..1][..0] == [];
    assert Build(paths[..2][..1], p => p, keep) == Tree([Child(d1, Tree([Child(f1, Empty)]))]) by {
      ShapeInsert1(d1, f1);
    }
    ShapeInsert2(d1, f1, d2, f2);
    ShapeInsert3(Tree([Child(f1, Empty), Child(d2, Tree([Child(f2, Empty)]))]), d1, f3);
  }

  lemma ShapeRender(d1: string, f1: string, d2: string, f2: string, f3: string)
    ensures Render(Shape(d1, f1, d2, f2, f3), "")
      == [Tee + d1, Pipe + Tee + f1, Pipe + Corner + d2, Pipe + Blank + Corner + f2, Corner + f3]
  {
    var inner := Tree([Child(f2, Empty)]);
    var mid := Tree([Child(f1, Empty), Child(d2, inner)]);
    var top := Shape(d1, f1, d2, f2, f3);
    assert Render(Empty, "") == [];
    assert RenderFrom(inner, 1, Pipe + Blank) == [];
    assert Render(inner, Pipe + Blank) == [Pipe + Blank + Corner + f2];
    assert RenderFrom(mid, 2, Pipe) == [];
    assert RenderFrom(mid, 1, Pipe) == [Pipe + Corner + d2] + [Pipe + Blank + Corner + f2];
    assert RenderFrom(mid, 0, Pipe) == [Pipe + Tee + f1] + RenderFrom(mid, 1, Pipe);
    assert "" + Pipe == Pipe && "" + Tee == Tee && "" + Corner == Corner;
    assert RenderFrom(top, 2, "") == [];
    assert RenderFrom(top, 1, "") == [Corner + f3];
    assert RenderFrom(top, 0, "") == [Tee + d1] + Render(mid, Pipe) + RenderFrom(top, 1, "");
  }

  /** The test of `print_tree` in tests/test_rstring.py (lines for a tree of
      `dir1/file1.py`, `dir1/dir2/file2.py`, `file3.py`, every one a file),
      with the names left open: the five expected lines are printed. */
  lemma TestPrintTree(d1: string, f1: string, d2: string, f2: string, f3: string, isFile: string -> bool)
    requires Segment(d1) && Segment(f1) && Segment(d2) && Segment(f2) && Segment(f3)
    requires f1 != d2 && d1 != f3
    requires isFile(d1 + "/" + f1) && isFile(d1 + "/" + d2 + "/" + f2) && isFile(f3)
    ensures Render(Build([d1 + "/" + f1, d1 + "/" + d2 + "/" + f2, f3], p => p, p => false || isFile(p)), "")
      == [Tee + d1, Pipe + Tee + f1, Pipe + Corner + d2, Pipe + Blank + Corner + f2, Corner + f3]
  {
    ShapeBuild(d1, f1, d2, f2, f3, p => false || isFile(p));
    ShapeRender(d1, f1, d2, f2, f3);
  }
}
