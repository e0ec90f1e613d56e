/** The handful of Python string and `posixpath` built-ins the tool relies on,
    written out so that the rest of the model can reason about them.
    Paths use `/` as the separator (`os.sep` on a POSIX system). */
module PyText {

  /** `str.isspace` for one character. */
  predicate IsSpace(c: char) {
    c == ' ' || '\t' <= c <= '\r' || '\U{1c}' <= c <= '\U{1f}' || c == '\U{85}' || c == '\U{a0}'
    || c == '\U{1680}' || '\U{2000}' <= c <= '\U{200a}' || c == '\U{2028}' || c == '\U{2029}'
    || c == '\U{202f}' || c == '\U{205f}' || c == '\U{3000}'
  }

  /** The characters at which `str.splitlines` breaks a line. */
  predicate IsLineBreak(c: char) {
    '\n' <= c <= '\r' || '\U{1c}' <= c <= '\U{1e}' || c == '\U{85}' || c == '\U{2028}' || c == '\U{2029}'
  }

  predicate NoSpace(s: string) {
    forall k :: 0 <= k < |s| ==> !IsSpace(s[k])
  }

  predicate AllSpace(s: string) {
    forall k :: 0 <= k < |s| ==> IsSpace(s[k])
  }

  predicate NoLineBreak(s: string) {
    forall k :: 0 <= k < |s| ==> !IsLineBreak(s[k])
  }

  /** `s.startswith(p)` */
  predicate StartsWith(s: string, p: string) {
    |p| <= |s| && s[..|p|] == p
  }

  /** Every line starts with `p`. */
  predicate AllStartWith(lines: seq<string>, p: string) {
    forall k :: 0 <= k < |lines| ==> StartsWith(lines[k], p)
  }

  /** `s.endswith(p)` */
  predicate EndsWith(s: string, p: string) {
    |p| <= |s| && s[|s| - |p|..] == p
  }

  // ---------------------------------------------------------------------------
  // str.split() with no separator

  /** Every string of `rows` followed by `\n`, concatenated. */
  function Terminated(rows: seq<string>): string {
    if rows == [] then "" else rows[0] + "\n" + Terminated(rows[1..])
  }

  /** Length of the longest whitespace-free prefix of `s`. */
  function WordLength(s: string): (n: nat)
    ensures n <= |s|
  {
    if s == [] || IsSpace(s[0]) then 0 else 1 + WordLength(s[1..])
  }

  /** A field of `str.split()`: a non-empty run of non-whitespace. */
  predicate IsField(f: string) {
    f != [] && NoSpace(f)
  }

  /** `s.split()`: the maximal runs of non-whitespace characters, in order. */
  function SplitFields(s: string): (fs: seq<string>)
    decreases |s|
  {
    if s == [] then []
    else if IsSpace(s[0]) then SplitFields(s[1..])
    else
      var n := WordLength(s);
      [s[..n]] + SplitFields(s[n..])
  }

  /** `sep.join(xs)` */
  function JoinWith(sep: string, xs: seq<string>): string {
    if xs == [] then ""
    else if |xs| == 1 then xs[0]
    else xs[0] + sep + JoinWith(sep, xs[1..])
  }

  // ---------------------------------------------------------------------------
  // str.split(c) with a one-character separator

  /** Index of the first `c` in `s`. */
  function IndexOf(s: string, c: char): (i: nat)
    requires c in s
    ensures i < |s| && s[i] == c && c !in s[..i]
  {
    if s[0] == c then 0 else 1 + IndexOf(s[1..], c)
  }

  /** `s.split(c)`: never empty, no part holds `c`, and joining with `c` gives `s` back. */
  function SplitOn(s: string, c: char): (parts: seq<string>)
    ensures |parts| >= 1
    ensures forall i :: 0 <= i < |parts| ==> c !in parts[i]
    ensures JoinWith([c], parts) == s
    decreases |s|
  {
    if c !in s then [s]
    else
      var i := IndexOf(s, c);
      var rest := SplitOn(s[i + 1..], c);
      assert s == s[..i] + [c] + s[i + 1..];
      [s[..i]] + rest
  }

  // ---------------------------------------------------------------------------
  // str.splitlines() and str.strip()

  /** Index of the first line break in `s`, or `|s|` when there is none. */
  function LineEnd(s: string): (i: nat)
    ensures i <= |s|
    ensures NoLineBreak(s[..i])
    ensures i < |s| ==> IsLineBreak(s[i])
  {
    if s == [] || IsLineBreak(s[0]) then 0 else 1 + LineEnd(s[1..])
  }

  /** `s.splitlines()`: a trailing line break does not start an empty last line,
      and `\r\n` counts as one break. */
  function SplitLines(s: string): (lines: seq<string>)
    ensures forall k :: 0 <= k < |lines| ==> NoLineBreak(lines[k])
    ensures s == [] <==> lines == []
    decreases |s|
  {
    if s == [] then []
    else
      var i := LineEnd(s);
      if i == |s| then [s]
      else
        var skip := if s[i] == '\r' && i + 1 < |s| && s[i + 1] == '\n' then 2 else 1;
        [s[..i]] + SplitLines(s[i + skip..])
  }

  /** `s.lstrip()` */
  function StripLeft(s: string): (r: string)
    ensures |r| <= |s|
  {
    if s != [] && IsSpace(s[0]) then StripLeft(s[1..]) else s
  }

  /** `s.rstrip()` */
  function StripRight(s: string): (r: string)
    ensures |r| <= |s|
  {
    if s != [] && IsSpace(s[|s| - 1]) then StripRight(s[..|s| - 1]) else s
  }

  /** `s.strip()` */
  function Strip(s: string): string {
    StripRight(StripLeft(s))
  }

  // ---------------------------------------------------------------------------
  // str.lower() restricted to ASCII letters

  function LowerChar(c: char): (d: char)
    ensures 'A' <= c <= 'Z' ==> d as int == c as int + 32
    ensures !('A' <= c <= 'Z') ==> d == c
  {
    if 'A' <= c <= 'Z' then (c as int + 32) as char else c
  }

  /** `s.lower()` on ASCII letters; every other character is left as it is. */
  function Lower(s: string): (r: string)
    ensures |r| == |s| && forall k :: 0 <= k < |s| ==> r[k] == LowerChar(s[k])
  {
    seq(|s|, k requires 0 <= k < |s| => LowerChar(s[k]))
  }

  // ---------------------------------------------------------------------------
  // posixpath

  /** `s.rfind(c)`: the last index of `c` in `s`, or -1. */
  function RFind(s: string, c: char): (i: int)
    ensures -1 <= i < |s|
    ensures 0 <= i ==> s[i] == c
    ensures c !in s[i + 1..]
  {
    if s == [] then -1
    else if s[|s| - 1] == c then |s| - 1
    else RFind(s[..|s| - 1], c)
  }

  predicate AllSlashes(s: string) {
    forall k :: 0 <= k < |s| ==> s[k] == '/'
  }

  /** `s.rstrip('/')` */
  function StripTrailingSlashes(s: string): (r: string)
    ensures |r| <= |s| && r == s[..|r|] && AllSlashes(s[|r|..])
    ensures r == [] || r[|r| - 1] != '/'
  {
    if s != [] && s[|s| - 1] == '/' then StripTrailingSlashes(s[..|s| - 1]) else s
  }

  /** `posixpath.dirname`: everything up to the last `/`, with trailing slashes
      dropped unless nothing but slashes is left. */
  function Dirname(p: string): (d: string)
    ensures '/' !in p ==> d == ""
    ensures '/' in p ==> d != ""
  {
    var head := p[..RFind(p, '/') + 1];
    if head != [] && !AllSlashes(head) then StripTrailingSlashes(head) else head
  }

  /** `posixpath.basename`: everything after the last `/`. */
  function Basename(p: string): (b: string)
    ensures '/' !in b
    ensures EndsWith(p, b)
    ensures b == p || p[|p| - |b| - 1] == '/'
  {
    p[RFind(p, '/') + 1..]
  }

  /** `posixpath.join(a, b)` */
  function PathJoin(a: string, b: string): (r: string)
    ensures StartsWith(b, "/") ==> r == b
    ensures EndsWith(r, b)
    ensures !StartsWith(b, "/") ==> StartsWith(r, a) && (r == a + b || r == a + "/" + b)
    ensures !StartsWith(b, "/") ==> (r == a + "/" + b <==> a != [] && !EndsWith(a, "/"))
  {
    if StartsWith(b, "/") then b
    else if a == [] || EndsWith(a, "/") then a + b
    else a + "/" + b
  }

  // ---------------------------------------------------------------------------
  // posixpath.commonprefix

  /** The longest common prefix of two strings. */
  function CommonPrefix2(a: string, b: string): (p: string)
    ensures p <= a && p <= b
    ensures |p| == |a| || |p| == |b| || a[|p|] != b[|p|]
  {
    if a == [] || b == [] || a[0] != b[0] then []
    else [a[0]] + CommonPrefix2(a[1..], b[1..])
  }

  /** `os.path.commonprefix(xs)`: the character-wise longest common prefix of all of
      `xs` (empty for an empty list). It is a prefix of every element, and it cannot
      be extended: some element ends there, or two elements differ there. */
  function CommonPrefix(xs: seq<string>): (p: string)
    ensures xs == [] ==> p == []
    ensures forall i :: 0 <= i < |xs| ==> p <= xs[i]
    ensures xs != [] ==>
      (exists i :: 0 <= i < |xs| && |xs[i]| == |p|)
      || (exists i, j :: 0 <= i < |xs| && 0 <= j < |xs| && |p| < |xs[i]| && |p| < |xs[j]| && xs[i][|p|] != xs[j][|p|])
  {
    if xs == [] then []
    else if |xs| == 1 then xs[0]
    else
      var q := CommonPrefix(xs[1..]);
      var p := CommonPrefix2(xs[0], q);
      assert forall i :: 1 <= i < |xs| ==> xs[i] == xs[1..][i - 1];
      if |p| == |xs[0]| then p
      else if |p| == |q| then
        p
      else
        assert q <= xs[1];
        assert xs[1][|p|] == q[|p|];
        p
  }
}

module PyTextFacts {
  import opened PyText

  lemma LineEndIs(s: string, j: nat)
    requires j < |s| && NoLineBreak(s[..j]) && IsLineBreak(s[j])
    ensures LineEnd(s) == j
  {
    if j > 0 {
      assert s[..j][0] == s[0];
      assert s[1..][..j - 1] == s[..j][1..];
      LineEndIs(s[1..], j - 1);
    }
  }

  lemma WordLengthIs(s: string, n: nat)
    requires n <= |s| && NoSpace(s[..n]) && (n == |s| || IsSpace(s[n]))
    ensures WordLength(s) == n
  {
    if n > 0 {
      assert s[..n][0] == s[0];
      assert s[1..][..n - 1] == s[..n][1..];
      WordLengthIs(s[1..], n - 1);
    }
  }

  lemma {:induction false} WordLengthFacts(s: string)
    ensures NoSpace(s[..WordLength(s)])
    ensures WordLength(s) < |s| ==> IsSpace(s[WordLength(s)])
  {
    if s != [] && !IsSpace(s[0]) {
      WordLengthFacts(s[1..]);
      var n := WordLength(s);
      assert s[..n] == [s[0]] + s[1..][..n - 1];
    }
  }

  /** Every element of `s.split()` is a field. */
  lemma {:induction false} SplitFieldsAreFields(s: string)
    ensures forall i :: 0 <= i < |SplitFields(s)| ==> IsField(SplitFields(s)[i])
    decreases |s|
  {
    if s != [] {
      if IsSpace(s[0]) {
        SplitFieldsAreFields(s[1..]);
      } else {
        var n := WordLength(s);
        WordLengthFacts(s);
        SplitFieldsAreFields(s[n..]);
      }
    }
  }

  lemma StripLeftIs(s: string, i: nat)
    requires i <= |s| && AllSpace(s[..i]) && (i == |s| || !IsSpace(s[i]))
    ensures StripLeft(s) == s[i..]
  {
    if i > 0 {
      assert s[..i][0] == s[0];
      assert s[1..][..i - 1] == s[..i][1..];
      StripLeftIs(s[1..], i - 1);
      assert s[1..][i - 1..] == s[i..];
    }
  }

  lemma StripRightIs(s: string, j: nat)
    requires j <= |s| && AllSpace(s[j..]) && (j == 0 || !IsSpace(s[j - 1]))
    ensures StripRight(s) == s[..j]
    decreases |s|
  {
    if j < |s| {
      var t := s[..|s| - 1];
      assert s[j..][|s| - 1 - j] == s[|s| - 1];
      assert t[j..] == s[j..|s| - 1];
      assert t[..j] == s[..j];
      StripRightIs(t, j);
    }
  }

  /** `strip()` is determined by where the whitespace at each end stops. */
  lemma StripIs(s: string, i: nat, j: nat)
    requires i <= j <= |s| && AllSpace(s[..i]) && AllSpace(s[j..])
    requires i == j || (!IsSpace(s[i]) && !IsSpace(s[j - 1]))
    ensures Strip(s) == s[i..j]
  {
    if i == j {
      forall k | 0 <= k < |s|
        ensures IsSpace(s[k])
      {
        if k < i {
          assert s[..i][k] == s[k];
        } else {
          assert s[j..][k - j] == s[k];
        }
      }
      assert s[..|s|] == s;
      StripLeftIs(s, |s|);
    } else {
      StripLeftIs(s, i);
      var l := s[i..];
      assert l[j - i..] == s[j..];
      assert l[j - i - 1] == s[j - 1];
      StripRightIs(l, j - i);
      assert l[..j - i] == s[i..j];
    }
  }

  /** `splitlines` cuts a break-free prefix followed by `\n` off as one line. */
  lemma SplitLinesCons(a: string, rest: string)
    requires NoLineBreak(a)
    ensures SplitLines(a + "\n" + rest) == [a] + SplitLines(rest)
  {
    var s := a + "\n" + rest;
    assert s[..|a|] == a;
    LineEndIs(s, |a|);
    assert s[|a| + 1..] == rest;
  }

  /** Leading whitespace does not change `split()`. */
  lemma {:induction false} SplitFieldsSkip(sp: string, t: string)
    requires AllSpace(sp)
    ensures SplitFields(sp + t) == SplitFields(t)
  {
    if sp != [] {
      assert (sp + t)[1..] == sp[1..] + t;
      assert IsSpace(sp[0]);
      SplitFieldsSkip(sp[1..], t);
    } else {
      assert sp + t == t;
    }
  }

  /** `split()` of a string that starts with a field. */
  lemma SplitFieldsFirst(w: string, rest: string)
    requires IsField(w) && (rest == [] || IsSpace(rest[0]))
    ensures SplitFields(w + rest) == [w] + SplitFields(rest)
  {
    var s := w + rest;
    assert s[..|w|] == w;
    WordLengthIs(s, |w|);
    assert s[|w|..] == rest;
  }

  /** `split()` skips leading whitespace and takes one field. */
  lemma SplitFieldsCons(sp: string, w: string, rest: string)
    requires AllSpace(sp) && IsField(w) && (rest == [] || IsSpace(rest[0]))
    ensures SplitFields(sp + (w + rest)) == [w] + SplitFields(rest)
  {
    SplitFieldsSkip(sp, w + rest);
    SplitFieldsFirst(w, rest);
  }

  /** `split()` of whitespace followed by one last field. */
  lemma SplitFieldsLast(sp: string, w: string)
    requires AllSpace(sp) && IsField(w)
    ensures SplitFields(sp + w) == [w]
  {
    SplitFieldsCons(sp, w, []);
    assert w + [] == w;
  }

  /** `splitlines` undoes terminating every line with `\n`. */
  lemma {:induction false} SplitLinesTerminated(rows: seq<string>)
    requires forall k :: 0 <= k < |rows| ==> NoLineBreak(rows[k])
    ensures SplitLines(Terminated(rows)) == rows
  {
    if rows != [] {
      SplitLinesTerminated(rows[1..]);
      SplitLinesCons(rows[0], Terminated(rows[1..]));
    }
  }

  /** `split()` undoes `" ".join` on fields. */
  lemma {:induction false} SplitFieldsJoin(ws: seq<string>)
    requires ws != [] && forall i :: 0 <= i < |ws| ==> IsField(ws[i])
    ensures SplitFields(JoinWith(" ", ws)) == ws
  {
    if |ws| == 1 {
      SplitFieldsFirst(ws[0], []);
      assert ws[0] + [] == ws[0];
    } else {
      var j := JoinWith(" ", ws[1..]);
      assert SplitFields(j) == ws[1..] by {
        SplitFieldsJoin(ws[1..]);
      }
      assert SplitFields(" " + j) == SplitFields(j) by {
        assert IsField(ws[1]);
        SplitFieldsSkip(" ", j);
      }
      assert SplitFields(ws[0] + (" " + j)) == [ws[0]] + SplitFields(" " + j) by {
        assert IsField(ws[0]);
        SplitFieldsFirst(ws[0], " " + j);
      }
      assert JoinWith(" ", ws) == ws[0] + (" " + j) by {
        assert ws[0] + " " + j == ws[0] + (" " + j);
      }
      assert [ws[0]] + ws[1..] == ws;
    }
  }

  lemma {:induction false} JoinStartsWithFirst(ws: seq<string>)
    requires ws != [] && ws[0] != []
    ensures JoinWith(" ", ws) != [] && JoinWith(" ", ws)[0] == ws[0][0]
  {
  }

  /** `c.join(parts).split(c)` gives the parts back when none of them holds
      `c`: the other half of the round trip `SplitOn` states. */
  lemma {:induction false} SplitOnJoin(parts: seq<string>, c: char)
    requires |parts| >= 1
    requires forall i :: 0 <= i < |parts| ==> c !in parts[i]
    ensures SplitOn(JoinWith([c], parts), c) == parts
  {
    if |parts| > 1 {
      var rest := JoinWith([c], parts[1..]);
      var s := JoinWith([c], parts);
      assert s == parts[0] + [c] + rest;
      assert s[|parts[0]|] == c;
      assert s[..|parts[0]|] == parts[0];
      var i := IndexOf(s, c);
      assert forall k :: 0 <= k < |parts[0]| ==> s[k] == parts[0][k];
      assert forall k :: 0 <= k < i ==> s[..i][k] == s[k];
      assert i == |parts[0]|;
      assert s[i + 1..] == rest;
      SplitOnJoin(parts[1..], c);
    }
  }

  /** The joined text begins with the first element. */
  lemma JoinWithFirst(sep: string, xs: seq<string>)
    requires xs != []
    ensures StartsWith(JoinWith(sep, xs), xs[0])
  {
    if |xs| > 1 {
      assert (xs[0] + sep + JoinWith(sep, xs[1..]))[..|xs[0]|] == xs[0];
    }
  }

  /** A line starting with `p`, lines starting with `p` extended, and lines
      starting with `p` all start with `p`. */
  lemma IndentedBlock(head: string, sub: seq<string>, ext: string, tail: seq<string>, p: string)
    requires StartsWith(head, p) && AllStartWith(sub, p + ext) && AllStartWith(tail, p)
    ensures AllStartWith([head] + sub + tail, p)
  {
    var all := [head] + sub + tail;
    forall k | 0 <= k < |all|
      ensures StartsWith(all[k], p)
    {
      if k == 0 {
      } else if k <= |sub| {
        assert all[k] == sub[k - 1];
        assert sub[k - 1][..|p + ext|] == p + ext;
        assert (p + ext)[..|p|] == p;
      } else {
        assert all[k] == tail[k - 1 - |sub|];
      }
    }
  }

  /** Stripping the one `/` after a part that does not end with one. */
  lemma StripOneSlash(r: string)
    requires r != [] && r[|r| - 1] != '/'
    ensures StripTrailingSlashes(r + "/") == r
    ensures !EndsWith(r, "/")
  {
    assert (r + "/")[..|r|] == r;
    assert r[|r| - 1..] == [r[|r| - 1]];
  }

  /** A base name never starts with `/`. */
  lemma BasenameNotAbsolute(p: string)
    ensures !StartsWith(Basename(p), "/")
  {
    var b := Basename(p);
    assert |b| > 0 ==> b[0] in b;
  }

  /** Stripping the one `/` at the end of `h`. */
  lemma StripLastSlash(h: string)
    requires |h| >= 2 && h[|h| - 1] == '/' && h[|h| - 2] != '/'
    ensures StripTrailingSlashes(h) == h[..|h| - 1]
  {
    var r := h[..|h| - 1];
    assert r[|r| - 1] != '/';
    assert StripTrailingSlashes(h) == StripTrailingSlashes(r);
  }

  /** When the last `/` of `p` follows another character, the directory name
      is everything before that `/`. */
  lemma DirnameAfterPart(p: string)
    requires RFind(p, '/') >= 1 && p[RFind(p, '/') - 1] != '/'
    ensures Dirname(p) == p[..RFind(p, '/')]
  {
    var i := RFind(p, '/');
    var head := p[..i + 1];
    assert head[i - 1] != '/' && head[i] == '/';
    assert !AllSlashes(head);
    StripLastSlash(head);
    assert head[..i] == p[..i];
  }

  /** Joining a part that does not end with `/` puts exactly one `/` in. */
  lemma JoinParts(r: string, b: string)
    requires r != [] && r[|r| - 1] != '/' && !StartsWith(b, "/")
    ensures PathJoin(r, b) == r + "/" + b
  {
    StripOneSlash(r);
  }

  lemma SplitAtSlash(p: string, i: int)
    requires 0 <= i < |p| && p[i] == '/'
    ensures p == p[..i] + "/" + p[i + 1..]
  {
  }

  /** The join when the last `/` of `p` follows another character. */
  lemma JoinAfterPart(p: string)
    requires RFind(p, '/') >= 1 && p[RFind(p, '/') - 1] != '/'
    ensures PathJoin(Dirname(p), Basename(p)) == p
  {
    var i := RFind(p, '/');
    DirnameAfterPart(p);
    BasenameNotAbsolute(p);
    JoinParts(p[..i], p[i + 1..]);
    SplitAtSlash(p, i);
  }

  /** The join when everything up to the last `/` of `p` is slashes. */
  lemma JoinAfterSlashes(p: string)
    requires AllSlashes(p[..RFind(p, '/') + 1])
    ensures PathJoin(Dirname(p), Basename(p)) == p
  {
    var i := RFind(p, '/');
    var head := p[..i + 1];
    var b := p[i + 1..];
    assert Dirname(p) == head;
    BasenameNotAbsolute(p);
    assert head == [] || EndsWith(head, "/") by {
      if head != [] {
        assert head[|head| - 1..] == [p[i]];
      }
    }
    assert PathJoin(head, b) == head + b;
    assert p == head + b;
  }

  /** `os.path.join(os.path.dirname(p), os.path.basename(p))` gives `p` back
      when `p` has no doubled `/`. */
  lemma DirnameBasenameJoin(p: string)
    requires forall k :: 0 <= k < |p| - 1 ==> !(p[k] == '/' && p[k + 1] == '/')
    ensures PathJoin(Dirname(p), Basename(p)) == p
  {
    var i := RFind(p, '/');
    if AllSlashes(p[..i + 1]) {
      JoinAfterSlashes(p);
    } else {
      assert i >= 1 && p[..i + 1][i - 1] == p[i - 1];
      JoinAfterPart(p);
    }
  }
}
