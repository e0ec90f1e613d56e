/** The text `gather_code` builds from a file list: one framed block per path,
    in list order (rstring/utils.py, stringify.py, stringify/utils.py). What a
    path is on disk and what its bytes are come from a `view` oracle; decoding
    UTF-8 with errors ignored is the `decode` oracle. */
module Gather {
  import opened PyText
  import opened Wrappers

  newtype byte = x: int | 0 <= x < 256

  /** A path as the file system shows it: a regular file whose bytes can be read
      (`None` when opening it raises), a directory, or neither. */
  datatype Found = RegularFile(bytes: Option<seq<byte>>) | Directory | Missing

  /** `preview_length is None or preview_length > 0`: whether file contents are
      shown at all. */
  predicate Shows(preview: Option<int>) {
    preview.None? || preview.value > 0
  }

  function Min(a: int, b: int): int {
    if a <= b then a else b
  }

  /** `is_binary`: a zero byte among the first 1024. */
  predicate IsBinary(bs: seq<byte>) {
    0 in bs[..Min(1024, |bs|)]
  }

  // ---------------------------------------------------------------------------
  // binascii.hexlify

  function HexDigit(n: int): (c: char)
    requires 0 <= n < 16
  {
    if n < 10 then '0' + (n as char) else 'a' + ((n - 10) as char)
  }

  /** Two lower-case hexadecimal digits per byte, high nibble first. */
  function Hexlify(bs: seq<byte>): (h: string)
    ensures |h| == 2 * |bs|
  {
    if bs == [] then []
    else [HexDigit(bs[0] as int / 16), HexDigit(bs[0] as int % 16)] + Hexlify(bs[1..])
  }

  function DigitValue(c: char): int {
    if '0' <= c <= '9' then c as int - '0' as int
    else if 'a' <= c <= 'f' then c as int - 'a' as int + 10
    else 0
  }

  /** `binascii.unhexlify` on lower-case digits: the inverse of `Hexlify`. */
  function Unhexlify(h: string): seq<byte>
    requires |h| % 2 == 0
    decreases |h|
  {
    if h == [] then []
    else
      var v := DigitValue(h[0]) * 16 + DigitValue(h[1]);
      [if 0 <= v < 256 then v as byte else 0] + Unhexlify(h[2..])
  }

  lemma DigitRoundTrip(n: int)
    requires 0 <= n < 16
    ensures DigitValue(HexDigit(n)) == n
  {
  }

  /** The hex text reads back as the bytes it was made from. */
  lemma {:induction false} HexRoundTrip(bs: seq<byte>)
    ensures Unhexlify(Hexlify(bs)) == bs
  {
    if bs != [] {
      var h := Hexlify(bs);
      var b := bs[0] as int;
      DigitRoundTrip(b / 16);
      DigitRoundTrip(b % 16);
      assert h[2..] == Hexlify(bs[1..]);
      HexRoundTrip(bs[1..]);
      assert bs == [bs[0]] + bs[1..];
    }
  }

  // ---------------------------------------------------------------------------
  // One block

  const DirectoryNote := "[Directory]"

  /** `f"--- {path} ---\n{data}\n\n"` */
  function Block(path: string, data: string): string {
    "--- " + path + " ---\n" + data + "\n\n"
  }

  /** `f"--- {path} ---\n\n"` */
  function Header(path: string): string {
    "--- " + path + " ---\n\n"
  }

  /** The line shown for a binary file: its first 32 bytes in hex. */
  function BinaryNote(bs: seq<byte>): string {
    "[Binary file, first 32 bytes: " + Hexlify(bs[..Min(32, |bs|)]) + "]"
  }

  /** `lines[:n]`, with Python's reading of a negative end. */
  function SliceTo<T>(lines: seq<T>, n: Option<int>): (r: seq<T>)
    ensures r <= lines
  {
    match n
    case None => lines
    case Some(k) =>
      if k >= 0 then lines[..Min(k, |lines|)]
      else if |lines| + k >= 0 then lines[..|lines| + k] else []
  }

  /** `'\n'.join(text.splitlines()[:preview_length])` */
  function TextPreview(text: string, preview: Option<int>): string {
    JoinWith("\n", SliceTo(SplitLines(text), preview))
  }

  /** What a regular file adds: nothing when reading raises (the error is
      logged), only the header when contents are not shown, else the binary
      note or the first lines of the text. */
  function FileBlock(path: string, bytes: Option<seq<byte>>, preview: Option<int>,
                     decode: seq<byte> -> string): string
  {
    match bytes
    case None => ""
    case Some(bs) =>
      if !Shows(preview) then Header(path)
      else if IsBinary(bs) then Block(path, BinaryNote(bs))
      else Block(path, TextPreview(decode(bs), preview))
  }

  /** What one path adds in rstring/utils.py: a directory gets a block only with
      `include_dirs`, anything else that is not a file gets none. */
  function Piece(path: string, found: Found, preview: Option<int>, includeDirs: bool,
                 decode: seq<byte> -> string): string
  {
    match found
    case RegularFile(bytes) => FileBlock(path, bytes, preview, decode)
    case Directory => if includeDirs then Block(path, DirectoryNote) else ""
    case Missing => ""
  }

  /** What one path adds in stringify.py and stringify/utils.py: every
      non-file, missing paths included, gets a `[Directory]` block. */
  function PieceAll(path: string, found: Found, preview: Option<int>, decode: seq<byte> -> string): string {
    match found
    case RegularFile(bytes) => FileBlock(path, bytes, preview, decode)
    case _ => Block(path, DirectoryNote)
  }

  /** The pieces of the paths, one after the other in list order. */
  function ConcatMap(paths: seq<string>, piece: string -> string): string {
    if paths == [] then ""
    else
      var n := |paths| - 1;
      ConcatMap(paths[..n], piece) + piece(paths[n])
  }

  function PieceOf(view: string -> Found, preview: Option<int>, includeDirs: bool,
                   decode: seq<byte> -> string): string -> string
  {
    p => Piece(p, view(p), preview, includeDirs, decode)
  }

  function PieceAllOf(view: string -> Found, preview: Option<int>, decode: seq<byte> -> string): string -> string {
    p => PieceAll(p, view(p), preview, decode)
  }

  /** The whole text of rstring's `gather_code`. */
  function Gathered(paths: seq<string>, view: string -> Found, preview: Option<int>, includeDirs: bool,
                    decode: seq<byte> -> string): string
  {
    ConcatMap(paths, PieceOf(view, preview, includeDirs, decode))
  }

  /** The whole text of the stringify `gather_code`. */
  function GatheredAll(paths: seq<string>, view: string -> Found, preview: Option<int>,
                       decode: seq<byte> -> string): string
  {
    ConcatMap(paths, PieceAllOf(view, preview, decode))
  }

  /** `gather_code(file_list, preview_length, include_dirs)` of
      rstring/utils.py. */
  method GatherCode(fileList: seq<string>, view: string -> Found, preview: Option<int>, includeDirs: bool,
                    decode: seq<byte> -> string)
    returns (result: string)
    ensures result == Gathered(fileList, view, preview, includeDirs, decode)
  {
    result := "";
    for i := 0 to |fileList|
      invariant result == Gathered(fileList[..i], view, preview, includeDirs, decode)
    {
      var filePath := fileList[i];
      assert fileList[..i + 1][..i] == fileList[..i];
      var found := view(filePath);
      if found.RegularFile? {
        if found.bytes.Some? {
          var bs := found.bytes.value;
          var fileData := "";
          if IsBinary(bs) {
            if Shows(preview) {
              fileData := BinaryNote(bs);
            }
          } else {
            fileData := JoinWith("\n", SliceTo(SplitLines(decode(bs)), preview));
          }
          if Shows(preview) {
            result := result + ("--- " + filePath + " ---\n" + fileData + "\n\n");
          } else {
            result := result + ("--- " + filePath + " ---\n\n");
          }
        }
      } else if includeDirs && found.Directory? {
        result := result + ("--- " + filePath + " ---\n" + DirectoryNote + "\n\n");
      }
    }
    assert fileList[..|fileList|] == fileList;
  }

  /** `gather_code(file_list, preview_length)` of stringify.py and
      stringify/utils.py. */
  method GatherCodeAll(fileList: seq<string>, view: string -> Found, preview: Option<int>,
                       decode: seq<byte> -> string)
    returns (result: string)
    ensures result == GatheredAll(fileList, view, preview, decode)
  {
    result := "";
    for i := 0 to |fileList|
      invariant result == GatheredAll(fileList[..i], view, preview, decode)
    {
      var filePath := fileList[i];
      assert fileList[..i + 1][..i] == fileList[..i];
      var found := view(filePath);
      if found.RegularFile? {
        if found.bytes.Some? {
          var bs := found.bytes.value;
          var fileData := "";
          if IsBinary(bs) {
            if Shows(preview) {
              fileData := BinaryNote(bs);
            }
          } else {
            fileData := JoinWith("\n", SliceTo(SplitLines(decode(bs)), preview));
          }
          if Shows(preview) {
            result := result + ("--- " + filePath + " ---\n" + fileData + "\n\n");
          } else {
            result := result + ("--- " + filePath + " ---\n\n");
          }
        }
      } else {
        result := result + ("--- " + filePath + " ---\n" + DirectoryNote + "\n\n");
      }
    }
    assert fileList[..|fileList|] == fileList;
  }

  // ---------------------------------------------------------------------------
  // Properties

  /** Concatenating over two runs of paths is concatenating over each. */
  lemma {:induction false} ConcatMapAppend(a: seq<string>, b: seq<string>, piece: string -> string)
    ensures ConcatMap(a + b, piece) == ConcatMap(a, piece) + ConcatMap(b, piece)
    decreases |b|
  {
    if b == [] {
      assert a + b == a;
    } else {
      var n := |b| - 1;
      assert (a + b)[..|a + b| - 1] == a + b[..n];
      assert (a + b)[|a + b| - 1] == b[n];
      ConcatMapAppend(a, b[..n], piece);
    }
  }

  /** The text of a list is the text of its first part followed by the text of
      the rest: one block per path, in list order. */
  lemma GatheredAppend(a: seq<string>, b: seq<string>, view: string -> Found,
                       preview: Option<int>, includeDirs: bool, decode: seq<byte> -> string)
    ensures Gathered(a + b, view, preview, includeDirs, decode)
      == Gathered(a, view, preview, includeDirs, decode) + Gathered(b, view, preview, includeDirs, decode)
  {
    ConcatMapAppend(a, b, PieceOf(view, preview, includeDirs, decode));
  }

  lemma GatheredAllAppend(a: seq<string>, b: seq<string>, view: string -> Found,
                          preview: Option<int>, decode: seq<byte> -> string)
    ensures GatheredAll(a + b, view, preview, decode)
      == GatheredAll(a, view, preview, decode) + GatheredAll(b, view, preview, decode)
  {
    ConcatMapAppend(a, b, PieceAllOf(view, preview, decode));
  }

  /** The two versions agree when directories are included and every path
      exists: they differ only on missing paths and on directories without
      `include_dirs`. */
  lemma {:induction false} VariantsAgree(paths: seq<string>, view: string -> Found, preview: Option<int>,
                                         decode: seq<byte> -> string)
    requires forall i :: 0 <= i < |paths| ==> !view(paths[i]).Missing?
    ensures Gathered(paths, view, preview, true, decode) == GatheredAll(paths, view, preview, decode)
  {
    if paths != [] {
      var n := |paths| - 1;
      assert forall i :: 0 <= i < n ==> paths[..n][i] == paths[i];
      VariantsAgree(paths[..n], view, preview, decode);
    }
  }

  /** When contents are not shown (`preview_length` zero or negative), a
      readable file gives only its header, binary or not. */
  lemma HeaderOnly(path: string, bs: seq<byte>, preview: Option<int>, decode: seq<byte> -> string)
    requires !Shows(preview)
    ensures FileBlock(path, Some(bs), preview, decode) == Header(path)
  {
  }

  /** When contents are shown, a binary file's block holds its note, whose hex
      reads back as the file's first 32 bytes (all of them when shorter); a
      text file's block holds the first `preview_length` lines of the decoded
      text (all of them when it has fewer, or when there is no limit), joined
      by `\n`. */
  lemma ShownContents(path: string, bs: seq<byte>, preview: Option<int>, decode: seq<byte> -> string)
    requires Shows(preview)
    ensures IsBinary(bs) ==> FileBlock(path, Some(bs), preview, decode) == Block(path, BinaryNote(bs))
    ensures Unhexlify(Hexlify(bs[..Min(32, |bs|)])) == bs[..Min(32, |bs|)]
    ensures Min(32, |bs|) == 32 || bs[..Min(32, |bs|)] == bs
    ensures var lines := SplitLines(decode(bs));
      preview.Some? && !IsBinary(bs) ==>
        FileBlock(path, Some(bs), preview, decode) == Block(path, JoinWith("\n", lines[..Min(preview.value, |lines|)]))
    ensures var lines := SplitLines(decode(bs));
      preview.None? && !IsBinary(bs) ==> FileBlock(path, Some(bs), preview, decode) == Block(path, JoinWith("\n", lines))
  {
    HexRoundTrip(bs[..Min(32, |bs|)]);
  }

  /** A directory's block: its header and `[Directory]`, in the stringify
      versions always, in rstring's with `include_dirs`; the stringify
      versions give a path that is neither file nor directory the same
      block. */
  lemma DirectoryBlocks(path: string, preview: Option<int>, decode: seq<byte> -> string)
    ensures PieceAll(path, Directory, preview, decode) == "--- " + path + " ---\n[Directory]\n\n"
    ensures PieceAll(path, Missing, preview, decode) == "--- " + path + " ---\n[Directory]\n\n"
    ensures Piece(path, Directory, preview, true, decode) == "--- " + path + " ---\n[Directory]\n\n"
    ensures Piece(path, Directory, preview, false, decode) == ""
  {
  }

  /** A path adds nothing in rstring's version exactly when it is an unreadable
      file, a directory without `include_dirs`, or neither a file nor a
      directory; the stringify versions add nothing only for an unreadable
      file. */
  lemma EmptyPieces(path: string, found: Found, preview: Option<int>, includeDirs: bool,
                    decode: seq<byte> -> string)
    ensures Piece(path, found, preview, includeDirs, decode) == ""
      <==> found == RegularFile(None) || (found.Directory? && !includeDirs) || found.Missing?
    ensures PieceAll(path, found, preview, decode) == "" <==> found == RegularFile(None)
  {
    if found.RegularFile? && found.bytes.Some? {
      var bs := found.bytes.value;
      if !Shows(preview) {
        assert |Header(path)| > 0;
      } else {
        assert |Block(path, if IsBinary(bs) then BinaryNote(bs) else TextPreview(decode(bs), preview))| > 0;
      }
    }
    if !found.RegularFile? {
      assert |Block(path, DirectoryNote)| > 0;
    }
  }

  /** Every block starts with the path's header line and ends with a blank
      line. */
  lemma BlockFrame(path: string, data: string)
    ensures StartsWith(Block(path, data), "--- " + path + " ---\n")
    ensures EndsWith(Block(path, data), "\n\n")
    ensures StartsWith(Header(path), "--- " + path + " ---\n") && EndsWith(Header(path), "\n\n")
  {
    var h := "--- " + path + " ---\n";
    assert Block(path, data) == h + (data + "\n\n");
    assert (h + (data + "\n\n"))[..|h|] == h;
    assert Header(path) == h + "\n";
    assert (h + "\n")[..|h|] == h;
  }
}
