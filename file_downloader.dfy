/**
 * The browser front end: which icon a listed file gets, the search filter,
 * the set of selected paths kept in step with the checkboxes, the derived
 * state of the download button, counter and select-all box, and the URL a
 * download navigates to. Rendering is reduced to one row per listed file.
 */
module Frontend {
  import opened Wrappers
  import opened Text
  import opened Decimal
  import opened Unicode
  import FileService

  type FileInfo = FileService.FileInfo

  // ---------------------------------------------------------------------------
  // Icons

  /** The icon table of getFileIcon, keyed by lower-case extension. */
  const IconTable: map<string, string> := map[
    "pdf" := "fa-file-pdf",
    "doc" := "fa-file-word",
    "docx" := "fa-file-word",
    "xls" := "fa-file-excel",
    "xlsx" := "fa-file-excel",
    "png" := "fa-file-image",
    "jpg" := "fa-file-image",
    "jpeg" := "fa-file-image",
    "gif" := "fa-file-image",
    "zip" := "fa-file-archive",
    "rar" := "fa-file-archive",
    "txt" := "fa-file-alt",
    "mp3" := "fa-file-audio",
    "mp4" := "fa-file-video"]

  const DefaultIcon: string := "fa-file"
  const FolderIcon: string := "fa-folder"

  /** filename.split('.').pop(): the text after the last dot, or the whole name. */
  function Extension(filename: string): (r: string)
    ensures '.' !in r
  {
    var pieces := SplitOn(filename, '.');
    pieces[|pieces| - 1]
  }

  /** A name ending in a dot and a dot-free extension has that extension. */
  lemma ExtensionAfterDot(stem: string, ext: string)
    requires '.' !in ext
    ensures Extension(stem + "." + ext) == ext
  {
    SplitConcat(stem, ext, '.');
    SplitWithoutSep(ext, '.');
  }

  /** A name without a dot is its own extension. */
  lemma ExtensionWithoutDot(name: string)
    requires '.' !in name
    ensures Extension(name) == name
  {
    SplitWithoutSep(name, '.');
  }

  /** getFileIcon, looking up only the table's own entries. */
  function GetFileIcon(filename: string): (r: string)
    ensures r == DefaultIcon || r in IconTable.Values
    ensures r == DefaultIcon <==> ToLower(Extension(filename)) !in IconTable
  {
    var ext := ToLower(Extension(filename));
    if ext in IconTable then IconTable[ext] else DefaultIcon
  }

  /** Case does not matter: an extension in any case gets the table's icon for it. */
  lemma IconOfExtension(stem: string, ext: string)
    requires '.' !in ext
    ensures GetFileIcon(stem + "." + ext) ==
      if ToLower(ext) in IconTable then IconTable[ToLower(ext)] else DefaultIcon
  {
    ExtensionAfterDot(stem, ext);
  }

  /** The value `icons[ext]` yields in JavaScript: an own entry, or a member inherited from Object.prototype. */
  datatype IconValue = ClassName(name: string) | PrototypeMember(key: string)

  /** The lower-case keys an object literal inherits from Object.prototype. */
  const PrototypeKeys: set<string> := {"constructor", "__proto__"}

  /** getFileIcon as written: `icons[ext] || 'fa-file'` also finds inherited members, which are truthy. */
  function GetFileIconAsWritten(filename: string): (r: IconValue)
    ensures ToLower(Extension(filename)) !in PrototypeKeys ==> r == ClassName(GetFileIcon(filename))
    ensures r.PrototypeMember? <==> ToLower(Extension(filename)) in PrototypeKeys
  {
    var ext := ToLower(Extension(filename));
    if ext in IconTable then ClassName(IconTable[ext])
    else if ext in PrototypeKeys then PrototypeMember(ext)
    else ClassName(DefaultIcon)
  }

  /** A file named "notes.constructor" gets Object's constructor function instead of an icon class. */
  lemma ConstructorExtensionMisread()
    ensures GetFileIconAsWritten("notes.constructor") == PrototypeMember("constructor")
    ensures GetFileIcon("notes.constructor") == DefaultIcon
  {
    ExtensionAfterDot("notes", "constructor");
    assert "notes" + "." + "constructor" == "notes.constructor";
    assert ToLower("constructor") == "constructor";
  }

  /** The icon createFileElement shows: a folder for every directory, else by name. */
  function IconFor(file: FileInfo): (r: string)
    ensures file.isDirectory <==> r == FolderIcon
  {
    if file.isDirectory then FolderIcon else GetFileIcon(file.name)
  }

  // ---------------------------------------------------------------------------
  // Search

  /** The name contains the search term, ignoring case. */
  predicate Matches(file: FileInfo, term: string)
  {
    Contains(ToLower(file.name), ToLower(term))
  }

  /** filterFiles: the files whose name contains the term, in listing order. */
  function Filter(files: seq<FileInfo>, term: string): (r: seq<FileInfo>)
    ensures |r| <= |files|
    ensures forall i :: 0 <= i < |r| ==> r[i] in files && Matches(r[i], term)
  {
    if files == [] then []
    else
      var last := files[|files| - 1];
      Filter(files[..|files| - 1], term) + (if Matches(last, term) then [last] else [])
  }

  /** Nothing that matches is dropped. */
  lemma {:induction false} FilterComplete(files: seq<FileInfo>, term: string)
    ensures forall i :: 0 <= i < |files| && Matches(files[i], term) ==> files[i] in Filter(files, term)
  {
    if files != [] {
      var front := files[..|files| - 1];
      FilterComplete(front, term);
      forall i | 0 <= i < |files| && Matches(files[i], term)
        ensures files[i] in Filter(files, term)
      {
        if i < |front| {
          assert front[i] == files[i];
        }
      }
    }
  }

  /** Filtering keeps order: the filter of a concatenation is the concatenation of the filters. */
  lemma {:induction false} FilterAppend(a: seq<FileInfo>, b: seq<FileInfo>, term: string)
    ensures Filter(a + b, term) == Filter(a, term) + Filter(b, term)
    decreases |b|
  {
    if b == [] {
      assert a + b == a;
    } else {
      var front, last := b[..|b| - 1], b[|b| - 1];
      assert (a + b)[..|a + b| - 1] == a + front;
      FilterAppend(a, front, term);
      var fa, ff, fl := Filter(a, term), Filter(front, term), if Matches(last, term) then [last] else [];
      assert fa + ff + fl == fa + (ff + fl);
    }
  }

  /** An empty search shows every file. */
  lemma {:induction false} FilterEmptyTerm(files: seq<FileInfo>)
    ensures Filter(files, "") == files
  {
    if files != [] {
      FilterEmptyTerm(files[..|files| - 1]);
      assert Matches(files[|files| - 1], "");
      assert files[..|files| - 1] + [files[|files| - 1]] == files;
    }
  }

  // ---------------------------------------------------------------------------
  // The selected paths: a JavaScript Set, which keeps insertion order

  predicate NoDups(s: seq<string>)
  {
    forall i, j :: 0 <= i < j < |s| ==> s[i] != s[j]
  }

  /** Set.prototype.add: a new path goes last; a present one stays where it is. */
  function SetAdd(s: seq<string>, x: string): (r: seq<string>)
    ensures forall y :: y in r <==> y in s || y == x
    ensures NoDups(s) ==> NoDups(r)
    ensures x in s ==> r == s
    ensures x !in s ==> r == s + [x]
  {
    if x in s then s else s + [x]
  }

  /** Set.prototype.delete: the path is removed, the others keep their order. */
  function SetDelete(s: seq<string>, x: string): (r: seq<string>)
    ensures forall y :: y in r <==> y in s && y != x
    ensures NoDups(s) ==> NoDups(r)
    ensures |r| <= |s|
  {
    if s == [] then []
    else
      var front, last := s[..|s| - 1], s[|s| - 1];
      var rest := SetDelete(front, x);
      assert NoDups(s) ==> last !in front && NoDups(front);
      if last == x then rest else rest + [last]
  }

  /** Deleting an absent path changes nothing. */
  lemma {:induction false} DeleteAbsent(s: seq<string>, x: string)
    requires x !in s
    ensures SetDelete(s, x) == s
  {
    if s != [] {
      DeleteAbsent(s[..|s| - 1], x);
      assert s[..|s| - 1] + [s[|s| - 1]] == s;
    }
  }

  /** Adding and deleting are idempotent. */
  lemma SelectionIdempotent(s: seq<string>, x: string)
    ensures SetAdd(SetAdd(s, x), x) == SetAdd(s, x)
    ensures SetDelete(SetDelete(s, x), x) == SetDelete(s, x)
  {
    DeleteAbsent(SetDelete(s, x), x);
  }

  /** Checking a new box and unchecking it again restores the selection exactly. */
  lemma AddThenDelete(s: seq<string>, x: string)
    requires x !in s
    ensures SetDelete(SetAdd(s, x), x) == s
  {
    var t := s + [x];
    assert t[..|t| - 1] == s;
    DeleteAbsent(s, x);
  }

  /** Deleting from a concatenation deletes from each part. */
  lemma {:induction false} SetDeleteAppend(a: seq<string>, b: seq<string>, x: string)
    ensures SetDelete(a + b, x) == SetDelete(a, x) + SetDelete(b, x)
    decreases |b|
  {
    if b == [] {
      assert a + b == a;
    } else {
      var front, last := b[..|b| - 1], b[|b| - 1];
      assert (a + b)[..|a + b| - 1] == a + front;
      SetDeleteAppend(a, front, x);
      var da, df := SetDelete(a, x), SetDelete(front, x);
      if last != x {
        assert da + df + [last] == da + (df + [last]);
      }
    }
  }

  /** Deleting a path removes it where it stands and keeps the others in their order. */
  lemma SetDeleteKeepsOrder(a: seq<string>, x: string, b: seq<string>)
    requires x !in a && x !in b
    ensures SetDelete(a + [x] + b, x) == a + b
  {
    SetDeleteAppend(a + [x], b, x);
    SetDeleteAppend(a, [x], x);
    assert SetDelete([x], x) == SetDelete([], x) == [];
    DeleteAbsent(a, x);
    DeleteAbsent(b, x);
  }

  /** The paths of `s` not among `gone`, in the order of `s`. */
  function Without(s: seq<string>, gone: seq<string>): (r: seq<string>)
    ensures forall y :: y in r <==> y in s && y !in gone
  {
    if s == [] then []
    else
      var rest := Without(s[..|s| - 1], gone);
      assert s == s[..|s| - 1] + [s[|s| - 1]];
      if s[|s| - 1] in gone then rest else rest + [s[|s| - 1]]
  }

  /** handleFileSelection on each of `paths` in turn, every box set to `checked`. */
  function SelectEach(s: seq<string>, paths: seq<string>, checked: bool): seq<string>
  {
    if paths == [] then s
    else
      var r := SelectEach(s, paths[..|paths| - 1], checked);
      if checked then SetAdd(r, paths[|paths| - 1]) else SetDelete(r, paths[|paths| - 1])
  }

  /**
   * After select-all, a path is selected exactly when it was before or is a
   * row's path (ticking), or was before and is no row's path (unticking); the
   * selection stays free of duplicates, and ticking keeps the old paths first.
   */
  lemma {:induction false} SelectEachMembers(s: seq<string>, paths: seq<string>, checked: bool)
    ensures forall p :: p in SelectEach(s, paths, checked) <==>
      if checked then p in s || p in paths else p in s && p !in paths
    ensures NoDups(s) ==> NoDups(SelectEach(s, paths, checked))
    ensures checked ==> |s| <= |SelectEach(s, paths, checked)| && SelectEach(s, paths, checked)[..|s|] == s
    decreases |paths|
  {
    if paths != [] {
      var front, p := paths[..|paths| - 1], paths[|paths| - 1];
      SelectEachMembers(s, front, checked);
      assert paths == front + [p];
    }
  }

  /** Selecting one more path of `paths` takes one more step. */
  lemma SelectEachStep(s: seq<string>, paths: seq<string>, i: nat, checked: bool)
    requires i < |paths|
    ensures SelectEach(s, paths[..i + 1], checked) ==
      if checked then SetAdd(SelectEach(s, paths[..i], checked), paths[i])
      else SetDelete(SelectEach(s, paths[..i], checked), paths[i])
  {
    assert paths[..i + 1][..i] == paths[..i];
  }

  /** Deleting from the paths kept so far is deleting one more path. */
  lemma {:induction false} DeleteFromWithout(s: seq<string>, gone: seq<string>, x: string)
    ensures SetDelete(Without(s, gone), x) == Without(s, gone + [x])
    decreases |s|
  {
    if s != [] {
      var front, last := s[..|s| - 1], s[|s| - 1];
      DeleteFromWithout(front, gone, x);
      var w := Without(front, gone);
      if last !in gone {
        assert (w + [last])[..|w + [last]| - 1] == w;
      }
    }
  }

  /** Unticking several boxes leaves the old selection without their paths, in its own order. */
  lemma {:induction false} SelectEachUnchecked(s: seq<string>, paths: seq<string>)
    ensures SelectEach(s, paths, false) == Without(s, paths)
    decreases |paths|
  {
    if paths == [] {
      WithoutNothing(s);
    } else {
      var front, p := paths[..|paths| - 1], paths[|paths| - 1];
      SelectEachUnchecked(s, front);
      DeleteFromWithout(s, front, p);
      assert front + [p] == paths;
    }
  }

  lemma {:induction false} WithoutNothing(s: seq<string>)
    ensures Without(s, []) == s
  {
    if s != [] {
      WithoutNothing(s[..|s| - 1]);
      assert s[..|s| - 1] + [s[|s| - 1]] == s;
    }
  }

  // ---------------------------------------------------------------------------
  // Rows and the derived UI state

  /** One rendered file row: the checkbox's data-path and data-size, its icon, and its checked state. */
  datatype Row = Row(path: string, size: int, icon: string, checked: bool)

  /** renderFiles: one unchecked row per file, in order. */
  function Render(files: seq<FileInfo>): (r: seq<Row>)
    ensures |r| == |files|
    ensures forall i :: 0 <= i < |files| ==>
      r[i] == Row(files[i].path, files[i].size, IconFor(files[i]), false)
  {
    seq(|files|, i requires 0 <= i < |files| => Row(files[i].path, files[i].size, IconFor(files[i]), false))
  }

  /** The rows' data-path values, in document order. */
  function RowPaths(rows: seq<Row>): (r: seq<string>)
    ensures |r| == |rows|
    ensures forall i :: 0 <= i < |rows| ==> r[i] == rows[i].path
  {
    seq(|rows|, i requires 0 <= i < |rows| => rows[i].path)
  }

  /** Every row with its box set to `checked`. */
  function CheckAll(rows: seq<Row>, checked: bool): (r: seq<Row>)
    ensures |r| == |rows|
    ensures forall k :: 0 <= k < |rows| ==> r[k] == rows[k].(checked := checked)
  {
    seq(|rows|, k requires 0 <= k < |rows| => rows[k].(checked := checked))
  }

  /** The rows after box `i` is set to `checked`. */
  function SetBox(rows: seq<Row>, i: nat, checked: bool): (r: seq<Row>)
    requires i < |rows|
    ensures |r| == |rows| && r[i].checked == checked
    ensures forall k :: 0 <= k < |rows| ==> r[k].path == rows[k].path
  {
    rows[i := rows[i].(checked := checked)]
  }

  /** The rows once the boxes before `i` are set to `checked`. */
  function Partial(rows: seq<Row>, i: nat, checked: bool): (r: seq<Row>)
    requires i <= |rows|
    ensures |r| == |rows|
  {
    seq(|rows|, k requires 0 <= k < |rows| => if k < i then rows[k].(checked := checked) else rows[k])
  }

  /** Before the first box, the rows are as rendered. */
  lemma PartialNone(rows: seq<Row>, checked: bool)
    ensures Partial(rows, 0, checked) == rows
  {
    assert forall k :: 0 <= k < |rows| ==> Partial(rows, 0, checked)[k] == rows[k];
  }

  /** After the last box, every row is set. */
  lemma PartialAll(rows: seq<Row>, checked: bool)
    ensures Partial(rows, |rows|, checked) == CheckAll(rows, checked)
  {
    assert forall k :: 0 <= k < |rows| ==> Partial(rows, |rows|, checked)[k] == CheckAll(rows, checked)[k];
  }

  /** Setting box `i` moves the boundary one row on, and box `i` is still as rendered before. */
  lemma PartialStep(rows: seq<Row>, i: nat, checked: bool)
    requires i < |rows|
    ensures Partial(rows, i, checked)[i] == rows[i]
    ensures SetBox(Partial(rows, i, checked), i, checked) == Partial(rows, i + 1, checked)
  {
    var p, q := Partial(rows, i, checked), Partial(rows, i + 1, checked);
    assert forall k :: 0 <= k < |rows| ==> SetBox(p, i, checked)[k] == q[k];
  }

  /** Select-all part way: the first `i` boxes set and their paths folded into the selection. */
  ghost predicate Stage(rows: seq<Row>, selected: seq<string>, rows0: seq<Row>, selected0: seq<string>, i: nat, checked: bool)
  {
    && i <= |rows0|
    && rows == Partial(rows0, i, checked)
    && selected == SelectEach(selected0, RowPaths(rows0)[..i], checked)
  }

  /** Before the first box, nothing has changed. */
  lemma StageStart(rows0: seq<Row>, selected0: seq<string>, checked: bool)
    ensures Stage(rows0, selected0, rows0, selected0, 0, checked)
  {
    PartialNone(rows0, checked);
    assert RowPaths(rows0)[..0] == [];
  }

  /** After the last box, every row is set and every path folded in. */
  lemma StageDone(rows: seq<Row>, selected: seq<string>, rows0: seq<Row>, selected0: seq<string>, checked: bool)
    requires Stage(rows, selected, rows0, selected0, |rows0|, checked)
    ensures rows == CheckAll(rows0, checked) && |rows| == |rows0|
    ensures selected == SelectEach(selected0, RowPaths(rows0), checked)
  {
    PartialAll(rows0, checked);
    assert RowPaths(rows0)[..|rows0|] == RowPaths(rows0);
  }

  /** The reduce over the checked boxes: the sum of their data-size values. */
  function CheckedSize(rows: seq<Row>): int
  {
    if rows == [] then 0
    else CheckedSize(rows[..|rows| - 1]) + (if rows[|rows| - 1].checked then rows[|rows| - 1].size else 0)
  }

  /** Checking or unchecking one box moves the total by exactly that box's size. */
  lemma {:induction false} CheckedSizeUpdate(rows: seq<Row>, i: nat, checked: bool)
    requires i < |rows|
    ensures CheckedSize(rows[i := rows[i].(checked := checked)]) ==
      CheckedSize(rows) - (if rows[i].checked then rows[i].size else 0) + (if checked then rows[i].size else 0)
  {
    var rows' := rows[i := rows[i].(checked := checked)];
    var n := |rows|;
    if i < n - 1 {
      assert rows'[..n - 1] == rows[..n - 1][i := rows[i].(checked := checked)];
      CheckedSizeUpdate(rows[..n - 1], i, checked);
    } else {
      assert rows'[..n - 1] == rows[..n - 1];
    }
  }

  /** Nothing is checked in freshly rendered rows. */
  lemma {:induction false} CheckedSizeRendered(files: seq<FileInfo>)
    ensures CheckedSize(Render(files)) == 0
  {
    if files != [] {
      var front := files[..|files| - 1];
      CheckedSizeRendered(front);
      assert Render(files)[..|files| - 1] == Render(front);
    }
  }

  /** `${n} file${n !== 1 ? 's' : ''} selected` */
  function CountText(n: nat): string
  {
    FormatInt(n) + " file" + (if n != 1 then "s" else "") + " selected"
  }

  /** The singular is used for exactly one file, the plural for every other count. */
  lemma CountTextForms(n: nat)
    ensures n == 1 ==> CountText(n) == "1 file selected"
    ensures n != 1 ==> CountText(n) == FormatInt(n) + " files selected"
  {
    if n == 1 {
      assert FormatInt(1) == "1";
    }
  }

  /** The number can be read back from the counter text: the text before the first space. */
  lemma CountTextReadBack(n: nat)
    requires n <= MaxInt64
    ensures ParseInt64(SplitOn(CountText(n), ' ')[0]) == Some(n)
  {
    var digits := FormatInt(n);
    var rest := "file" + (if n != 1 then "s" else "") + " selected";
    assert CountText(n) == digits + [' '] + rest;
    SplitConcat(digits, rest, ' ');
    assert forall i :: 0 <= i < |digits| ==> IsDigit(digits[i]);
    SplitWithoutSep(digits, ' ');
    FormatParseRoundTrip(n);
  }

  /** The state updateUI gives the button, the counter, the total and the select-all box. */
  datatype Ui = Ui(
    downloadDisabled: bool,
    countText: string,
    totalSize: int,
    selectAllChecked: bool,
    selectAllIndeterminate: bool)

  /** updateUI's computation, from the selection size and the rendered rows. */
  function UiFor(count: nat, rows: seq<Row>): (u: Ui)
    ensures u.downloadDisabled <==> count == 0
    ensures u.selectAllChecked <==> 0 < count == |rows|
    ensures u.selectAllIndeterminate <==> 0 < count < |rows|
    ensures !(u.selectAllChecked && u.selectAllIndeterminate)
    ensures u.countText == CountText(count) && u.totalSize == CheckedSize(rows)
  {
    Ui(count == 0, CountText(count), CheckedSize(rows), count > 0 && count == |rows|, count > 0 && count < |rows|)
  }

  // ---------------------------------------------------------------------------
  // The download URL

  predicate Unreserved(c: char)
  {
    ('A' <= c <= 'Z') || ('a' <= c <= 'z') || ('0' <= c <= '9') ||
    c == '-' || c == '_' || c == '.' || c == '!' || c == '~' || c == '*' || c == '\'' || c == '(' || c == ')'
  }

  function HexDigit(d: nat): (c: char)
    requires d < 16
    ensures '0' <= c <= '9' || 'A' <= c <= 'F'
  {
    if d < 10 then ('0' as int + d) as char else ('A' as int + d - 10) as char
  }

  /** "%XX" for one byte. */
  function PercentByte(b: nat): (r: string)
    requires b < 256
    ensures |r| == 3 && r[0] == '%'
  {
    ['%', HexDigit(b / 16), HexDigit(b % 16)]
  }

  function PercentBytes(bs: seq<nat>): (r: string)
    requires forall i :: 0 <= i < |bs| ==> bs[i] < 256
    ensures |r| == 3 * |bs|
    ensures forall i :: 0 <= i < |r| ==> r[i] == '%' || '0' <= r[i] <= '9' || 'A' <= r[i] <= 'F'
  {
    if bs == [] then [] else PercentByte(bs[0]) + PercentBytes(bs[1..])
  }

  /** A character that may appear in an encoded component. */
  predicate UriSafe(c: char)
  {
    Unreserved(c) || c == '%'
  }

  /** One character as encodeURIComponent writes it. */
  function EncodeChar(c: char): (r: string)
    ensures |r| >= 1 && (r[0] == '%' <==> !Unreserved(c))
  {
    if Unreserved(c) then [c] else PercentBytes(Utf8(c))
  }

  /** encodeURIComponent: unreserved characters stay, every other one becomes its UTF-8 bytes as %XX. */
  function EncodeUriComponent(s: string): (r: string)
    ensures forall i :: 0 <= i < |r| ==> UriSafe(r[i])
    ensures (forall i :: 0 <= i < |s| ==> Unreserved(s[i])) ==> r == s
  {
    if s == [] then [] else EncodeChar(s[0]) + EncodeUriComponent(s[1..])
  }

  lemma HexDigitInjective(a: nat, b: nat)
    requires a < 16 && b < 16 && HexDigit(a) == HexDigit(b)
    ensures a == b
  {
  }

  lemma PercentByteInjective(a: nat, b: nat)
    requires a < 256 && b < 256 && PercentByte(a) == PercentByte(b)
    ensures a == b
  {
    HexDigitInjective(a / 16, b / 16);
    HexDigitInjective(a % 16, b % 16);
  }

  /** Equal escapes of equally many bytes come from the same bytes. */
  lemma {:induction false} PercentBytesInjective(xs: seq<nat>, ys: seq<nat>)
    requires forall i :: 0 <= i < |xs| ==> xs[i] < 256
    requires forall i :: 0 <= i < |ys| ==> ys[i] < 256
    requires PercentBytes(xs) == PercentBytes(ys)
    ensures xs == ys
  {
    if xs != [] {
      var px, py := PercentBytes(xs), PercentBytes(ys);
      assert px[..3] == PercentByte(xs[0]);
      assert py[..3] == PercentByte(ys[0]);
      PercentByteInjective(xs[0], ys[0]);
      assert px[3..] == PercentBytes(xs[1..]);
      assert py[3..] == PercentBytes(ys[1..]);
      PercentBytesInjective(xs[1..], ys[1..]);
    }
  }

  /** The first character of an encoding is recognised without looking further. */
  lemma EncodeCharPrefixFree(c: char, d: char, s: string, t: string)
    requires EncodeChar(c) + s == EncodeChar(d) + t
    ensures c == d && s == t
  {
    var ec, ed := EncodeChar(c), EncodeChar(d);
    assert ec[0] == (ec + s)[0] == (ed + t)[0] == ed[0];
    if !Unreserved(c) {
      var bc, bd := Utf8(c), Utf8(d);
      assert ec[..3] == PercentByte(bc[0]) && ed[..3] == PercentByte(bd[0]);
      assert ec[..3] == (ec + s)[..3] == (ed + t)[..3] == ed[..3];
      PercentByteInjective(bc[0], bd[0]);
      Utf8LeadLength(c);
      Utf8LeadLength(d);
      assert ec == (ec + s)[..|ec|] == (ed + t)[..|ed|] == ed;
      PercentBytesInjective(bc, bd);
      Utf8Injective(c, d);
    }
    assert s == (ec + s)[|ec|..] == (ed + t)[|ed|..] == t;
  }

  /** Only the empty string encodes to nothing. */
  lemma EncodeUriComponentEmpty(s: string)
    ensures EncodeUriComponent(s) == [] <==> s == []
  {
    if s != [] {
      assert |EncodeChar(s[0])| >= 1;
    }
  }

  /** Different strings have different encodings: the encoding can be decoded. */
  lemma {:induction false} EncodeUriComponentInjective(s: string, t: string)
    requires EncodeUriComponent(s) == EncodeUriComponent(t)
    ensures s == t
  {
    EncodeUriComponentEmpty(s);
    EncodeUriComponentEmpty(t);
    if s != [] && t != [] {
      var es, et := EncodeUriComponent(s[1..]), EncodeUriComponent(t[1..]);
      assert EncodeUriComponent(s) == EncodeChar(s[0]) + es;
      assert EncodeUriComponent(t) == EncodeChar(t[0]) + et;
      hide EncodeUriComponent, EncodeChar;
      EncodeCharPrefixFree(s[0], t[0], es, et);
      EncodeUriComponentInjective(s[1..], t[1..]);
      assert s == [s[0]] + s[1..] && t == [t[0]] + t[1..];
    }
  }

  /** The query parameters, one `files=<encoded path>` per selected path, in selection order. */
  function QueryParams(selected: seq<string>): (r: seq<string>)
    ensures |r| == |selected|
    ensures forall i :: 0 <= i < |r| ==> r[i] == "files=" + EncodeUriComponent(selected[i])
  {
    seq(|selected|, i requires 0 <= i < |selected| => "files=" + EncodeUriComponent(selected[i]))
  }

  /** Equal parameters name equal paths. */
  lemma QueryParamInjective(a: string, b: string)
    requires "files=" + EncodeUriComponent(a) == "files=" + EncodeUriComponent(b)
    ensures a == b
  {
    var pa, pb := "files=" + EncodeUriComponent(a), "files=" + EncodeUriComponent(b);
    assert pa[6..] == EncodeUriComponent(a) && pb[6..] == EncodeUriComponent(b);
    EncodeUriComponentInjective(a, b);
  }

  /** Distinct selected paths give distinct parameters. */
  lemma QueryParamsDistinct(selected: seq<string>)
    requires NoDups(selected)
    ensures NoDups(QueryParams(selected))
  {
    var q := QueryParams(selected);
    forall i, j | 0 <= i < j < |q|
      ensures q[i] != q[j]
    {
      if q[i] == q[j] {
        QueryParamInjective(selected[i], selected[j]);
      }
    }
  }

  const DownloadPrefix: string := "/api/download?"

  /** downloadSelectedFiles: nothing for an empty selection, else the URL to navigate to. */
  function DownloadUrl(selected: seq<string>): (r: Option<string>)
  {
    if selected == [] then None
    else Some(DownloadPrefix + JoinWith(QueryParams(selected), '&'))
  }

  /** Splitting the query on '&' gives back one parameter per selected path, in order. */
  lemma DownloadUrlSplits(selected: seq<string>)
    ensures DownloadUrl(selected).None? <==> selected == []
    ensures selected != [] ==>
      var url := DownloadUrl(selected).value;
      && IsPrefix(DownloadPrefix, url)
      && SplitOn(url[|DownloadPrefix|..], '&') == QueryParams(selected)
  {
    if selected != [] {
      var params := QueryParams(selected);
      forall i | 0 <= i < |params|
        ensures '&' !in params[i]
      {
        var enc := EncodeUriComponent(selected[i]);
        assert params[i] == "files=" + enc;
        assert forall j :: 0 <= j < |enc| ==> UriSafe(enc[j]);
      }
      SplitJoin(params, '&');
      var url := DownloadUrl(selected).value;
      assert url[|DownloadPrefix|..] == JoinWith(params, '&');
    }
  }

  /** The URL gives the selection back: two selections that navigate to the same URL are equal. */
  lemma DownloadUrlInjective(a: seq<string>, b: seq<string>)
    requires DownloadUrl(a) == DownloadUrl(b)
    ensures a == b
  {
    DownloadUrlSplits(a);
    DownloadUrlSplits(b);
    if a != [] {
      var qa, qb := QueryParams(a), QueryParams(b);
      assert qa == qb;
      forall i | 0 <= i < |a|
        ensures a[i] == b[i]
      {
        QueryParamInjective(a[i], b[i]);
      }
    }
  }

  // ---------------------------------------------------------------------------
  // Loading the listing

  /**
   * A value `response.json()` can yield for GET /api/files. The listing
   * handler always answers with an object: `{currentPath, files}` on success,
   * `{error}` otherwise; only `JsArray` has the array methods map and filter.
   */
  datatype JsValue = JsArray(items: seq<FileInfo>) | JsObject(response: FileService.ListResponse)

  /** The body the listing handler sends for one of its answers. */
  function ResponseJson(resp: FileService.ListResponse): JsValue
  {
    JsObject(resp)
  }

  /** What loadFiles shows: the rendered rows, or the alert of its catch block with the rows left as they were. */
  datatype LoadOutcome = Rendered(rows: seq<Row>) | LoadFailed(alert: string)

  /** loadFiles as written: what it leaves in `this.files`, and what it shows. */
  datatype AsWrittenLoad = AsWrittenLoad(stored: JsValue, outcome: LoadOutcome)

  const LoadFailure: string := "Failed to load files"

  /**
   * loadFiles as written: `this.files = await response.json()` keeps the body
   * itself, and renderFiles calls `files.map` on it, which throws a TypeError
   * on anything but an array; the catch block shows the alert.
   */
  function LoadFilesAsWritten(body: JsValue): (r: AsWrittenLoad)
    ensures r.stored == body
    ensures r.outcome.Rendered? <==> body.JsArray?
    ensures body.JsArray? ==> r.outcome.rows == Render(body.items)
    ensures r.outcome.LoadFailed? ==> r.outcome.alert == LoadFailure
  {
    match body
    case JsArray(items) => AsWrittenLoad(body, Rendered(Render(items)))
    case JsObject(_) => AsWrittenLoad(body, LoadFailed(LoadFailure))
  }

  /** filterFiles as written over what loadFiles kept: `this.files.filter` exists on arrays only. */
  function FilterFilesAsWritten(stored: JsValue, term: string): (r: Option<seq<Row>>)
    ensures r.Some? <==> stored.JsArray?
    ensures stored.JsArray? ==> r.value == Render(Filter(stored.items, term))
  {
    match stored
    case JsArray(items) => Some(Render(Filter(items, term)))
    case JsObject(_) => None
  }

  /**
   * No answer of the listing handler, not even a successful one, gets
   * rendered as written: the alert shows, the object is what stays in
   * `this.files`, and a later search throws on it.
   */
  lemma ListingNeverRenders(resp: FileService.ListResponse, term: string)
    ensures LoadFilesAsWritten(ResponseJson(resp)).outcome == LoadFailed(LoadFailure)
    ensures LoadFilesAsWritten(ResponseJson(resp)).stored == JsObject(resp)
    ensures FilterFilesAsWritten(LoadFilesAsWritten(ResponseJson(resp)).stored, term).None?
  {
  }

  // ---------------------------------------------------------------------------
  // The FileDownloader object

  class FileDownloader {
    /** The listing last loaded. */
    var files: seq<FileInfo>
    /** selectedFiles, in insertion order. */
    var selected: seq<string>
    /** The rendered rows. */
    var rows: seq<Row>
    var ui: Ui

    predicate Valid()
      reads this
    {
      NoDups(selected)
    }

    constructor ()
      ensures Valid() && files == [] && selected == [] && rows == []
    {
      files := [];
      selected := [];
      rows := [];
    }

    /**
     * loadFiles reading the `files` member of the listing handler's answer: a
     * listing is kept and rendered; an error answer shows the alert and
     * leaves the page as it was.
     */
    method LoadFiles(resp: FileService.ListResponse) returns (alert: Option<string>)
      modifies this
      ensures resp.Listing? ==> files == resp.files && rows == Render(resp.files) && alert == None
      ensures resp.ListError? ==> files == old(files) && rows == old(rows) && alert == Some(LoadFailure)
      ensures selected == old(selected) && ui == old(ui)
    {
      if resp.ListError? {
        return Some(LoadFailure);
      }
      files := resp.files;
      RenderFiles(files);
      alert := None;
    }

    /** renderFiles: fresh, unchecked rows; the selection is not touched. */
    method RenderFiles(shown: seq<FileInfo>)
      modifies this
      ensures rows == Render(shown)
      ensures files == old(files) && selected == old(selected) && ui == old(ui)
    {
      rows := Render(shown);
    }

    /** filterFiles: re-renders the matching files. */
    method FilterFiles(term: string)
      modifies this
      ensures rows == Render(Filter(files, term))
      ensures files == old(files) && selected == old(selected) && ui == old(ui)
    {
      RenderFiles(Filter(files, term));
    }

    /** updateUI. */
    method UpdateUI()
      modifies this
      ensures ui == UiFor(|selected|, rows)
      ensures files == old(files) && selected == old(selected) && rows == old(rows)
    {
      var count := |selected|;
      var totalSize := CheckedSize(rows);
      ui := Ui(count == 0, CountText(count), totalSize, count > 0 && count == |rows|, count > 0 && count < |rows|);
    }

    /** The user sets box `i` to `checked`, then handleFileSelection runs for it. */
    method HandleFileSelection(i: nat, checked: bool)
      requires Valid() && i < |rows|
      modifies this
      ensures Valid()
      ensures rows == SetBox(old(rows), i, checked)
      ensures selected == if checked then SetAdd(old(selected), old(rows[i].path)) else SetDelete(old(selected), old(rows[i].path))
      ensures ui == UiFor(|selected|, rows)
      ensures files == old(files)
    {
      var path := rows[i].path;
      rows := SetBox(rows, i, checked);
      if checked {
        selected := SetAdd(selected, path);
      } else {
        selected := SetDelete(selected, path);
      }
      UpdateUI();
    }

    /** The select-all box changed: every row takes its state, one handleFileSelection each, in row order. */
    method SelectAllChanged(checked: bool)
      requires Valid()
      modifies this
      ensures Valid() && files == old(files)
      ensures rows == CheckAll(old(rows), checked)
      ensures selected == SelectEach(old(selected), RowPaths(old(rows)), checked)
      ensures rows != [] ==> ui == UiFor(|selected|, rows)
      ensures rows == [] ==> ui == old(ui)
    {
      ghost var rows0 := rows;
      ghost var selected0 := selected;
      StageStart(rows0, selected0, checked);
      hide Stage, UiFor, NoDups;
      for i := 0 to |rows|
        invariant Valid() && files == old(files)
        invariant Stage(rows, selected, rows0, selected0, i, checked)
        invariant i > 0 ==> ui == UiFor(|selected|, rows)
        invariant i == 0 ==> ui == old(ui)
      {
        SelectNext(i, checked, rows0, selected0);
      }
      StageDone(rows, selected, rows0, selected0, checked);
    }

    /** One pass of the select-all loop: box `i` takes the state of the boxes before it. */
    method SelectNext(i: nat, checked: bool, ghost rows0: seq<Row>, ghost selected0: seq<string>)
      requires Valid() && i < |rows0|
      requires Stage(rows, selected, rows0, selected0, i, checked)
      modifies this
      ensures Valid() && files == old(files)
      ensures Stage(rows, selected, rows0, selected0, i + 1, checked)
      ensures ui == UiFor(|selected|, rows)
    {
      PartialStep(rows0, i, checked);
      SelectEachStep(selected0, RowPaths(rows0), i, checked);
      hide SelectEach, SetAdd, SetDelete, UiFor, NoDups, CheckAll, Partial, SetBox;
      HandleFileSelection(i, checked);
    }

    /** downloadSelectedFiles: the URL navigated to, if anything is selected. */
    method DownloadSelectedFiles() returns (url: Option<string>)
      ensures url == DownloadUrl(selected)
      ensures url.Some? <==> selected != []
    {
      if |selected| == 0 {
        return None;
      }
      var params := QueryParams(selected);
      url := Some(DownloadPrefix + JoinWith(params, '&'));
    }
  }
}
