/**
 * The streaming back end: the containment check on client paths, the
 * directory listing, and the single-file and ZIP downloads, over an abstract
 * file system.
 *
 * The file system maps cleaned paths to what the service can observe of an
 * object: its metadata, whether it opens, the bytes a read yields (and
 * whether reading then fails instead of reaching end of file), and, for a
 * directory, the result of reading its entries. The process's working
 * directory is fixed and given by its names.
 */
module FileService {
  import opened Wrappers
  import opened Text
  import opened Decimal
  import opened FilePath
  import opened Http
  import opened Unicode

  // ---------------------------------------------------------------------------
  // Environment

  datatype Meta = Meta(name: string, size: int, modTime: int, isDir: bool)

  /** One result of os.ReadDir; `info` is None when the entry's Info() fails. */
  datatype DirEntry = DirEntry(name: string, info: Option<Meta>)

  datatype Object = Object(
    meta: Meta,
    openable: bool,
    contents: seq<byte>,
    readFails: bool,
    listing: Option<seq<DirEntry>>)

  /** `Unreachable`: os.Stat fails with an error other than "does not exist". */
  datatype Slot = Unreachable | Present(obj: Object)

  /**
   * The working directory's names, and the objects under the paths the
   * handlers pass to the operating system: `filepath.Join("./data", p)`, a
   * cleaned path relative to the working directory, is the key. Two keys may
   * name the same object (with working directory /a/b, "data/x" and
   * "../b/data/x"); the model gives each key its own slot.
   */
  datatype Env = Env(cwd: seq<string>, fs: map<string, Slot>)

  datatype StatResult = Found(meta: Meta) | NotExist | StatFailed

  function Stat(env: Env, path: string): StatResult
  {
    if path !in env.fs then NotExist
    else match env.fs[path]
      case Unreachable => StatFailed
      case Present(o) => Found(o.meta)
  }

  function Open(env: Env, path: string): Option<Object>
  {
    if path in env.fs && env.fs[path].Present? && env.fs[path].obj.openable
    then Some(env.fs[path].obj) else None
  }

  function ReadDir(env: Env, path: string): Option<seq<DirEntry>>
  {
    if path in env.fs && env.fs[path].Present? then env.fs[path].obj.listing else None
  }

  // ---------------------------------------------------------------------------
  // Containment

  const DataDir: string := "./data"

  /** The path the handlers open for a client path. */
  function FullPath(p: string): string
  {
    Join(DataDir, p)
  }

  /** isPathSafe: the absolute path must start, as a string, with the absolute data directory. */
  function IsPathSafe(cwd: seq<string>, path: string): bool
  {
    Abs(cwd, DataDir) <= Abs(cwd, path)
  }

  /** The stack Clean reaches on "./data/" + p, once "." and "data" are scanned. */
  function DataStack(p: string): Stack
  {
    Resolve(Stack(0, ["data"]), SplitOn(p, '/'), false)
  }

  /** The names of the absolute path a client path resolves to. */
  function ResolvedNames(cwd: seq<string>, p: string): seq<string>
  {
    Climb(cwd, DataStack(p)).names
  }

  /** The resolved path's next name after the working directory starts with "data". */
  predicate StartsWithDataName(cwd: seq<string>, names: seq<string>)
  {
    |names| > |cwd| && names[..|cwd|] == cwd && IsPrefix("data", names[|cwd|])
  }

  /** The resolved path is the data directory or lies below it. */
  predicate InsideData(cwd: seq<string>, names: seq<string>)
  {
    |names| > |cwd| && names[..|cwd| + 1] == cwd + ["data"]
  }

  lemma SplitDataDir()
    ensures SplitOn(DataDir, '/') == [".", "data"]
  {
    assert DataDir == "." + ['/'] + "data";
    SplitConcat(".", "data", '/');
    SplitWithoutSep(".", '/');
    SplitWithoutSep("data", '/');
  }

  /** The data directory as an absolute path. */
  lemma DataDirAbsolute(cwd: seq<string>)
    requires AllNames(cwd)
    ensures Abs(cwd, DataDir) == Render(Stack(0, cwd + ["data"]), true)
  {
    hide Abs;
    SplitDataDir();
    AbsRelative(cwd, DataDir);
    assert Resolve(Stack(0, []), [".", "data"], false) == Stack(0, ["data"]);
    assert cwd[..|cwd|] == cwd;
    assert Climb(cwd, Stack(0, ["data"])) == Stack(0, cwd + ["data"]);
  }

  /** The path a handler opens, as an absolute path. */
  lemma FullPathAbsolute(cwd: seq<string>, p: string)
    requires AllNames(cwd)
    ensures Abs(cwd, FullPath(p)) == Render(Stack(0, ResolvedNames(cwd, p)), true)
  {
    var q := DataDir + "/" + p;
    assert FullPath(p) == Clean(q);
    AbsOfClean(cwd, q);
    SplitDataDir();
    SplitConcat(DataDir, p, '/');
    assert SplitOn(q, '/') == [".", "data"] + SplitOn(p, '/');
    ResolveAppend(Stack(0, []), [".", "data"], SplitOn(p, '/'), false);
    assert Resolve(Stack(0, []), [".", "data"], false) == Stack(0, ["data"]);
    assert Resolve(Stack(0, []), SplitOn(q, '/'), false) == DataStack(p);
  }

  lemma ResolvedNamesAreNames(cwd: seq<string>, p: string)
    requires AllNames(cwd)
    ensures AllNames(ResolvedNames(cwd, p))
  {
    assert WellFormed(Stack(0, ["data"]), false);
    ResolveWellFormed(Stack(0, ["data"]), SplitOn(p, '/'), false);
    var st := DataStack(p);
    var k := |cwd| - Min(st.ups, |cwd|);
    assert forall i :: 0 <= i < |cwd[..k] + st.names| ==>
      (cwd[..k] + st.names)[i] == if i < k then cwd[i] else st.names[i - k];
  }

  lemma SlashPrefix(a: string, b: string)
    ensures "/" + a <= "/" + b <==> IsPrefix(a, b)
  {
    if IsPrefix(a, b) {
      assert ("/" + b)[..|a| + 1] == "/" + b[..|a|];
    }
    if "/" + a <= "/" + b {
      assert ("/" + b)[..|a| + 1] == "/" + a;
      assert b[..|a|] == ("/" + b)[1..|a| + 1];
    }
  }

  /** One rooted path is a string prefix of another exactly when their names
      agree up to the last name of the first, which is a prefix of the
      corresponding name of the second. */
  lemma RootedPrefix(xs: seq<string>, ys: seq<string>)
    requires |xs| >= 1 && AllNames(xs) && AllNames(ys)
    ensures Render(Stack(0, xs), true) <= Render(Stack(0, ys), true) <==>
      |xs| <= |ys| && xs[..|xs| - 1] == ys[..|xs| - 1] && IsPrefix(xs[|xs| - 1], ys[|xs| - 1])
  {
    assert Ups(0) + xs == xs;
    assert Ups(0) + ys == ys;
    var jx := JoinWith(xs, '/');
    assert Render(Stack(0, xs), true) == "/" + jx;
    FirstPiecePrefix(xs, '/');
    assert |jx| >= 1;
    if ys == [] {
      assert Render(Stack(0, ys), true) == "/";
    } else {
      var jy := JoinWith(ys, '/');
      assert Render(Stack(0, ys), true) == "/" + jy;
      SlashPrefix(jx, jy);
      PrefixOfJoin(xs, ys, '/');
    }
  }

  /**
   * The containment check, stated on names: a client path is accepted exactly
   * when it resolves to the working directory followed by a name that starts
   * with "data" — the data directory itself, or a sibling such as "data2".
   */
  lemma SafeIff(cwd: seq<string>, p: string)
    requires AllNames(cwd)
    ensures IsPathSafe(cwd, FullPath(p)) <==> StartsWithDataName(cwd, ResolvedNames(cwd, p))
  {
    DataDirAbsolute(cwd);
    FullPathAbsolute(cwd, p);
    ResolvedNamesAreNames(cwd, p);
    var xs := cwd + ["data"];
    assert AllNames(xs);
    RootedPrefix(xs, ResolvedNames(cwd, p));
    assert xs[..|xs| - 1] == cwd;
  }

  /** Accepted paths include everything inside the data directory. */
  lemma InsideIsSafe(cwd: seq<string>, p: string)
    requires AllNames(cwd) && InsideData(cwd, ResolvedNames(cwd, p))
    ensures IsPathSafe(cwd, FullPath(p))
  {
    SafeIff(cwd, p);
    var ys := ResolvedNames(cwd, p);
    assert ys[..|cwd|] == ys[..|cwd| + 1][..|cwd|];
    assert ys[|cwd|] == ys[..|cwd| + 1][|cwd|];
  }

  /** A path without ".." elements always resolves inside the data directory,
      a leading '/' included, and is accepted. */
  lemma NoParentAccepted(cwd: seq<string>, p: string)
    requires AllNames(cwd)
    requires forall i :: 0 <= i < |SplitOn(p, '/')| ==> SplitOn(p, '/')[i] != ".."
    ensures InsideData(cwd, ResolvedNames(cwd, p))
    ensures IsPathSafe(cwd, FullPath(p))
  {
    ResolveNoUps(Stack(0, ["data"]), SplitOn(p, '/'), false);
    var st := DataStack(p);
    assert st.names[..1] == ["data"];
    assert cwd[..|cwd|] == cwd;
    assert (cwd + st.names)[..|cwd| + 1] == cwd + st.names[..1];
    InsideIsSafe(cwd, p);
  }

  /** The listing's default path "." is the data directory. */
  lemma DefaultDirectoryAccepted(cwd: seq<string>)
    requires AllNames(cwd)
    ensures InsideData(cwd, ResolvedNames(cwd, "."))
    ensures IsPathSafe(cwd, FullPath("."))
  {
    SplitWithoutSep(".", '/');
    NoParentAccepted(cwd, ".");
  }

  /** A client path whose stack keeps no ".." resolves to those names under the working directory. */
  lemma ResolvedFromStack(cwd: seq<string>, p: string, names: seq<string>)
    requires DataStack(p) == Stack(0, names)
    ensures ResolvedNames(cwd, p) == cwd + names
  {
    assert cwd[..|cwd|] == cwd;
  }

  /** A path resolving to a name under the working directory that does not start with "data" is rejected. */
  lemma OutsideRejected(cwd: seq<string>, p: string, names: seq<string>)
    requires AllNames(cwd) && ResolvedNames(cwd, p) == cwd + names
    requires names == [] || !IsPrefix("data", names[0])
    ensures !IsPathSafe(cwd, FullPath(p))
  {
    SafeIff(cwd, p);
    if names != [] {
      assert (cwd + names)[|cwd|] == names[0];
    }
  }

  /** A client path that first climbs out of the data directory: "../" followed by names. */
  lemma ClimbingPath(cwd: seq<string>, names: seq<string>)
    requires |names| >= 1 && AllNames(names)
    ensures ResolvedNames(cwd, ".." + "/" + JoinWith(names, '/')) == cwd + names
  {
    var p := ".." + "/" + JoinWith(names, '/');
    SplitConcat("..", JoinWith(names, '/'), '/');
    SplitWithoutSep("..", '/');
    SplitJoin(names, '/');
    assert SplitOn(p, '/') == [".."] + names;
    assert Step(Stack(0, ["data"]), "..", false) == Stack(0, []);
    ResolveNames(Stack(0, []), names, false);
    assert DataStack(p) == Stack(0, names);
    ResolvedFromStack(cwd, p, names);
  }

  /** "../" followed by a name that does not start with "data" leaves the data directory and is rejected. */
  lemma ParentRejected(cwd: seq<string>, name: string)
    requires AllNames(cwd) && IsName(name) && !IsPrefix("data", name)
    ensures ResolvedNames(cwd, ".." + "/" + name) == cwd + [name]
    ensures !IsPathSafe(cwd, FullPath(".." + "/" + name))
  {
    assert JoinWith([name], '/') == name;
    ClimbingPath(cwd, [name]);
    OutsideRejected(cwd, ".." + "/" + name, [name]);
  }

  /**
   * The raw string prefix also admits siblings of the data directory whose
   * names start with "data": "../data2/f" resolves outside it and is accepted.
   */
  lemma SiblingAccepted(cwd: seq<string>, sibling: string, name: string)
    requires AllNames(cwd) && IsName(sibling) && IsName(name)
    requires IsPrefix("data", sibling) && sibling != "data"
    ensures ResolvedNames(cwd, ".." + "/" + sibling + "/" + name) == cwd + [sibling, name]
    ensures !InsideData(cwd, ResolvedNames(cwd, ".." + "/" + sibling + "/" + name))
    ensures IsPathSafe(cwd, FullPath(".." + "/" + sibling + "/" + name))
  {
    var p := ".." + "/" + sibling + "/" + name;
    assert JoinWith([sibling, name], '/') == sibling + "/" + name;
    assert p == ".." + "/" + JoinWith([sibling, name], '/');
    ClimbingPath(cwd, [sibling, name]);
    var ys := cwd + [sibling, name];
    assert ys[..|cwd|] == cwd && ys[|cwd|] == sibling;
    assert ys[..|cwd| + 1][|cwd|] == sibling;
    SafeIff(cwd, p);
  }

  // ---------------------------------------------------------------------------
  // Listing

  datatype FileInfo = FileInfo(name: string, size: int, path: string, lastModified: int, isDirectory: bool)

  datatype ListFailure = InvalidDirectoryPath | DirectoryNotFound | AccessFailed | NotADirectory | ReadDirFailed
  {
    function Status(): int
    {
      match this
      case InvalidDirectoryPath => 400
      case DirectoryNotFound => 404
      case AccessFailed => 500
      case NotADirectory => 400
      case ReadDirFailed => 500
    }
  }

  datatype ListResponse = ListError(failure: ListFailure) | Listing(currentPath: string, files: seq<FileInfo>)

  /** The `path` query with its default. */
  function DirPathOf(query: string): string
  {
    if query == "" then "." else query
  }

  /** The entry's path: dirPath joined with the name, made relative to "." when possible. */
  function EntryPath(dirPath: string, name: string): string
  {
    var e := Join(dirPath, name);
    match RelFromDot(e)
    case Some(r) => r
    case None => e
  }

  function ToFileInfo(dirPath: string, e: DirEntry): FileInfo
    requires e.info.Some?
  {
    var m := e.info.value;
    FileInfo(m.name, m.size, EntryPath(dirPath, e.name), m.modTime, m.isDir)
  }

  /** The listing of `entries`, in order, without the entries whose Info() fails. */
  function Collect(dirPath: string, entries: seq<DirEntry>): (r: seq<FileInfo>)
    ensures |r| <= |entries|
  {
    if entries == [] then []
    else
      var last := entries[|entries| - 1];
      Collect(dirPath, entries[..|entries| - 1]) + (if last.info.Some? then [ToFileInfo(dirPath, last)] else [])
  }

  /** listFiles. */
  method ListFiles(env: Env, query: string) returns (resp: ListResponse)
    ensures var full := FullPath(DirPathOf(query));
      && (resp == ListError(InvalidDirectoryPath) <==> !IsPathSafe(env.cwd, full))
      && (IsPathSafe(env.cwd, full) ==>
            match Stat(env, full)
            case NotExist => resp == ListError(DirectoryNotFound)
            case StatFailed => resp == ListError(AccessFailed)
            case Found(m) =>
              if !m.isDir then resp == ListError(NotADirectory)
              else match ReadDir(env, full)
                case None => resp == ListError(ReadDirFailed)
                case Some(entries) => resp == Listing(DirPathOf(query), Collect(DirPathOf(query), entries)))
  {
    var dirPath := query;
    if dirPath == "" {
      dirPath := ".";
    }
    var fullPath := FullPath(dirPath);
    if !IsPathSafe(env.cwd, fullPath) {
      return ListError(InvalidDirectoryPath);
    }
    var dirInfo := Stat(env, fullPath);
    if dirInfo.NotExist? {
      return ListError(DirectoryNotFound);
    } else if dirInfo.StatFailed? {
      return ListError(AccessFailed);
    }
    if !dirInfo.meta.isDir {
      return ListError(NotADirectory);
    }
    var listing := ReadDir(env, fullPath);
    if listing.None? {
      return ListError(ReadDirFailed);
    }
    var entries := listing.value;
    var files: seq<FileInfo> := [];
    for i := 0 to |entries|
      invariant files == Collect(dirPath, entries[..i])
    {
      assert entries[..i + 1][..i] == entries[..i];
      var entry := entries[i];
      if entry.info.None? {
        continue;
      }
      files := files + [ToFileInfo(dirPath, entry)];
    }
    assert entries[..|entries|] == entries;
    return Listing(dirPath, files);
  }

  /** Listing a concatenation lists each part in turn: order is kept and skips are local. */
  lemma {:induction false} CollectAppend(dirPath: string, a: seq<DirEntry>, b: seq<DirEntry>)
    ensures Collect(dirPath, a + b) == Collect(dirPath, a) + Collect(dirPath, b)
    decreases |b|
  {
    hide EntryPath;
    if b == [] {
      assert a + b == a;
    } else {
      assert (a + b)[..|a + b| - 1] == a + b[..|b| - 1];
      CollectAppend(dirPath, a, b[..|b| - 1]);
    }
  }

  /** When every entry's metadata reads, each entry yields exactly one record, in order. */
  lemma {:induction false} CollectAllReadable(dirPath: string, entries: seq<DirEntry>)
    requires forall i :: 0 <= i < |entries| ==> entries[i].info.Some?
    ensures |Collect(dirPath, entries)| == |entries|
    ensures forall i :: 0 <= i < |entries| ==> Collect(dirPath, entries)[i] == ToFileInfo(dirPath, entries[i])
    decreases |entries|
  {
    hide EntryPath;
    if entries != [] {
      var front := entries[..|entries| - 1];
      CollectAllReadable(dirPath, front);
      var last := ToFileInfo(dirPath, entries[|entries| - 1]);
      assert Collect(dirPath, entries) == Collect(dirPath, front) + [last];
      forall i | 0 <= i < |entries|
        ensures Collect(dirPath, entries)[i] == ToFileInfo(dirPath, entries[i])
      {
        if i < |front| {
          assert front[i] == entries[i];
        }
      }
    }
  }

  /** Each record's path is dirPath joined with the entry name and cleaned. */
  lemma EntryPathIsJoin(dirPath: string, name: string)
    requires dirPath != ""
    ensures EntryPath(dirPath, name) == Join(dirPath, name)
  {
    CleanIdempotent(dirPath + "/" + name);
  }

  // ---------------------------------------------------------------------------
  // Downloads

  datatype Compression = Store | Deflate

  datatype ZipEntry = ZipEntry(name: string, compression: Compression, modified: int, data: seq<byte>)

  datatype DownloadResponse =
    | DownloadError(status: int, message: string)
    | FileStream(headers: seq<Header>, body: seq<byte>)
    | ZipStream(headers: seq<Header>, entries: seq<ZipEntry>)

  /** The first client path at or after `from` that fails the containment check, if any. */
  function FirstUnsafe(cwd: seq<string>, paths: seq<string>, from: nat): (r: Option<nat>)
    requires from <= |paths|
    ensures r.Some? ==> from <= r.value < |paths|
    decreases |paths| - from
  {
    if from == |paths| then None
    else if !IsPathSafe(cwd, FullPath(paths[from])) then Some(from)
    else FirstUnsafe(cwd, paths, from + 1)
  }

  /** The rejected path is the first unsafe one, and nothing is rejected exactly when all are safe. */
  lemma {:induction false} FirstUnsafeSpec(cwd: seq<string>, paths: seq<string>, from: nat)
    requires from <= |paths|
    ensures var r := FirstUnsafe(cwd, paths, from);
      && (r.Some? ==> from <= r.value < |paths| && !IsPathSafe(cwd, FullPath(paths[r.value])))
      && (r.Some? ==> forall j :: from <= j < r.value ==> IsPathSafe(cwd, FullPath(paths[j])))
      && (r.None? <==> forall j :: from <= j < |paths| ==> IsPathSafe(cwd, FullPath(paths[j])))
    decreases |paths| - from
  {
    hide IsPathSafe, FullPath;
    if from < |paths| {
      FirstUnsafeSpec(cwd, paths, from + 1);
    }
  }

  /** The validation loop of handleDownload: it stops at the first rejected path. */
  method ValidatePaths(cwd: seq<string>, paths: seq<string>) returns (rejected: Option<nat>)
    ensures rejected == FirstUnsafe(cwd, paths, 0)
  {
    for i := 0 to |paths|
      invariant FirstUnsafe(cwd, paths, 0) == FirstUnsafe(cwd, paths, i)
    {
      if !IsPathSafe(cwd, FullPath(paths[i])) {
        return Some(i);
      }
    }
    return None;
  }

  function SingleFileHeaders(path: string, size: int): seq<Header>
  {
    [ Header("Content-Description", "File Transfer"),
      Header("Content-Transfer-Encoding", "binary"),
      Header("Content-Disposition", "attachment; filename=" + Base(path)),
      Header("Content-Type", "application/octet-stream"),
      Header("Content-Length", FormatInt(size)),
      Header("Accept-Ranges", "bytes") ]
  }

  /** handleSingleFileDownload, for a request without a Range header. */
  function SingleFileResponse(env: Env, path: string): DownloadResponse
  {
    match Open(env, FullPath(path))
    case None => DownloadError(500, "Failed to open file")
    case Some(o) => FileStream(SingleFileHeaders(path, o.meta.size), o.contents)
  }

  /** The single-file headers name the file by its base name and give a length
      that parses back to its size. */
  lemma SingleFileHeadersDescribeFile(path: string, size: int)
    requires InInt64(size)
    ensures HeaderValue(SingleFileHeaders(path, size), "Content-Length") == Some(FormatInt(size))
    ensures ParseInt64(FormatInt(size)) == Some(size)
    ensures HeaderValue(SingleFileHeaders(path, size), "Content-Disposition") == Some("attachment; filename=" + Base(path))
    ensures HeaderValue(SingleFileHeaders(path, size), "Content-Type") == Some("application/octet-stream")
  {
    var hs := SingleFileHeaders(path, size);
    assert "Content-Description"[9] != "Content-Disposition"[9];
    HeaderValueAt(hs, 2);
    HeaderValueAt(hs, 3);
    HeaderValueAt(hs, 4);
    FormatParseRoundTrip(size);
  }

  /**
   * A file that opens is streamed whole under the headers of its metadata, so
   * its Content-Length reads back as the number of bytes sent whenever the
   * metadata size is the file's byte count; a file that does not open gives 500.
   */
  lemma SingleFileServesContents(env: Env, path: string)
    ensures Open(env, FullPath(path)).None? <==> SingleFileResponse(env, path) == DownloadError(500, "Failed to open file")
    ensures Open(env, FullPath(path)).Some? ==>
      var o := Open(env, FullPath(path)).value;
      var r := SingleFileResponse(env, path);
      && r.FileStream? && r.body == o.contents
      && HeaderValue(r.headers, "Content-Length") == Some(FormatInt(o.meta.size))
      && (o.meta.size == |o.contents| && InInt64(|o.contents|) ==>
            ParseInt64(HeaderValue(r.headers, "Content-Length").value) == Some(|r.body|))
  {
    hide FullPath;
    var f := Open(env, FullPath(path));
    if f.Some? {
      var size := f.value.meta.size;
      var hs := SingleFileHeaders(path, size);
      assert "Content-Description"[9] != "Content-Disposition"[9];
      HeaderValueAt(hs, 4);
      if size == |f.value.contents| && InInt64(size) {
        FormatParseRoundTrip(size);
      }
    }
  }

  const ZipHeaders: seq<Header> := [
    Header("Content-Type", "application/zip"),
    Header("Content-Disposition", "attachment; filename=download.zip"),
    Header("Transfer-Encoding", "chunked") ]

  /** archive/zip refuses names longer than this many bytes (`len` of a Go string). */
  const MaxNameLength: nat := 0xFFFF

  /** The I/O buffer handleMultiFileDownload reuses for every file. */
  const BufferSize: nat := 1048576  // 1 MiB

  /** A name ending in '/' makes archive/zip write a directory entry, which takes no data. */
  predicate IsDirName(name: string)
  {
    name != [] && name[|name| - 1] == '/'
  }

  datatype FileHeader = FileHeader(name: string, compression: Compression, modified: int)

  /** zip.FileInfoHeader: the file's own name and time, method left at its zero value. */
  function FileInfoHeader(m: Meta): FileHeader
  {
    FileHeader(m.name, Store, m.modTime)
  }

  /** The entry one path contributes to the archive, if any. */
  function EntryFor(env: Env, path: string): (r: Option<ZipEntry>)
    ensures r.Some? <==> Stat(env, FullPath(path)).Found? && Open(env, FullPath(path)).Some?
                          && |Utf8Bytes(Base(path))| <= MaxNameLength
    ensures r.Some? ==> r.value.name == Base(path) && r.value.compression == Store
  {
    var full := FullPath(path);
    match Stat(env, full)
    case Found(m) =>
      (match Open(env, full)
       case Some(o) =>
         var name := Base(path);
         if |Utf8Bytes(name)| <= MaxNameLength then
           Some(ZipEntry(name, Store, m.modTime, if IsDirName(name) then [] else o.contents))
         else None
       case None => None)
    case _ => None
  }

  /** The entry of one path as a sequence of at most one entry. */
  function EntryList(env: Env, path: string): seq<ZipEntry>
  {
    match EntryFor(env, path)
    case Some(e) => [e]
    case None => []
  }

  /** The archive's entries for the requested paths, in request order. */
  function ZipEntries(env: Env, paths: seq<string>): (r: seq<ZipEntry>)
    ensures |r| <= |paths|
    ensures forall i :: 0 <= i < |r| ==> r[i].compression == Store && r[i].name != "" && |Utf8Bytes(r[i].name)| <= MaxNameLength
  {
    if paths == [] then []
    else ZipEntries(env, paths[..|paths| - 1]) + EntryList(env, paths[|paths| - 1])
  }

  lemma ZipEntriesStep(env: Env, paths: seq<string>, i: nat)
    requires i < |paths|
    ensures ZipEntries(env, paths[..i + 1]) == ZipEntries(env, paths[..i]) + EntryList(env, paths[i])
  {
    hide FullPath, Base, IsPathSafe;
    assert paths[..i + 1][..i] == paths[..i];
  }

  /** The ZIP writer bound to the response: the entries written so far. */
  class ZipWriter {
    var entries: seq<ZipEntry>

    constructor ()
      ensures entries == []
    {
      entries := [];
    }

    /** Starts a new entry; refuses a name whose UTF-8 form is longer than MaxNameLength bytes. */
    method CreateHeader(h: FileHeader) returns (ok: bool)
      modifies this
      ensures ok == (|Utf8Bytes(h.name)| <= MaxNameLength)
      ensures entries == if ok then old(entries) + [ZipEntry(h.name, h.compression, h.modified, [])] else old(entries)
    {
      ok := |Utf8Bytes(h.name)| <= MaxNameLength;
      if ok {
        entries := entries + [ZipEntry(h.name, h.compression, h.modified, [])];
      }
    }

    /** Appends data to the current entry; a directory entry accepts none. */
    method Write(chunk: seq<byte>) returns (ok: bool)
      requires entries != []
      modifies this
      ensures |entries| == |old(entries)| && entries[..|entries| - 1] == old(entries[..|entries| - 1])
      ensures ok == (!IsDirName(old(entries[|entries| - 1]).name) || chunk == [])
      ensures entries[|entries| - 1] == if ok then old(entries[|entries| - 1]).(data := old(entries[|entries| - 1]).data + chunk)
                                        else old(entries[|entries| - 1])
    {
      var last := entries[|entries| - 1];
      ok := !IsDirName(last.name) || chunk == [];
      if ok {
        entries := entries[..|entries| - 1] + [last.(data := last.data + chunk)];
      }
    }
  }

  /** io.CopyBuffer from a file into the current entry, through `buffer`. */
  method CopyBuffer(zw: ZipWriter, file: Object, buffer: array<byte>) returns (ok: bool)
    requires zw.entries != [] && buffer.Length == BufferSize
    modifies zw, buffer
    ensures |zw.entries| == |old(zw.entries)|
    ensures zw.entries[..|zw.entries| - 1] == old(zw.entries[..|zw.entries| - 1])
    ensures var last := old(zw.entries[|zw.entries| - 1]);
      zw.entries[|zw.entries| - 1] == if IsDirName(last.name) then last else last.(data := last.data + file.contents)
    ensures ok == (!file.readFails && (IsDirName(old(zw.entries[|zw.entries| - 1]).name) ==> file.contents == []))
  {
    var src := file.contents;
    ghost var n := |zw.entries|;
    ghost var front := zw.entries[..n - 1];
    ghost var last := zw.entries[n - 1];
    var pos := 0;
    while pos < |src|
      invariant 0 <= pos <= |src|
      invariant |zw.entries| == n && zw.entries[..n - 1] == front
      invariant zw.entries[n - 1] == last.(data := last.data + src[..pos])
      invariant IsDirName(last.name) ==> pos == 0
    {
      var k := Min(buffer.Length, |src| - pos);
      forall j | 0 <= j < k {
        buffer[j] := src[pos + j];
      }
      assert buffer[..k] == src[pos..pos + k];
      var wrote := zw.Write(buffer[..k]);
      if !wrote {
        assert src[..pos] == [];
        return false;
      }
      assert src[..pos] + src[pos..pos + k] == src[..pos + k];
      pos := pos + k;
    }
    assert src[..pos] == src;
    ok := !file.readFails;
  }

  /** One pass of handleMultiFileDownload's loop: the path's entry is added, or nothing is. */
  method AddFile(env: Env, path: string, zw: ZipWriter, buffer: array<byte>)
    requires buffer.Length == BufferSize
    modifies zw, buffer
    ensures zw.entries == old(zw.entries) + EntryList(env, path)
  {
    hide FullPath, Base, IsPathSafe;
    var fullPath := FullPath(path);
    var info := Stat(env, fullPath);
    if !info.Found? {
      return;
    }
    var file := Open(env, fullPath);
    if file.None? {
      return;
    }
    var header := FileInfoHeader(info.meta).(name := Base(path), compression := Store);
    var created := zw.CreateHeader(header);
    if !created {
      return;
    }
    var copied := CopyBuffer(zw, file.value, buffer);
    assert [] + file.value.contents == file.value.contents;
  }

  /** The loop of handleMultiFileDownload, over one shared buffer. */
  method AddFiles(env: Env, paths: seq<string>, zw: ZipWriter, buffer: array<byte>)
    requires buffer.Length == BufferSize
    modifies zw, buffer
    ensures zw.entries == old(zw.entries) + ZipEntries(env, paths)
  {
    hide FullPath, Base, IsPathSafe;
    ghost var start := zw.entries;
    for i := 0 to |paths|
      invariant zw.entries == start + ZipEntries(env, paths[..i])
    {
      ZipEntriesStep(env, paths, i);
      ghost var before := ZipEntries(env, paths[..i]);
      AddFile(env, paths[i], zw, buffer);
      assert start + before + EntryList(env, paths[i]) == start + (before + EntryList(env, paths[i]));
    }
    assert paths[..|paths|] == paths;
  }

  /** handleMultiFileDownload: one entry per path that stats, opens and gets a header; the rest are skipped. */
  method HandleMultiFileDownload(env: Env, paths: seq<string>, zw: ZipWriter) returns (headers: seq<Header>)
    modifies zw
    ensures headers == ZipHeaders
    ensures zw.entries == old(zw.entries) + ZipEntries(env, paths)
  {
    headers := ZipHeaders;
    var buffer := new byte[BufferSize];
    AddFiles(env, paths, zw, buffer);
  }

  /** handleDownload: every path is validated before anything is opened; then one
      path is served as a file and two or more as a ZIP archive. */
  method HandleDownload(env: Env, paths: seq<string>) returns (resp: DownloadResponse)
    ensures paths == [] ==> resp == DownloadError(400, "No files specified for download")
    ensures paths != [] && FirstUnsafe(env.cwd, paths, 0).Some? ==>
      resp == DownloadError(400, "Invalid file path: " + paths[FirstUnsafe(env.cwd, paths, 0).value])
    ensures |paths| == 1 && FirstUnsafe(env.cwd, paths, 0).None? ==> resp == SingleFileResponse(env, paths[0])
    ensures |paths| >= 2 && FirstUnsafe(env.cwd, paths, 0).None? ==> resp == ZipStream(ZipHeaders, ZipEntries(env, paths))
  {
    hide FullPath, Base, IsPathSafe;
    if |paths| == 0 {
      return DownloadError(400, "No files specified for download");
    }
    var rejected := ValidatePaths(env.cwd, paths);
    if rejected.Some? {
      return DownloadError(400, "Invalid file path: " + paths[rejected.value]);
    }
    if |paths| == 1 {
      return SingleFileResponse(env, paths[0]);
    }
    var zw := new ZipWriter();
    var headers := HandleMultiFileDownload(env, paths, zw);
    return ZipStream(headers, zw.entries);
  }

  /** The archive follows request order: the entries of a concatenation are those of each part. */
  lemma {:induction false} ZipEntriesAppend(env: Env, a: seq<string>, b: seq<string>)
    ensures ZipEntries(env, a + b) == ZipEntries(env, a) + ZipEntries(env, b)
    decreases |b|
  {
    hide FullPath, Base, IsPathSafe, EntryList;
    if b == [] {
      assert a + b == a;
    } else {
      var front, last := b[..|b| - 1], b[|b| - 1];
      assert (a + b)[..|a + b| - 1] == a + front;
      ZipEntriesAppend(env, a, front);
      var za, zf, zl := ZipEntries(env, a), ZipEntries(env, front), EntryList(env, last);
      assert ZipEntries(env, a + b) == za + zf + zl;
      assert za + zf + zl == za + (zf + zl);
    }
  }

  /** A path that yields no entry is skipped silently: the archive is that of the other paths. */
  lemma SkippedPath(env: Env, paths: seq<string>, k: nat)
    requires k < |paths| && EntryFor(env, paths[k]).None?
    ensures ZipEntries(env, paths) == ZipEntries(env, paths[..k]) + ZipEntries(env, paths[k + 1..])
  {
    hide FullPath, Base, IsPathSafe;
    var front := paths[..k] + [paths[k]];
    assert paths == front + paths[k + 1..];
    ZipEntriesAppend(env, front, paths[k + 1..]);
    assert front[..|front| - 1] == paths[..k];
    assert ZipEntries(env, front) == ZipEntries(env, paths[..k]);
  }

  /** When every path yields an entry, the archive has one entry per path, in order. */
  lemma {:induction false} ZipEntriesAllPresent(env: Env, paths: seq<string>)
    requires forall i :: 0 <= i < |paths| ==> EntryFor(env, paths[i]).Some?
    ensures |ZipEntries(env, paths)| == |paths|
    ensures forall i :: 0 <= i < |paths| ==> ZipEntries(env, paths)[i] == EntryFor(env, paths[i]).value
    decreases |paths|
  {
    hide FullPath, Base, IsPathSafe;
    if paths != [] {
      var front := paths[..|paths| - 1];
      ZipEntriesAllPresent(env, front);
      var last := EntryFor(env, paths[|paths| - 1]);
      assert ZipEntries(env, paths) == ZipEntries(env, front) + [last.value];
      forall i | 0 <= i < |paths|
        ensures ZipEntries(env, paths)[i] == EntryFor(env, paths[i]).value
      {
        if i < |front| {
          assert front[i] == paths[i];
        }
      }
    }
  }

  /**
   * An existing object that opens and whose base name is short enough is
   * archived under its base name, with its modification time; a file's whole
   * contents go in, a name ending in '/' gets none. Nested paths included.
   */
  lemma RegularFileEntry(env: Env, path: string, o: Object)
    requires FullPath(path) in env.fs && env.fs[FullPath(path)] == Present(o)
    requires o.openable && |Utf8Bytes(Base(path))| <= MaxNameLength
    ensures EntryFor(env, path) ==
      Some(ZipEntry(Base(path), Store, o.meta.modTime, if IsDirName(Base(path)) then [] else o.contents))
    ensures !IsDirName(Base(path)) ==> EntryFor(env, path).value.data == o.contents
  {
  }

  /** A bare file name is archived under that very name. */
  lemma BareNameEntry(env: Env, path: string, o: Object)
    requires FullPath(path) in env.fs && env.fs[FullPath(path)] == Present(o)
    requires o.openable && path != "" && '/' !in path
    requires |Utf8Bytes(path)| <= MaxNameLength
    ensures EntryFor(env, path) == Some(ZipEntry(path, Store, o.meta.modTime, o.contents))
  {
    BaseOfName("", path);
    RegularFileEntry(env, path, o);
  }
}
