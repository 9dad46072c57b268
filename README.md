# File streaming service, modelled in Dafny

The repository is a small file-streaming service with three parts:

- A Go back end (`streaming/backend/main.go`). It lists a data directory and serves downloads: one file as a plain stream, several as a ZIP archive written straight to the response. Every client path is joined onto `./data`. It is accepted only if its absolute form starts, as a string, with the absolute data directory.
- A browser front end (`streaming/frontend/js/main.js`). It shows the listing with icons and a search box, keeps the set of ticked paths, and builds the download URL.
- A Go test service (`test/hello-service/main.go`). It serves a requested number of random bytes through a seekable reader, and counts the bytes of an upload.

The model is split by concern:

| file | module | what it holds |
|---|---|---|
| `wrappers.dfy` | `Wrappers` | `Option`, `byte`, `Min`/`Max`, `Sum` |
| `text.dfy` | `Text` | splitting and joining on a separator, prefixes, substring search, ASCII lower-casing |
| `unicode.dfy` | `Unicode` | the UTF-8 encoding of a character and of a string, and its decoding |
| `decimal.dfy` | `Decimal` | int64 range and wrap-around, `%d` formatting, `strconv.ParseInt(s, 10, 64)` |
| `filepath.dfy` | `FilePath` | Go's lexical `filepath.Clean`, `Join`, `Abs`, `Base` and `Rel(".", p)` on Unix paths, with a fixed working directory |
| `http.dfy` | `Http` | response headers and header lookup |
| `file_service.dfy` | `FileService` | the back end: containment check, listing, single-file and ZIP downloads |
| `hello_service.dfy` | `HelloService` | the test service: `RandomDataReader`, the upload counter, the download size and headers |
| `file_downloader.dfy` | `Frontend` | the front end: icons, filter, selection set, UI state, download URL |

The modelling choices:

- **Clean.** `filepath.Clean` is a fold over the `/`-separated elements. Its state is a `Stack`: the count of leading `..` elements and the names kept so far.
- **Abs.** `filepath.Abs` puts the working directory in front of a relative path and cleans the result. The working directory is a parameter, given as its names.
- **File system.** It is a map from the cleaned relative paths the handlers pass to the OS to what the service can observe of each object:
  - its metadata;
  - whether it opens;
  - the bytes a read yields, and whether reading then fails;
  - for a directory, the result of `os.ReadDir`.
  
  A path can also be present but unreachable, meaning `os.Stat` fails with an error other than "does not exist".
- **ZIP archive.** The ZIP writer is a class holding the entries written so far: name, method, modification time and data. There is no byte-level format.
- **Front-end state.** The front end's state is a class whose fields are:
  - the loaded listing;
  - the selected paths, in insertion order, as a JavaScript `Set` keeps them;
  - the rendered rows;
  - the state `updateUI` assigns to the page.

The containment check is modelled **as written**. The lemma `FileService.SafeIff` characterises exactly which paths it accepts: those that resolve to the working directory followed by a name that *starts with* `data`. So the directory itself and everything below it are accepted, as `FileService.InsideIsSafe` shows, and so is every path without a `..` element, as `FileService.NoParentAccepted` shows. A sibling such as `../data2/f` is accepted too, as `FileService.SiblingAccepted` shows.

A failed copy into the archive is sometimes described as omitting the file. The code differs: by the time `io.CopyBuffer` fails (`streaming/backend/main.go:259-270`), `CreateHeader` has already added the entry. The model follows the code, so the entry stays in the archive with the bytes that were read.

## Model

| member | source | states |
|---|---|---|
| FileService.DataDirAbsolute | streaming/backend/main.go:279 | the absolute data directory is the working directory followed by the name `data` |
| FileService.FullPathAbsolute | streaming/backend/main.go:278-290 | the absolute form of `Join("./data", p)` is the rooted rendering of the names the path resolves to |
| FileService.SafeIff | streaming/backend/main.go:278-290 | isPathSafe accepts a client path exactly when it resolves to the working directory followed by a name that starts with `data` |
| FileService.InsideIsSafe | streaming/backend/main.go:278-290 | every path resolving to the data directory or below it is accepted |
| FileService.NoParentAccepted | streaming/backend/main.go:278-290 | a path with no `..` element, a leading `/` included, resolves inside the data directory and is accepted |
| FileService.DefaultDirectoryAccepted | streaming/backend/main.go:62-93 | the listing's default path `.` is the data directory and passes the check |
| FileService.OutsideRejected | streaming/backend/main.go:278-290 | a path resolving under the working directory to a name that does not start with `data` (or to the working directory itself) is rejected |
| FileService.ClimbingPath | streaming/backend/main.go:168 | `../n1/…/nk` resolves to the working directory followed by `n1 … nk` |
| FileService.ParentRejected | streaming/backend/main.go:167-175 | `../x`, where `x` does not start with `data`, climbs out of the data directory and is rejected |
| FileService.SiblingAccepted | streaming/backend/main.go:278-290 | `../data2/f` resolves outside the data directory yet passes the raw string-prefix test |
| FileService.Collect | streaming/backend/main.go:128-148 | the listing has at most as many records as there are directory entries |
| FileService.ListFiles | streaming/backend/main.go:60-154 | the error ladder in order: 400 on containment, 404 on not-exist, 500 on another stat error, 400 on a non-directory, 500 on a ReadDir error; else the entries in order minus those whose Info fails |
| FileService.CollectAppend | streaming/backend/main.go:129-148 | the listing keeps entry order: a concatenation lists as the concatenation of its parts |
| FileService.CollectAllReadable | streaming/backend/main.go:129-148 | when every Info succeeds, record i is built from entry i and there are as many records as entries |
| FileService.EntryPathIsJoin | streaming/backend/main.go:135-139 | a record's path is the cleaned join of the listed directory and the entry name (Rel from "." changes nothing) |
| FileService.FirstUnsafe | streaming/backend/main.go:167-175 | the rejected index, if any, lies in the range scanned |
| FileService.FirstUnsafeSpec | streaming/backend/main.go:167-175 | the rejected path is the first unsafe one; nothing is rejected exactly when every path is safe |
| FileService.ValidatePaths | streaming/backend/main.go:167-175 | the validation loop stops at the first path that fails isPathSafe |
| FileService.HandleDownload | streaming/backend/main.go:157-183 | zero paths give 400; any unsafe path gives 400 naming the first one, before anything is opened; one path is a single-file download; two or more give the ZIP headers and the ZIP entries of all paths |
| Http.HeaderValueAt | streaming/backend/main.go:207-212 | a header whose key no earlier header has is read back with its value |
| FileService.SingleFileHeadersDescribeFile | streaming/backend/main.go:207-212 | the single-file headers give the base name, the octet-stream type and a Content-Length that parses back to the size |
| FileService.SingleFileServesContents | streaming/backend/main.go:186-216 | 500 exactly when the file does not open; otherwise the body is the file's bytes, and when the metadata size is their count the Content-Length parses back to the number of bytes sent |
| FileService.EntryFor | streaming/backend/main.go:234-263 | a path yields an entry exactly when stat and open succeed and the UTF-8 form of the base name fits a ZIP header (at most 65535 bytes); the entry is named Base(path) and stored |
| FileService.ZipEntries | streaming/backend/main.go:233-274 | at most one entry per path, each stored, with a non-empty name whose UTF-8 form is at most 65535 bytes |
| FileService.ZipWriter.CreateHeader | streaming/backend/main.go:259-263 | a header is refused exactly when the UTF-8 form of its name is longer than 65535 bytes; otherwise an empty entry is appended |
| FileService.ZipWriter.Write | streaming/backend/main.go:266 | data goes to the last entry only; a directory entry refuses a non-empty chunk |
| FileService.CopyBuffer | streaming/backend/main.go:230-270 | copying through the shared 1 MiB buffer appends the file's bytes to the current entry, and reports failure when reading fails |
| FileService.AddFile | streaming/backend/main.go:233-274 | one pass of the loop appends the path's entry, or nothing when stat, open or CreateHeader fails |
| FileService.AddFiles | streaming/backend/main.go:232-274 | the whole loop appends the entries of all paths in request order |
| FileService.HandleMultiFileDownload | streaming/backend/main.go:219-275 | the ZIP headers, and the archive is exactly the entries of the requested paths |
| FileService.ZipEntriesAppend | streaming/backend/main.go:233 | the archive follows request order: the entries of a concatenation are those of each part |
| FileService.SkippedPath | streaming/backend/main.go:237-263 | a path without an entry is skipped silently and changes nothing else in the archive |
| FileService.ZipEntriesAllPresent | streaming/backend/main.go:233-274 | when every path yields an entry, entry i belongs to path i |
| FileService.RegularFileEntry | streaming/backend/main.go:249-266 | any path, nested or not, to an object that opens and whose base name fits is archived under its base name with its modification time; a file's contents go in whole |
| FileService.BareNameEntry | streaming/backend/main.go:249-266 | a bare file name is archived under that very name, with its whole contents |
| FilePath.CleanIdempotent | streaming/backend/main.go:135-136 | cleaning a cleaned path changes nothing |
| FilePath.AbsRelative | streaming/backend/main.go:278-285 | Abs of a relative path is the working directory, minus what its leading `..` climb, followed by its names |
| FilePath.BaseOfName | streaming/backend/main.go:255 | Base of a name, of a name after a directory, or of a name with a trailing slash is that name |
| Unicode.Utf8LeadLength | streaming/frontend/js/main.js:116 | the lead byte of a character's UTF-8 form announces the form's length |
| Unicode.Utf8Decodes | streaming/frontend/js/main.js:116 | decoding a character's UTF-8 form gives the character back |
| Unicode.Utf8Injective | streaming/frontend/js/main.js:116 | two characters with the same UTF-8 form are the same character |
| Unicode.Utf8BytesAscii | streaming/backend/main.go:255-263 | an ASCII name is as many bytes long as it has characters |
| Decimal.FormatParseRoundTrip | streaming/backend/main.go:211 | parsing what `%d` printed gives back every int64 |
| HelloService.ReadSizes | test/hello-service/main.go:40-57 | successive reads return between 1 and len(p) bytes each |
| HelloService.ReadSizesSum | test/hello-service/main.go:40-57 | the reads from an offset until end of file deliver exactly size - offset bytes, or none when the offset is at or past the size |
| HelloService.ReadSizesFull | test/hello-service/main.go:45-49 | every read but the last fills the whole buffer |
| HelloService.RandomDataReader.constructor | test/hello-service/main.go:204 | a new reader has the given size and position zero |
| HelloService.RandomDataReader.Read | test/hello-service/main.go:40-57 | end of file, with the position unchanged, exactly when the position is at or past the size; else n = min(len(p), size - offset) bytes, the position advances by n, and only p[0..n) is written |
| HelloService.SeekTarget | test/hello-service/main.go:59-71 | the target is the int64 congruent to the offset plus the start, the position or the size; none for an unknown whence |
| HelloService.SeekTargetExact | test/hello-service/main.go:62-67 | without overflow the target is the plain sum, which may lie beyond the size |
| HelloService.RandomDataReader.Seek | test/hello-service/main.go:59-78 | an unknown whence or a negative target is refused, returning 0 and leaving the position; else the position becomes the target, which is returned |
| Decimal.Wrap64Add | test/hello-service/main.go:222 | adding into a wrapped int64 total is the same as wrapping the whole sum |
| HelloService.FirstStop | test/hello-service/main.go:219-234 | the loop stops at the first read that reports end of file or an error |
| HelloService.HandleFileUpload | test/hello-service/main.go:208-247 | the answer is the upload outcome: 400 without a positive Content-Length, 500 on a read error, else the wrapped sum of the bytes read up to and including the end-of-file read |
| HelloService.UploadCountsEveryRead | test/hello-service/main.go:219-228 | with no error, the size reported is the sum of every read, the one returned with end of file included |
| HelloService.UploadFailsOnError | test/hello-service/main.go:229-233 | a read error before end of file fails the upload with 500, whatever was counted |
| HelloService.DownloadSize | test/hello-service/main.go:187-192 | the size is the parsed query value when it parses as an int64, and 1048576 otherwise |
| HelloService.DownloadSizeRoundTrip | test/hello-service/main.go:187-192 | every int64 written in decimal is served at that size |
| HelloService.DownloadLengthMatches | test/hello-service/main.go:195-205 | the Content-Length header parses back to the size, and for a non-negative size a reader of that size delivers exactly that many bytes |
| HelloService.HandleFileDownload | test/hello-service/main.go:185-206 | the headers for the size and a fresh reader of that size at position zero |
| Frontend.Extension | streaming/frontend/js/main.js:125 | the extension never contains a dot |
| Frontend.ExtensionAfterDot | streaming/frontend/js/main.js:125 | the extension is the text after the last dot |
| Frontend.ExtensionWithoutDot | streaming/frontend/js/main.js:125 | a name without a dot is its own extension |
| Frontend.GetFileIcon | streaming/frontend/js/main.js:124-143 | the icon is a table value or `fa-file`, and `fa-file` exactly when the lower-cased extension is not in the table |
| Frontend.IconOfExtension | streaming/frontend/js/main.js:125-142 | an extension in any case gets the table's icon for its lower-case form (`A.PDF` gets `fa-file-pdf`) |
| Frontend.GetFileIconAsWritten | streaming/frontend/js/main.js:142 | the lookup as written agrees with the table lookup except for the inherited keys `constructor` and `__proto__` |
| Frontend.ConstructorExtensionMisread | streaming/frontend/js/main.js:142 | `notes.constructor` gets an Object.prototype member instead of an icon class |
| Frontend.IconFor | streaming/frontend/js/main.js:63 | the icon is `fa-folder` exactly for directories |
| Frontend.Filter | streaming/frontend/js/main.js:105-108 | every file kept comes from the listing and contains the term, ignoring case |
| Frontend.FilterComplete | streaming/frontend/js/main.js:105-108 | no matching file is dropped |
| Frontend.FilterAppend | streaming/frontend/js/main.js:106 | the filter keeps listing order |
| Frontend.FilterEmptyTerm | streaming/frontend/js/main.js:105-108 | an empty search keeps every file |
| Frontend.SetAdd | streaming/frontend/js/main.js:81 | adding puts a new path last, keeps a present one in place, affects no other path and keeps the set free of duplicates |
| Frontend.SetDelete | streaming/frontend/js/main.js:83 | deleting removes exactly that path and keeps the set free of duplicates |
| Frontend.SetDeleteAppend | streaming/frontend/js/main.js:83 | deleting from two runs of paths deletes from each run and keeps them in order |
| Frontend.SetDeleteKeepsOrder | streaming/frontend/js/main.js:83 | deleting a path from `a, x, b` (x in neither part) leaves exactly `a, b`, in insertion order |
| Frontend.SelectionIdempotent | streaming/frontend/js/main.js:79-85 | checking twice equals checking once; unchecking twice equals unchecking once |
| Frontend.AddThenDelete | streaming/frontend/js/main.js:79-85 | checking a new box and unchecking it again restores the selection |
| Frontend.CheckedSizeUpdate | streaming/frontend/js/main.js:95-96 | ticking or unticking one box moves the total by exactly that box's size |
| Frontend.CheckedSizeRendered | streaming/frontend/js/main.js:95-96 | freshly rendered rows contribute nothing to the total |
| Frontend.CountTextForms | streaming/frontend/js/main.js:92 | `1 file selected` for one, `N files selected` for any other N |
| Frontend.CountTextReadBack | streaming/frontend/js/main.js:92 | the count is read back from the text before the first space |
| Frontend.UiFor | streaming/frontend/js/main.js:90-102 | the button is disabled exactly when nothing is selected; select-all is checked exactly when 0 < count = rows and indeterminate exactly when 0 < count < rows, never both |
| Frontend.EncodeUriComponent | streaming/frontend/js/main.js:116 | the encoding uses only unreserved characters and `%` escapes, and leaves an unreserved string as it is |
| Frontend.EncodeCharPrefixFree | streaming/frontend/js/main.js:116 | a character's encoding is recognised at the front of an encoded text: equal texts starting with two encodings start with the same character and agree after it |
| Frontend.EncodeUriComponentInjective | streaming/frontend/js/main.js:116 | two paths with the same encoding are the same path |
| Frontend.QueryParamInjective | streaming/frontend/js/main.js:116 | two equal `files=` parameters name the same path |
| Frontend.QueryParamsDistinct | streaming/frontend/js/main.js:115-117 | distinct selected paths give distinct parameters |
| Frontend.DownloadUrlSplits | streaming/frontend/js/main.js:112-121 | no URL for an empty selection; otherwise the query splits on `&` back into exactly the per-path parameters |
| Frontend.DownloadUrlInjective | streaming/frontend/js/main.js:112-121 | two selections that navigate to the same URL are equal, order included |
| Frontend.LoadFilesAsWritten | streaming/frontend/js/main.js:42-51 | as written, the JSON body itself is stored; only an array is rendered, anything else shows `Failed to load files` and leaves the rows as they were |
| Frontend.FilterFilesAsWritten | streaming/frontend/js/main.js:106-110 | as written, a search renders the matching files only when what was stored is an array, and throws otherwise |
| Frontend.ListingNeverRenders | streaming/frontend/js/main.js:45-46 | every answer of the listing handler, success included, ends in the alert, leaves the object in `this.files`, and makes a later search throw |
| Frontend.SelectEachMembers | streaming/frontend/js/main.js:23-29 | after select-all a path is selected exactly when it was before or is a row's path (ticking), or was before and is no row's path (unticking); no duplicates appear, and ticking keeps the old paths first in their order |
| Frontend.SelectEachUnchecked | streaming/frontend/js/main.js:23-29 | unticking all rows leaves the old selection minus the rows' paths, in its own order |
| Frontend.FileDownloader.constructor | streaming/frontend/js/main.js:2-5 | no files, no selection, no rows |
| Frontend.FileDownloader.LoadFiles | streaming/frontend/js/main.js:42-51 | reading the answer's `files` member: a listing is kept and rendered; an error answer shows `Failed to load files` and leaves the listing and rows; the selection and page state are untouched |
| Frontend.FileDownloader.RenderFiles | streaming/frontend/js/main.js:53-60 | the rows are re-rendered unchecked; the selection and page state are untouched |
| Frontend.FileDownloader.FilterFiles | streaming/frontend/js/main.js:105-110 | the rows become those of the matching files; the selection survives the filter |
| Frontend.FileDownloader.UpdateUI | streaming/frontend/js/main.js:89-103 | the page state becomes the one computed from the selection size and the rows |
| Frontend.FileDownloader.HandleFileSelection | streaming/frontend/js/main.js:79-87 | the box takes its new state, its path is added or deleted, and the page state is recomputed |
| Frontend.FileDownloader.SelectAllChanged | streaming/frontend/js/main.js:23-29 | every row takes the select-all state; the selection is the old one passed through Set.add (ticking) or Set.delete (unticking) of each row's path in row order; the page is updated when there is at least one row |
| Frontend.FileDownloader.DownloadSelectedFiles | streaming/frontend/js/main.js:112-121 | nothing for an empty selection, else the download URL |

## Left out

- Routing, `main`, logging, the health check and static file serving (Gin, gorilla/mux, `http.FileServer`): framework glue with no logic of its own.
- `http.ServeContent`: range requests, conditional requests and the byte streaming itself. `FileService.SingleFileResponse` is the response to a request without a Range header, and the random-file download ends at the reader it creates.
- The byte-level ZIP format of `archive/zip`: entries are kept as name, method, time and data. So are the writer's own I/O errors towards the response, and `Flush`.
- `filepath.Abs` failing, which needs `os.Getwd` to fail. The working directory is a fixed parameter, so the `err != nil` branches at `streaming/backend/main.go:73-86` and `280-287` are not modelled.
- Windows paths and the case-insensitive prefix test of `filepath.HasPrefix` there: the model is Unix-only.
- `zip.FileInfoHeader` failing: for a file's own metadata it never fails, so the model always builds the header.
- FileService.SingleFileResponse: it does not model `file.Stat()` failing after a successful open, because the metadata of an opened object always reads. The error messages are the fixed text before `%v`, without the OS error.
- The JSON encoding of the responses, and times, which are kept as integers.
- The int64 range of sizes in the listing and the archive. A ZIP entry's data is not limited to 4 GiB, because archive/zip writes ZIP64 records.
- The WebSocket echo handler, the `/api/` and `/api/json` endpoints and UUID validation: network I/O and library calls.
- The random bytes of `RandomDataReader.Read`: `rand.Intn` is modelled as an arbitrary byte.
- The 32 KiB upload buffer: each read's count is taken as given. HandleFileUpload requires that the body ends with end of file or an error; a body that never ends leaves the loop running forever, and that case is not modelled.
- Frontend.Render: a row's data-path is taken to be the file's path. The page writes the path into the HTML unescaped (`data-path="${file.path}"`, `streaming/frontend/js/main.js:65-67`) and reads it back through `checkbox.dataset.path`, so a name containing `"` or an entity such as `&amp;` is not read back as written and the page selects and requests a different path; the model does not capture that.
- `formatSize`, which uses floating point; `formatDate`, which is locale-dependent; `showError`; and the HTML text of each row beyond its path, size, icon and checked state.
- `fetch` and JSON parsing: `Frontend.FileDownloader.LoadFiles` takes the listing handler's answer as a value. A network failure or a body that is not JSON, which reach the same catch block, are not modelled separately.
- Frontend.FileDownloader.constructor: the `loadFiles()` call at the end of the constructor is not part of it; the caller runs LoadFiles on the answer.
- Frontend.CheckedSize: sums the rows' sizes as exact integers. The page reads each size back with `parseInt(checkbox.dataset.size)`, a double, and adds doubles, so sizes or totals above 2^53 bytes are rounded there and not in the model.
- Frontend.Matches: lower-casing covers ASCII letters only; JavaScript's full Unicode `toLowerCase` is not modelled.
- Navigation to the download URL (`window.location.href`): `Frontend.FileDownloader.DownloadSelectedFiles` returns the URL instead.

## Findings

| source | as written | input that shows it | evidently intended | confidence | as-written member | corrected member |
|---|---|---|---|---|---|---|
| streaming/frontend/js/main.js:142 | `icons[ext] \|\| 'fa-file'` looks the lower-cased extension up on an object literal, so it also finds the members the literal inherits from Object.prototype | a file named `notes.constructor` (or `x.__proto__`): the lookup yields Object's constructor function, which is truthy and lands in the `class` attribute | only the table's own entries count, and every other extension gets `fa-file` | high, not executed | Frontend.ConstructorExtensionMisread | Frontend.GetFileIcon |
| streaming/frontend/js/main.js:45-46 | `this.files = await response.json()` stores the whole answer of GET /api/files, the object `{currentPath, files}` built at `streaming/backend/main.go:150-153`; renderFiles then calls `files.map` on it, which throws, and the catch shows `Failed to load files`; `this.files.filter` in filterFiles throws as well | any answer, e.g. `{"currentPath": ".", "files": []}` | store and render the answer's `files` member, `(await response.json()).files`; an error answer shows the alert and leaves the page as it was | high, not executed | Frontend.ListingNeverRenders | Frontend.FileDownloader.LoadFiles |
