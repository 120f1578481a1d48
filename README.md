# Ubuntu Image Fetcher, modelled in Dafny

The program reads one line of comma-separated image URLs. It fetches each URL
in turn and rejects responses that fail or are not declared as images. It
skips a body whose MD5 digest matches a body it has already saved during the run, and writes
every other body to `Fetched_Images/<name>`. The name is the last segment of
the URL path, or `downloaded_<8 hex digits>.jpg` when that segment is empty or
has no `.`.

This project models the program's decision logic, one module per concern:

- `PyStr` (`pystr.dfy`): Python's `str.split(",")`, `str.strip()` and `str.startswith`,
  with the whitespace set of `str.isspace`.
- `PosixPath` (`posixpath.dfy`): `os.path.basename` and `os.path.join` for POSIX paths.
- `Digests` (`digests.dfy`): bytes, UTF-8 encoding (`str.encode()`), and the shape of
  an MD5 `hexdigest()`.
- `Filenames` (`filenames.dfy`): `get_filename_from_url`.
- `Fetcher` (`fetcher.dfy`): `fetch_image`. `Fetch` is a pure specification of one call.
  `Session` is a class holding the mutable `knownHashes` set. Its `FetchImage` method
  follows the source step by step and is proved to match `Fetch`.
- `Driver` (`driver.dfy`): `main`. `CleanUrls` is the split/strip/filter of the input line.
  `Replay` specifies a whole run as a fold of `Fetch` over the URLs. `Run` is the loop that
  threads one `Session` through the fetches, proved to match `Replay`.

Every input from outside the program is a parameter:

- the input line;
- `urlparse(url).path` (`Tools.urlPath`);
- MD5 over bytes (`Tools.md5`, any function returning 32 lower-case hex digits);
- the outcome of the k-th request (`net(k)`);
- whether the write attempted by the k-th fetch succeeds (`writeOk(k)`).

The files written and the URLs requested are ghost logs in `Session`. A run's
per-URL results stand for its printed report lines. Filename derivation is a
Dafny function, so the same URL always gives the same name.

`raise_for_status` raises only for statuses 400 to 599, so a final 1xx or 3xx
response goes on to the content-type check (`Fetcher.RaisesForStatus`). A request
that raises and an error status are both `RequestException`s, so both are
reported as `ConnectionError`.

## Model

| member | source | states |
|---|---|---|
| PyStr.Strip | main.py:74 | `u.strip()` neither starts nor ends with whitespace and is no longer than `u` |
| PyStr.StripLeftIsSuffix | main.py:74 | the left half of `strip` removes only whitespace and keeps the rest of the string |
| PyStr.StripRightIsPrefix | main.py:74 | the right half of `strip` removes only whitespace and keeps the start of the string |
| PyStr.StripIsSlice | main.py:74 | `u.strip()` is a contiguous slice of `u` with only whitespace before and after it |
| PyStr.StripEmptyIff | main.py:74 | `u.strip()` is empty, so the filter `if u.strip()` drops `u`, exactly when `u` is all whitespace |
| PyStr.StripKeepsChars | main.py:74 | stripping adds no character, so a URL has a comma only if its piece had one |
| PyStr.StripIdempotent | main.py:74 | a property of `str.strip()` itself: its result is a fixed point |
| PyStr.StartsWith | main.py:25 | `content_type.startswith("image/")`: the string begins with the prefix |
| PyStr.Split | main.py:64 | `line.split(",")` has one piece more than the line has commas, so an empty line gives one empty piece |
| PyStr.SplitPiecesFree | main.py:64 | no piece of `line.split(",")` contains a comma |
| PyStr.SplitThenJoin | main.py:64 | joining the pieces with commas gives back the line: splitting loses and reorders nothing |
| PyStr.JoinThenSplit | main.py:64 | comma-free pieces are recovered by splitting their join, the other half of the round trip |
| PyStr.SplitWithoutSeparator | main.py:64 | a line without commas is one piece |
| PyStr.SplitAtSeparator | main.py:64 | splitting `a,b` gives the pieces of `a` followed by those of `b` |
| PosixPath.Basename | main.py:10 | `basename(path)` has no `/`, is a suffix of the path, and is all of it or follows a `/` |
| PosixPath.Join | main.py:31 | `posixpath.join` for two components: an absolute `b` replaces `a`; otherwise `b` is appended, with one `/` in between unless `a` is empty or ends in `/` |
| PosixPath.JoinShape | main.py:31 | `os.path.join(a, b)` ends with `b`; an absolute `b` is the whole result; otherwise the result starts with `a`, and between `a` and `b` there is a single `/` when `a` is non-empty without a trailing `/`, and nothing when `a` is empty or ends in `/` |
| PosixPath.BasenameAfterSlash | main.py:10 | a name without `/` after a directory ending in `/` is its own basename |
| PosixPath.JoinPlainName | main.py:31 | `os.path.join(save_dir, filename)` starts with `save_dir`, its basename is `filename`, and it is `save_dir + "/" + filename` (or `save_dir + filename` when `save_dir` is empty or ends in `/`) |
| Digests.EncodeChar | main.py:12 | the UTF-8 encoding of a character is 1 to 4 bytes; an ASCII character is one byte with its own code |
| Digests.Encode | main.py:12 | `url.encode()` has between one and four bytes per character |
| Filenames.FallbackName | main.py:12 | the synthesised name is `downloaded_`, the first 8 digest digits (lower-case hex) and `.jpg`: 23 characters, with a `.` and no `/` |
| Filenames.FilenameFromUrl | main.py:6-13 | the name is never empty, always has a `.` and never a `/`; it is the last path segment when that is non-empty with a `.`, and otherwise the fallback from the digest of the encoded URL |
| Filenames.DerivedNameIsStable | main.py:9-13 | a derived name is its own basename; as a property of the naming rule alone, applying it to a URL whose path is a derived name returns that name |
| Fetcher.Fetch | main.py:15-56 | a file is written iff a path is returned iff the known set changes. The set only grows, and only by the new body's hash. Transport and HTTP errors, non-`image/` types (a missing type counts as `""`) and known hashes return nothing and change nothing. A failed write of a new image is reported as another error and leaves the set unchanged. A saved file is written at the returned path with the response body |
| Fetcher.RaisesForStatus | main.py:21 | `raise_for_status()` raises for the statuses 400 to 599 and no other |
| Fetcher.DeclaredType | main.py:24 | `headers.get("Content-Type", "")`: the header's value, or `""` when it is absent |
| Fetcher.FetchSavedPath | main.py:30-31 | a saved path is `save_dir` joined with the derived name: it starts with `save_dir`, has the derived name as basename, and is exactly `save_dir + "/" + name` when `save_dir` is non-empty without a trailing `/` (or `save_dir + name` otherwise) |
| Fetcher.Session.constructor | main.py:71 | a run starts with no known hashes, nothing written, nothing requested |
| Fetcher.Session.FetchImage | main.py:15-56 | one call requests the URL once, returns what `Fetch` says, and leaves the set and the written files as `Fetch` says |
| Driver.StripAll | main.py:74 | `u.strip()` is applied to every piece, in order, one result per piece |
| Driver.StripAllShape | main.py:74 | every stripped piece is stripped, and comma-free when its piece was |
| Driver.StripAllConcat | main.py:74 | stripping pieces piecewise keeps their order |
| Driver.DropEmpty | main.py:74 | the filter keeps only non-empty strings, each one taken from its input |
| Driver.DropEmptyConcat | main.py:74 | the filter keeps order: it distributes over concatenation |
| Driver.DropEmptyEmptyIff | main.py:74 | the filter keeps nothing exactly when every input is empty |
| Driver.CleanUrls | main.py:64-74 | every URL handed to `fetch_image` is non-empty, has no surrounding whitespace and no comma; there are at most as many as pieces |
| Driver.CleanUrlsOfPiece | main.py:64-74 | a line without commas yields its stripped self, or nothing when blank |
| Driver.CleanUrlsAtComma | main.py:64-74 | the URLs of `a,b` are those of `a` followed by those of `b`: input order is preserved |
| Driver.SplitBlankIff | main.py:64 | every piece of the split line is blank exactly when the line is only whitespace and commas |
| Driver.BlankLineFetchesNothing | main.py:64-75 | the line yields no URL, so no fetch, exactly when it is empty or only whitespace and commas |
| Driver.Replay | main.py:71-75 | a whole run: the fold of one `fetch_image` per cleaned URL, in order, threading one known-hash set from empty, with the k-th request's outcome and the k-th write's success as inputs |
| Driver.FetchSavesAtSavedPath | main.py:30-31 | a fetch from `main`, whose `save_dir` is `Fetched_Images` (main.py:67), writes and reports only `Fetched_Images/<derived name of its URL>` |
| Driver.ReplayWritesIntoSaveDir | main.py:67-75 | every file a run writes is `Fetched_Images/<name>` for the derived name of one of its URLs |
| Driver.ReportedPathIsOwn | main.py:67-75 | a URL reported as saved was saved at `Fetched_Images/<its own derived name>` |
| Driver.DistinctAppend | main.py:34-44 | writing a body whose hash is not yet known keeps the hashes of written bodies pairwise distinct |
| Driver.ReplayRequestsAll | main.py:50-56 | every URL is requested in order, whatever befell the earlier ones (errors are not fatal), and each gets one result |
| Driver.ReplayKnownIsWritten | main.py:34-44 | across a run, the known set is exactly the set of hashes of the files written, and no two written files share a hash |
| Driver.ReplayPrefix | main.py:71-75 | a run only adds: known hashes, written files and results after a prefix of the URLs are contained in those after all of them |
| Driver.ImageRemembered | main.py:34-44 | after an image response whose write succeeded, its body hash stays known for the rest of the run |
| Driver.ImageWrittenOnce | main.py:34-44 | for such an image, exactly one written file has a body with its hash |
| Driver.RepeatIsDuplicate | main.py:34-37 | a later image response with an identical body is reported as a duplicate and not written |
| Driver.Run | main.py:58-78 | `main` starts an empty set, fetches each cleaned URL once in order through one session, and ends in the state `Replay` describes |

## Left out

- Network I/O (`requests.get`, the `User-Agent` header, the 10-second timeout, redirect handling; main.py:19-21): each request's outcome is an input. It is a transport failure, or a status with an optional `Content-Type` value and a body.
- Header lookup: `response.headers` is case-insensitive in the source. The model receives the looked-up `Content-Type` value, or its absence.
- `urlparse` (main.py:9): the URL path is given by a function parameter. A `ValueError` it could raise for a malformed URL is not modelled.
- MD5 (main.py:12, main.py:34): a function parameter with the shape of a hex digest. Collision-freedom is not assumed, so deduplication is stated per hash, not per body.
- `os.makedirs` (main.py:68): a failing `os.makedirs` (for example when `Fetched_Images` exists as a file) aborts the run before any request; the model assumes it succeeds.
- File writes (main.py:40-41): success is an input. A failed write is recorded as no write. A partly written file left by an `open` that succeeded before a failed `write` is not modelled.
- Names `.` and `..`: a URL path ending in `/..` (or `/.`) has a basename with a `.`, so the name is kept and the path is `Fetched_Images/..`, a directory, where `open(..., "wb")` always fails. `writeOk` is left free for such names, so the model admits a save there.
- Overwrites: two URLs with the same derived name write the same path. The log keeps both entries in order; "last write wins" on disk is not modelled as a file map.
- Console I/O: `input()` is the `line` parameter. The welcome and closing messages and the text of each status line (main.py:26, 36, 46-47, 52, 55, 60-61, 78) are not modelled. Each URL's result (path, or the reason it was skipped) stands for its status line.
- Python strings may hold lone surrogates, for which `url.encode()` raises. Dafny characters are Unicode scalar values, so the model has no such URLs.
