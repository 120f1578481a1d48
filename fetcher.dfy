/** `fetch_image`: one request, its checks, the duplicate test against the
    run's known content hashes, and the write. The network and the file system
    are inputs: the outcome of the request and whether the write succeeds. */
module Fetcher {
  import opened Wrappers
  import opened PyStr
  import PosixPath
  import opened Digests
  import opened Filenames

  /** What `requests.get` produced: it raised (connection failure, timeout,
      DNS error), or a response with its status, its `Content-Type` header if
      there is one, and its body. */
  datatype HttpOutcome =
    | RequestFailed
    | Responded(status: int, contentType: Option<string>, body: Bytes)

  /** Why a URL produced no file. `ConnectionError` covers both a raised
      request and an error status, which the source handles together. */
  datatype Reason = ConnectionError | NotAnImage | Duplicate | OtherError

  /** The value `fetch_image` returns: the saved path, or None with its reason. */
  datatype FetchResult = Saved(path: string) | Skipped(reason: Reason)

  /** One file written to disk. */
  datatype SavedFile = SavedFile(path: string, body: Bytes)

  /** The effect of one call: its result, the known hashes afterwards and the
      files it wrote (none or one). */
  datatype Step = Step(result: FetchResult, known: set<HexDigest>, writes: seq<SavedFile>)

  /** The helpers `fetch_image` calls that are not modelled here. */
  datatype Tools = Tools(urlPath: string -> string, md5: Md5)

  const ImagePrefix: string := "image/"

  /** `raise_for_status()` raises for client and server errors, 400 to 599. */
  predicate RaisesForStatus(status: int) {
    400 <= status < 600
  }

  /** `response.headers.get("Content-Type", "")`. */
  function DeclaredType(contentType: Option<string>): string {
    contentType.GetOr("")
  }

  /** A response that passes the status and content-type checks. */
  predicate IsImageResponse(outcome: HttpOutcome) {
    && outcome.Responded?
    && !RaisesForStatus(outcome.status)
    && StartsWith(DeclaredType(outcome.contentType), ImagePrefix)
  }

  /** `fetch_image(url, save_dir, known_hashes)` on values. A file is written
      exactly when a path is returned, exactly when the known set changes; the
      set only grows, and then by the new body's hash alone. */
  function Fetch(url: string, saveDir: string, known: set<HexDigest>,
                 outcome: HttpOutcome, writeOk: bool, tools: Tools): (s: Step)
    ensures known <= s.known
    ensures s.result.Saved? <==> s.writes != []
    ensures s.result.Saved? <==> s.known != known
    ensures !IsImageResponse(outcome) ==> s.writes == [] && s.known == known
    ensures outcome.RequestFailed? || RaisesForStatus(outcome.status) ==>
      s.result == Skipped(ConnectionError)
    ensures outcome.Responded? && !RaisesForStatus(outcome.status) && !IsImageResponse(outcome) ==>
      s.result == Skipped(NotAnImage)
    ensures IsImageResponse(outcome) && tools.md5(outcome.body) in known ==>
      s.result == Skipped(Duplicate) && s.known == known
    ensures IsImageResponse(outcome) && tools.md5(outcome.body) !in known ==>
      (s.result.Saved? <==> writeOk)
    ensures !writeOk ==> s.known == known && s.writes == []
    ensures IsImageResponse(outcome) && tools.md5(outcome.body) !in known && !writeOk ==>
      s.result == Skipped(OtherError)
    ensures s.result.Saved? ==>
      && IsImageResponse(outcome)
      && tools.md5(outcome.body) !in known
      && s.known == known + {tools.md5(outcome.body)}
      && s.writes == [SavedFile(s.result.path, outcome.body)]
  {
    if outcome.RequestFailed? || RaisesForStatus(outcome.status) then
      Step(Skipped(ConnectionError), known, [])
    else if !StartsWith(DeclaredType(outcome.contentType), ImagePrefix) then
      Step(Skipped(NotAnImage), known, [])
    else
      var filename := FilenameFromUrl(url, tools.urlPath, tools.md5);
      var filepath := PosixPath.Join(saveDir, filename);
      var fileHash := tools.md5(outcome.body);
      if fileHash in known then
        Step(Skipped(Duplicate), known, [])
      else if !writeOk then
        Step(Skipped(OtherError), known, [])
      else
        Step(Saved(filepath), known + {fileHash}, [SavedFile(filepath, outcome.body)])
  }

  /** Where `fetch_image` saves: `save_dir` joined with the derived name.
      The path starts with `save_dir`, its basename is the derived name, and
      the two are separated by exactly one `/` unless `save_dir` is empty or
      already ends in one. */
  lemma FetchSavedPath(url: string, saveDir: string, known: set<HexDigest>,
                       outcome: HttpOutcome, writeOk: bool, tools: Tools)
    ensures var s := Fetch(url, saveDir, known, outcome, writeOk, tools);
            var name := FilenameFromUrl(url, tools.urlPath, tools.md5);
      s.result.Saved? ==>
        && s.result.path == PosixPath.Join(saveDir, name)
        && StartsWith(s.result.path, saveDir)
        && PosixPath.Basename(s.result.path) == name
        && (saveDir == [] || saveDir[|saveDir| - 1] == '/' ==> s.result.path == saveDir + name)
        && (saveDir != [] && saveDir[|saveDir| - 1] != '/' ==> s.result.path == saveDir + "/" + name)
  {
    var s := Fetch(url, saveDir, known, outcome, writeOk, tools);
    var name := FilenameFromUrl(url, tools.urlPath, tools.md5);
    if s.result.Saved? {
      assert s.result.path == PosixPath.Join(saveDir, name);
      PosixPath.JoinPlainName(saveDir, name);
    }
  }

  /** The state one run threads through its fetches: the set of known content
      hashes, and, as logs the program does not keep, the files written and the
      URLs requested so far. */
  class Session {
    var knownHashes: set<HexDigest>
    ghost var written: seq<SavedFile>
    ghost var requested: seq<string>

    /** `known_hashes = set()`. */
    constructor ()
      ensures knownHashes == {} && written == [] && requested == []
    {
      knownHashes := {};
      written := [];
      requested := [];
    }

    /** `fetch_image(url, save_dir, known_hashes)`: the set and the file log
        change as `Fetch` says, and the URL is requested once. */
    method FetchImage(url: string, saveDir: string, outcome: HttpOutcome, writeOk: bool, tools: Tools)
      returns (result: FetchResult)
      modifies this
      ensures var s := Fetch(url, saveDir, old(knownHashes), outcome, writeOk, tools);
        && result == s.result
        && knownHashes == s.known
        && written == old(written) + s.writes
      ensures requested == old(requested) + [url]
    {
      ghost var s := Fetch(url, saveDir, knownHashes, outcome, writeOk, tools);
      requested := requested + [url];
      if outcome.RequestFailed? || RaisesForStatus(outcome.status) {
        assert s == Step(Skipped(ConnectionError), knownHashes, []);
        return Skipped(ConnectionError);
      }
      var contentType := DeclaredType(outcome.contentType);
      if !StartsWith(contentType, ImagePrefix) {
        assert s == Step(Skipped(NotAnImage), knownHashes, []);
        return Skipped(NotAnImage);
      }
      var filename := FilenameFromUrl(url, tools.urlPath, tools.md5);
      var filepath := PosixPath.Join(saveDir, filename);
      var fileHash := tools.md5(outcome.body);
      if fileHash in knownHashes {
        assert s == Step(Skipped(Duplicate), knownHashes, []);
        return Skipped(Duplicate);
      }
      if !writeOk {
        assert s == Step(Skipped(OtherError), knownHashes, []);
        return Skipped(OtherError);
      }
      assert s == Step(Saved(filepath), knownHashes + {fileHash}, [SavedFile(filepath, outcome.body)]);
      written := written + [SavedFile(filepath, outcome.body)];
      knownHashes := knownHashes + {fileHash};
      return Saved(filepath);
    }
  }
}
