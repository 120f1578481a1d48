/** `main`: read one line of comma-separated URLs, keep the non-blank stripped
    pieces, and fetch them in order with one shared set of known hashes. The
    line, the outcome of the k-th request and whether the write attempted by
    the k-th fetch succeeds are inputs. */
module Driver {
  import opened PyStr
  import opened Digests
  import opened Fetcher
  import Filenames

  /** The output directory, `Fetched_Images`. */
  const SaveDir: string := "Fetched_Images"

  /** `u.strip()` for every piece `u`, in order. */
  function StripAll(pieces: seq<string>): (r: seq<string>)
    ensures |r| == |pieces|
  {
    seq(|pieces|, k requires 0 <= k < |pieces| => Strip(pieces[k]))
  }

  /** Each stripped piece is stripped, and has a comma only if its piece had one. */
  lemma StripAllShape(pieces: seq<string>)
    ensures forall k :: 0 <= k < |pieces| ==> IsStripped(StripAll(pieces)[k])
    ensures forall k :: 0 <= k < |pieces| && ',' !in pieces[k] ==> ',' !in StripAll(pieces)[k]
  {
    forall k | 0 <= k < |pieces| ensures ',' !in pieces[k] ==> ',' !in StripAll(pieces)[k] {
      StripKeepsChars(pieces[k], ',');
    }
  }

  lemma StripAllConcat(a: seq<string>, b: seq<string>)
    ensures StripAll(a + b) == StripAll(a) + StripAll(b)
  {
    assert forall k :: 0 <= k < |a| + |b| ==> (a + b)[k] == if k < |a| then a[k] else b[k - |a|];
  }

  /** `[u for u in xs if u]`: the non-empty strings, in order. */
  function DropEmpty(xs: seq<string>): (r: seq<string>)
    ensures |r| <= |xs|
    ensures forall k :: 0 <= k < |r| ==> r[k] != [] && r[k] in xs
    decreases |xs|
  {
    if xs == [] then []
    else if xs[0] == [] then DropEmpty(xs[1..])
    else [xs[0]] + DropEmpty(xs[1..])
  }

  /** The URLs `main` fetches from its input line,
      `[u.strip() for u in line.split(",") if u.strip()]`: each is non-empty,
      has no surrounding whitespace and no comma, and there is at most one per
      piece of the split line. */
  function CleanUrls(line: string): (urls: seq<string>)
    ensures forall k :: 0 <= k < |urls| ==> urls[k] != [] && IsStripped(urls[k]) && ',' !in urls[k]
    ensures |urls| <= Count(line, ',') + 1
  {
    var pieces := Split(line, ',');
    SplitPiecesFree(line, ',');
    StripAllShape(pieces);
    DropEmpty(StripAll(pieces))
  }

  /** Filtering keeps order: it distributes over concatenation. */
  lemma {:induction false} DropEmptyConcat(a: seq<string>, b: seq<string>)
    ensures DropEmpty(a + b) == DropEmpty(a) + DropEmpty(b)
    decreases |a|
  {
    if a == [] {
      assert a + b == b;
    } else {
      DropEmptyConcat(a[1..], b);
      assert (a + b)[0] == a[0] && (a + b)[1..] == a[1..] + b;
    }
  }

  /** A line without commas gives its stripped self, or nothing when blank. */
  lemma CleanUrlsOfPiece(line: string)
    requires ',' !in line
    ensures CleanUrls(line) == if Strip(line) == [] then [] else [Strip(line)]
  {
    SplitWithoutSeparator(line, ',');
    assert StripAll([line]) == [Strip(line)];
  }

  /** The URLs of `a,b` are those of `a` followed by those of `b`: order is kept. */
  lemma CleanUrlsAtComma(a: string, b: string)
    requires ',' !in a
    ensures CleanUrls(a + [','] + b) == CleanUrls(a) + CleanUrls(b)
  {
    SplitAtSeparator(a, b, ',');
    StripAllConcat(Split(a, ','), Split(b, ','));
    DropEmptyConcat(StripAll(Split(a, ',')), StripAll(Split(b, ',')));
  }

  /** Only whitespace and commas. */
  predicate BlankOrCommas(line: string) {
    forall k :: 0 <= k < |line| ==> IsSpace(line[k]) || line[k] == ','
  }

  predicate AllPiecesBlank(pieces: seq<string>) {
    forall j :: 0 <= j < |pieces| ==> AllSpace(pieces[j])
  }

  lemma {:induction false} DropEmptyEmptyIff(xs: seq<string>)
    ensures DropEmpty(xs) == [] <==> forall k :: 0 <= k < |xs| ==> xs[k] == []
    decreases |xs|
  {
    if xs != [] {
      DropEmptyEmptyIff(xs[1..]);
      assert forall k :: 1 <= k < |xs| ==> xs[k] == xs[1..][k - 1];
    }
  }

  lemma AllSpaceCons(s: string)
    requires s != []
    ensures AllSpace(s) <==> IsSpace(s[0]) && AllSpace(s[1..])
  {
    if IsSpace(s[0]) && AllSpace(s[1..]) {
      forall k | 1 <= k < |s| ensures IsSpace(s[k]) {
        assert s[k] == s[1..][k - 1];
      }
    }
  }

  lemma BlankOrCommasCons(line: string)
    requires line != []
    ensures BlankOrCommas(line) <==> (IsSpace(line[0]) || line[0] == ',') && BlankOrCommas(line[1..])
  {
    if (IsSpace(line[0]) || line[0] == ',') && BlankOrCommas(line[1..]) {
      forall k | 1 <= k < |line| ensures IsSpace(line[k]) || line[k] == ',' {
        assert line[k] == line[1..][k - 1];
      }
    }
  }

  lemma AllPiecesBlankCons(pieces: seq<string>)
    requires pieces != []
    ensures AllPiecesBlank(pieces) <==> AllSpace(pieces[0]) && AllPiecesBlank(pieces[1..])
  {
    if AllSpace(pieces[0]) && AllPiecesBlank(pieces[1..]) {
      forall j | 1 <= j < |pieces| ensures AllSpace(pieces[j]) {
        assert pieces[j] == pieces[1..][j - 1];
      }
    }
  }

  /** The pieces of a line are all blank exactly when the line holds only
      whitespace and commas. */
  lemma {:induction false} SplitBlankIff(line: string)
    ensures AllPiecesBlank(Split(line, ',')) <==> BlankOrCommas(line)
    decreases |line|
  {
    if line != [] {
      var c := line[0];
      var rest := Split(line[1..], ',');
      var pieces := Split(line, ',');
      SplitBlankIff(line[1..]);
      BlankOrCommasCons(line);
      assert line == [c] + line[1..];
      SplitCons(c, line[1..], ',');
      AllPiecesBlankCons(pieces);
      if c == ',' {
        assert pieces[0] == [] && pieces[1..] == rest;
      } else {
        assert pieces[0] == [c] + rest[0] && pieces[1..] == rest[1..];
        AllSpaceCons(pieces[0]);
        assert pieces[0][1..] == rest[0];
        AllPiecesBlankCons(rest);
      }
    }
  }

  /** A blank line, or one of only whitespace and commas, yields no URL at
      all, and any other line yields at least one. */
  lemma BlankLineFetchesNothing(line: string)
    ensures CleanUrls(line) == [] <==> BlankOrCommas(line)
  {
    var pieces := Split(line, ',');
    DropEmptyEmptyIff(StripAll(pieces));
    forall k | 0 <= k < |pieces| ensures StripAll(pieces)[k] == [] <==> AllSpace(pieces[k]) {
      StripEmptyIff(pieces[k]);
    }
    SplitBlankIff(line);
  }

  /** What a run has done after some of its fetches: the known hashes, and the
      files written, URLs requested and per-URL results, in order. */
  datatype Progress = Progress(known: set<HexDigest>, written: seq<SavedFile>,
                               requested: seq<string>, reports: seq<FetchResult>)

  /** The state after fetching `urls` in order from an empty set, the k-th
      request having outcome `net(k)` and the write attempted by the k-th
      fetch succeeding when `writeOk(k)`. */
  function Replay(urls: seq<string>, tools: Tools, net: nat -> HttpOutcome, writeOk: nat -> bool): Progress
    decreases |urls|
  {
    if urls == [] then
      Progress({}, [], [], [])
    else
      var n := |urls| - 1;
      var before := Replay(urls[..n], tools, net, writeOk);
      var s := Fetch(urls[n], SaveDir, before.known, net(n), writeOk(n), tools);
      Progress(s.known, before.written + s.writes, before.requested + [urls[n]], before.reports + [s.result])
  }

  /** Every URL is requested, in order, whatever befell the ones before it, and
      each gets one report. */
  lemma {:induction false} ReplayRequestsAll(urls: seq<string>, tools: Tools, net: nat -> HttpOutcome, writeOk: nat -> bool)
    ensures Replay(urls, tools, net, writeOk).requested == urls
    ensures |Replay(urls, tools, net, writeOk).reports| == |urls|
    decreases |urls|
  {
    if urls != [] {
      var n := |urls| - 1;
      ReplayRequestsAll(urls[..n], tools, net, writeOk);
      assert urls == urls[..n] + [urls[n]];
    }
  }

  /** Where `fetch_image` saves the image of `url`: `Fetched_Images/<name>`. */
  function SavedPath(url: string, tools: Tools): string {
    SaveDir + "/" + Filenames.FilenameFromUrl(url, tools.urlPath, tools.md5)
  }

  /** One fetch into `Fetched_Images` writes, and reports, only the path of its URL. */
  lemma FetchSavesAtSavedPath(url: string, known: set<HexDigest>, outcome: HttpOutcome, writeOk: bool, tools: Tools)
    ensures var s := Fetch(url, SaveDir, known, outcome, writeOk, tools);
      && (s.result.Saved? ==> s.result.path == SavedPath(url, tools))
      && (forall f :: f in s.writes ==> f.path == SavedPath(url, tools))
  {
    var s := Fetch(url, SaveDir, known, outcome, writeOk, tools);
    if s.result.Saved? {
      FetchSavedPath(url, SaveDir, known, outcome, writeOk, tools);
      assert SaveDir != [] && SaveDir[|SaveDir| - 1] != '/';
      assert s.writes == [SavedFile(s.result.path, outcome.body)];
    }
  }

  /** Every written file sits at the saved path of one of `urls`. */
  predicate WrittenInSaveDir(written: seq<SavedFile>, urls: seq<string>, tools: Tools) {
    forall f :: f in written ==> exists u :: u in urls && f.path == SavedPath(u, tools)
  }

  lemma WrittenInSaveDirAppend(written: seq<SavedFile>, urls: seq<string>, writes: seq<SavedFile>, url: string, tools: Tools)
    requires WrittenInSaveDir(written, urls, tools)
    requires forall f :: f in writes ==> f.path == SavedPath(url, tools)
    ensures WrittenInSaveDir(written + writes, urls + [url], tools)
  {
    var u := urls + [url];
    forall f | f in written + writes ensures exists v :: v in u && f.path == SavedPath(v, tools) {
      if f in written {
        var v :| v in urls && f.path == SavedPath(v, tools);
        assert v in u;
      } else {
        assert url in u;
      }
    }
  }

  /** Every file a run writes is `Fetched_Images/<name>`, for the
      name derived from one of the run's URLs. */
  lemma {:induction false} ReplayWritesIntoSaveDir(urls: seq<string>, tools: Tools, net: nat -> HttpOutcome, writeOk: nat -> bool)
    ensures WrittenInSaveDir(Replay(urls, tools, net, writeOk).written, urls, tools)
    decreases |urls|
  {
    if urls != [] {
      var n := |urls| - 1;
      var prefix := urls[..n];
      var before := Replay(prefix, tools, net, writeOk);
      var s := Fetch(urls[n], SaveDir, before.known, net(n), writeOk(n), tools);
      assert WrittenInSaveDir(before.written + s.writes, prefix + [urls[n]], tools) by {
        ReplayWritesIntoSaveDir(prefix, tools, net, writeOk);
        FetchSavesAtSavedPath(urls[n], before.known, net(n), writeOk(n), tools);
        WrittenInSaveDirAppend(before.written, prefix, s.writes, urls[n], tools);
      }
      assert prefix + [urls[n]] == urls;
    }
  }

  /** A URL reported as saved was saved at `Fetched_Images/<its derived name>`. */
  lemma ReportedPathIsOwn(urls: seq<string>, k: nat, tools: Tools, net: nat -> HttpOutcome, writeOk: nat -> bool)
    requires k < |urls|
    ensures var reports := Replay(urls, tools, net, writeOk).reports;
      k < |reports| && (reports[k].Saved? ==> reports[k].path == SavedPath(urls[k], tools))
  {
    var before := Replay(urls[..k], tools, net, writeOk);
    ReplayRequestsAll(urls[..k], tools, net, writeOk);
    ReplayStep(urls, k, tools, net, writeOk);
    ReplayPrefix(urls, k + 1, tools, net, writeOk);
    FetchSavesAtSavedPath(urls[k], before.known, net(k), writeOk(k), tools);
  }

  /** The hashes of the bodies of `files`. */
  function HashesOf(files: seq<SavedFile>, md5: Md5): set<HexDigest>
    decreases |files|
  {
    if files == [] then {} else HashesOf(files[..|files| - 1], md5) + {md5(files[|files| - 1].body)}
  }

  /** No two files have bodies with the same hash. */
  predicate DistinctHashes(files: seq<SavedFile>, md5: Md5) {
    forall i, j :: 0 <= i < j < |files| ==> md5(files[i].body) != md5(files[j].body)
  }

  lemma {:induction false} HashesOfMember(files: seq<SavedFile>, md5: Md5, h: HexDigest)
    ensures h in HashesOf(files, md5) <==> exists k :: 0 <= k < |files| && md5(files[k].body) == h
    decreases |files|
  {
    if files != [] {
      var n := |files| - 1;
      HashesOfMember(files[..n], md5, h);
      if h in HashesOf(files[..n], md5) {
        var k :| 0 <= k < n && md5(files[..n][k].body) == h;
        assert files[k] == files[..n][k];
      } else if exists k :: 0 <= k < |files| && md5(files[k].body) == h {
        var k :| 0 <= k < |files| && md5(files[k].body) == h;
      }
    }
  }

  lemma HashesOfAppend(files: seq<SavedFile>, f: SavedFile, md5: Md5)
    ensures HashesOf(files + [f], md5) == HashesOf(files, md5) + {md5(f.body)}
  {
    assert (files + [f])[..|files|] == files;
  }

  /** Appending a file whose hash is new keeps the hashes distinct. */
  lemma DistinctAppend(files: seq<SavedFile>, f: SavedFile, md5: Md5)
    requires DistinctHashes(files, md5)
    requires md5(f.body) !in HashesOf(files, md5)
    ensures DistinctHashes(files + [f], md5)
  {
    var w := files + [f];
    forall i, j | 0 <= i < j < |w| ensures md5(w[i].body) != md5(w[j].body) {
      if j == |files| {
        HashesOfMember(files, md5, md5(files[i].body));
      } else {
        assert w[i] == files[i] && w[j] == files[j];
      }
    }
  }

  /** The run's invariant: the known hashes are exactly the hashes of the files
      written, and no two written files share a hash (so no content is written
      twice). */
  lemma {:induction false} ReplayKnownIsWritten(urls: seq<string>, tools: Tools, net: nat -> HttpOutcome, writeOk: nat -> bool)
    ensures Replay(urls, tools, net, writeOk).known == HashesOf(Replay(urls, tools, net, writeOk).written, tools.md5)
    ensures DistinctHashes(Replay(urls, tools, net, writeOk).written, tools.md5)
    decreases |urls|
  {
    if urls != [] {
      var n := |urls| - 1;
      ReplayKnownIsWritten(urls[..n], tools, net, writeOk);
      var before := Replay(urls[..n], tools, net, writeOk);
      var s := Fetch(urls[n], SaveDir, before.known, net(n), writeOk(n), tools);
      if s.writes != [] {
        HashesOfAppend(before.written, s.writes[0], tools.md5);
        DistinctAppend(before.written, s.writes[0], tools.md5);
        assert s.writes == [s.writes[0]];
      } else {
        assert before.written + s.writes == before.written;
      }
    }
  }

  /** The run only adds: after a prefix of the URLs, the known hashes, the
      written files and the reports are all contained in those of the whole run. */
  lemma {:induction false} ReplayPrefix(urls: seq<string>, i: nat, tools: Tools, net: nat -> HttpOutcome, writeOk: nat -> bool)
    requires i <= |urls|
    ensures Replay(urls[..i], tools, net, writeOk).known <= Replay(urls, tools, net, writeOk).known
    ensures Replay(urls[..i], tools, net, writeOk).written <= Replay(urls, tools, net, writeOk).written
    ensures Replay(urls[..i], tools, net, writeOk).reports <= Replay(urls, tools, net, writeOk).reports
    decreases |urls|
  {
    if i < |urls| {
      var n := |urls| - 1;
      ReplayPrefix(urls[..n], i, tools, net, writeOk);
      assert urls[..n][..i] == urls[..i];
    } else {
      assert urls[..i] == urls;
    }
  }

  /** Unfolds `Replay` at its k-th fetch. */
  lemma ReplayStep(urls: seq<string>, k: nat, tools: Tools, net: nat -> HttpOutcome, writeOk: nat -> bool)
    requires k < |urls|
    ensures var before := Replay(urls[..k], tools, net, writeOk);
            var s := Fetch(urls[k], SaveDir, before.known, net(k), writeOk(k), tools);
            Replay(urls[..k + 1], tools, net, writeOk) ==
              Progress(s.known, before.written + s.writes, before.requested + [urls[k]], before.reports + [s.result])
  {
    assert urls[..k + 1][..k] == urls[..k];
  }

  /** Once an image response has been fetched and its write did not fail, its
      body's hash is known for the rest of the run. */
  lemma ImageRemembered(urls: seq<string>, k: nat, tools: Tools, net: nat -> HttpOutcome, writeOk: nat -> bool)
    requires k < |urls| && IsImageResponse(net(k)) && writeOk(k)
    ensures tools.md5(net(k).body) in Replay(urls, tools, net, writeOk).known
  {
    ReplayStep(urls, k, tools, net, writeOk);
    ReplayPrefix(urls, k + 1, tools, net, writeOk);
  }

  /** Every image fetched in a run with a successful write ends up on disk
      exactly once: exactly one written file has a body with its hash. */
  lemma ImageWrittenOnce(urls: seq<string>, k: nat, tools: Tools, net: nat -> HttpOutcome, writeOk: nat -> bool)
    requires k < |urls| && IsImageResponse(net(k)) && writeOk(k)
    ensures var w := Replay(urls, tools, net, writeOk).written;
            exists j :: 0 <= j < |w| && tools.md5(w[j].body) == tools.md5(net(k).body)
              && forall j' :: 0 <= j' < |w| && tools.md5(w[j'].body) == tools.md5(net(k).body) ==> j' == j
  {
    var w := Replay(urls, tools, net, writeOk).written;
    var h := tools.md5(net(k).body);
    ImageRemembered(urls, k, tools, net, writeOk);
    ReplayKnownIsWritten(urls, tools, net, writeOk);
    HashesOfMember(w, tools.md5, h);
    var j :| 0 <= j < |w| && tools.md5(w[j].body) == h;
  }

  /** An image whose content an earlier fetch already saved, or found to be a
      duplicate, is reported as a duplicate. */
  lemma RepeatIsDuplicate(urls: seq<string>, i: nat, j: nat, tools: Tools, net: nat -> HttpOutcome, writeOk: nat -> bool)
    requires i < j < |urls|
    requires IsImageResponse(net(i)) && writeOk(i) && IsImageResponse(net(j))
    requires net(j).body == net(i).body
    ensures var reports := Replay(urls, tools, net, writeOk).reports;
      j < |reports| && reports[j] == Skipped(Duplicate)
  {
    ImageRemembered(urls[..j], i, tools, net, writeOk);
    ReplayRequestsAll(urls[..j], tools, net, writeOk);
    ReplayStep(urls, j, tools, net, writeOk);
    ReplayPrefix(urls, j + 1, tools, net, writeOk);
  }

  /** `main`: the known set starts empty, each cleaned URL is fetched once in
      order with that one set, and each fetch's result is reported. */
  method Run(line: string, tools: Tools, net: nat -> HttpOutcome, writeOk: nat -> bool)
    returns (session: Session, reports: seq<FetchResult>)
    ensures fresh(session)
    ensures var p := Replay(CleanUrls(line), tools, net, writeOk);
      && session.knownHashes == p.known
      && session.written == p.written
      && session.requested == p.requested
      && reports == p.reports
  {
    var urls := CleanUrls(line);
    session := new Session();
    reports := [];
    var i := 0;
    while i < |urls|
      invariant 0 <= i <= |urls|
      invariant var p := Replay(urls[..i], tools, net, writeOk);
        && session.knownHashes == p.known
        && session.written == p.written
        && session.requested == p.requested
        && reports == p.reports
    {
      ReplayStep(urls, i, tools, net, writeOk);
      var result := session.FetchImage(urls[i], SaveDir, net(i), writeOk(i), tools);
      reports := reports + [result];
      i := i + 1;
    }
    assert urls[..i] == urls;
  }
}
