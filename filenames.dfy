/** `get_filename_from_url`: the name under which a fetched image is saved. */
module Filenames {
  import opened PyStr
  import opened PosixPath
  import opened Digests

  const FallbackPrefix: string := "downloaded_"
  const FallbackExtension: string := ".jpg"
  /** How many leading digest characters go into a fallback name. */
  const DigestDigits: nat := 8

  /** The shape of a synthesised name: `downloaded_`, eight lower-case hex
      digits, `.jpg` (23 characters in all). */
  predicate IsFallbackName(name: string) {
    && |name| == |FallbackPrefix| + DigestDigits + |FallbackExtension|
    && StartsWith(name, FallbackPrefix)
    && name[|name| - |FallbackExtension|..] == FallbackExtension
    && forall k :: |FallbackPrefix| <= k < |FallbackPrefix| + DigestDigits ==> IsLowerHexDigit(name[k])
  }

  /** The name built from a digest of the URL when the URL path gives none. */
  function FallbackName(digest: HexDigest): (r: string)
    ensures IsFallbackName(r) && |r| == 23
    ensures r[|FallbackPrefix|..|FallbackPrefix| + DigestDigits] == digest[..DigestDigits]
    ensures '.' in r && '/' !in r
  {
    var r := FallbackPrefix + digest[..DigestDigits] + FallbackExtension;
    assert forall k :: |FallbackPrefix| <= k < |FallbackPrefix| + DigestDigits ==>
      r[k] == digest[k - |FallbackPrefix|];
    assert r[19] == '.';
    assert forall k :: 0 <= k < |FallbackPrefix| ==> r[k] == FallbackPrefix[k] && r[k] != '/';
    assert forall k :: 19 <= k < 23 ==> r[k] == FallbackExtension[k - 19] && r[k] != '/';
    r
  }

  /** A last path segment is kept as the file name only when it is non-empty
      and contains a `.`. */
  predicate UsableSegment(segment: string) {
    segment != [] && '.' in segment
  }

  /** `get_filename_from_url(url)`, where `urlPath(url)` stands for
      `urlparse(url).path` and `md5` for MD5 over bytes. The name is never
      empty, always contains a `.` and never a `/`; it is the URL's last path
      segment when that segment is usable, and otherwise the fallback name
      built from the digest of the UTF-8 encoded URL. */
  function FilenameFromUrl(url: string, urlPath: string -> string, md5: Md5): (r: string)
    ensures r != [] && '.' in r && '/' !in r
    ensures UsableSegment(Basename(urlPath(url))) ==> r == Basename(urlPath(url))
    ensures !UsableSegment(Basename(urlPath(url))) ==>
      IsFallbackName(r) && r[|FallbackPrefix|..|FallbackPrefix| + DigestDigits] == md5(Encode(url))[..DigestDigits]
  {
    var filename := Basename(urlPath(url));
    if filename == [] || '.' !in filename then
      FallbackName(md5(Encode(url)))
    else
      filename
  }

  /** A derived name is its own basename, so joining it to a directory gives
      the directory, a `/` and the name (see `Fetcher.FetchSavedPath`). As a
      property of the naming rule alone: applied to a URL whose path is a
      derived name, the rule returns that name unchanged. */
  lemma DerivedNameIsStable(url: string, urlPath: string -> string, md5: Md5, other: string)
    requires urlPath(other) == FilenameFromUrl(url, urlPath, md5)
    ensures Basename(FilenameFromUrl(url, urlPath, md5)) == FilenameFromUrl(url, urlPath, md5)
    ensures FilenameFromUrl(other, urlPath, md5) == FilenameFromUrl(url, urlPath, md5)
  {
    BasenameAfterSlash([], FilenameFromUrl(url, urlPath, md5));
  }
}
