/** The two functions of Python's `posixpath` that the fetcher uses. */
module PosixPath {
  import opened PyStr

  /** `basename(p)`: the part of `p` after its last `/` (all of `p` when it has
      none). The result has no `/`, is a suffix of `p`, and either is all of `p`
      or is preceded by a `/`. */
  function Basename(p: string): (r: string)
    ensures '/' !in r
    ensures |r| <= |p| && r == p[|p| - |r|..]
    ensures |r| < |p| ==> p[|p| - |r| - 1] == '/'
    decreases |p|
  {
    if p == [] || p[|p| - 1] == '/' then
      []
    else
      var r := Basename(p[..|p| - 1]);
      assert p[..|p| - 1][|p| - 1 - |r|..] + [p[|p| - 1]] == p[|p| - 1 - |r|..];
      r + [p[|p| - 1]]
  }

  /** `join(a, b)` for two components: an absolute `b` replaces `a`; otherwise
      `b` is appended, with a `/` in between unless `a` is empty or already
      ends in one. */
  function Join(a: string, b: string): string
  {
    if StartsWith(b, "/") then b
    else if a == [] || a[|a| - 1] == '/' then a + b
    else a + "/" + b
  }

  /** What `join` produces: the result ends with `b`; an absolute `b` is the
      whole result; otherwise the result starts with `a`, followed by a single
      `/` when `a` is non-empty without a trailing `/` and by nothing when `a`
      is empty or ends in `/`. */
  lemma JoinShape(a: string, b: string)
    ensures var r := Join(a, b);
      && |b| <= |r| && r[|r| - |b|..] == b
      && (StartsWith(b, "/") ==> r == b)
      && (!StartsWith(b, "/") ==> StartsWith(r, a) && |a| + |b| <= |r| <= |a| + |b| + 1)
      && (!StartsWith(b, "/") && |r| == |a| + |b| + 1 ==> r[|a|] == '/')
      && (!StartsWith(b, "/") && a != [] ==> r[|a| - 1] == '/' || (|a| < |r| && r[|a|] == '/'))
      && (!StartsWith(b, "/") && (a == [] || a[|a| - 1] == '/') ==> |r| == |a| + |b|)
  {
  }

  /** A name without `/` is its own basename, behind any directory ending in `/`. */
  lemma {:induction false} BasenameAfterSlash(dir: string, name: string)
    requires dir == [] || dir[|dir| - 1] == '/'
    requires '/' !in name
    ensures Basename(dir + name) == name
  {
    var p := dir + name;
    assert p[|dir|..] == name;
  }

  /** Joining a directory and a plain file name: the result starts with the
      directory and its basename is the file name. */
  lemma JoinPlainName(dir: string, name: string)
    requires name != [] && '/' !in name
    ensures StartsWith(Join(dir, name), dir)
    ensures Basename(Join(dir, name)) == name
    ensures dir == [] || dir[|dir| - 1] == '/' ==> Join(dir, name) == dir + name
    ensures dir != [] && dir[|dir| - 1] != '/' ==> Join(dir, name) == dir + "/" + name
  {
    assert !StartsWith(name, "/") by {
      assert name[0] != '/';
    }
    if dir == [] || dir[|dir| - 1] == '/' {
      assert Join(dir, name) == dir + name;
      BasenameAfterSlash(dir, name);
    } else {
      var withSlash := dir + "/";
      assert Join(dir, name) == withSlash + name;
      assert withSlash[|withSlash| - 1] == '/';
      BasenameAfterSlash(withSlash, name);
    }
  }
}
