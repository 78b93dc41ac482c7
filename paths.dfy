/** The directory a page is saved into (scrape.js, the `saveDir`
    computation of the archive loop).

    URL parsing is not modelled: the page's pathname is an input. Node's
    `path.join` is modelled as POSIX concatenation with a single '/':
    one '/' at the end of the directory and one at the start of the
    pathname are absorbed into the separator; no other normalisation
    ('.', '..', repeated separators) is done. */
module Paths {

  predicate EndsWithSep(s: string)
  {
    s != [] && s[|s| - 1] == '/'
  }

  function DropTrailingSep(s: string): string
  {
    if EndsWithSep(s) then s[..|s| - 1] else s
  }

  function DropLeadingSep(s: string): string
  {
    if s != [] && s[0] == '/' then s[1..] else s
  }

  /** `path.join(dir, p)`, abstracted as described above: one '/' at the
      end of the directory and one at the start of the pathname become a
      single '/'; other repeated separators are kept. */
  function Join(dir: string, p: string): (r: string)
    ensures DropTrailingSep(dir) + "/" <= r
    ensures !EndsWithSep(dir) && p != [] && p[0] == '/' ==> r == dir + p
  {
    DropTrailingSep(dir) + "/" + DropLeadingSep(p)
  }

  /** `saveDir`: the joined path with one trailing separator removed, and
      the output directory itself for the root pathname (or an empty one).
      An absolute pathname lands at `<outputDir>/<pathname>`, one trailing
      '/' of either dropped. */
  function SaveDir(outputDir: string, pathname: string): (r: string)
    ensures pathname == "/" || pathname == "" ==> r == outputDir
    ensures pathname != "/" && pathname != "" ==> DropTrailingSep(outputDir) + "/" <= r
    ensures pathname != "/" && pathname != [] && pathname[0] == '/' ==>
              r == DropTrailingSep(outputDir) + DropTrailingSep(pathname)
  {
    var joined := Join(outputDir, pathname);
    var saveDir := DropTrailingSep(joined);
    JoinAbsolute(outputDir, pathname);
    if pathname == "/" || pathname == "" then outputDir else saveDir
  }

  lemma JoinAbsolute(dir: string, p: string)
    ensures p != "/" && p != [] && p[0] == '/' ==>
              DropTrailingSep(Join(dir, p)) == DropTrailingSep(dir) + DropTrailingSep(p)
  {
    if p != "/" && p != [] && p[0] == '/' {
      var d := DropTrailingSep(dir);
      assert DropLeadingSep(p) == p[1..];
      assert "/" + p[1..] == p;
      assert Join(dir, p) == d + p;
      DropTrailingSepOfAppend(d, p);
    }
  }

  lemma DropTrailingSepOfAppend(a: string, b: string)
    requires b != []
    ensures DropTrailingSep(a + b) == a + DropTrailingSep(b)
  {
    if EndsWithSep(b) {
      assert (a + b)[..|a + b| - 1] == a + b[..|b| - 1];
    }
  }

  /** No two '/' in a row: the pathname has no empty segment. */
  predicate NoRepeatedSep(p: string)
  {
    forall k :: 0 <= k < |p| - 1 ==> !(p[k] == '/' && p[k + 1] == '/')
  }

  /** A pathname with one more trailing '/' is saved in the same place. */
  lemma SaveDirIgnoresTrailingSlash(outputDir: string, pathname: string)
    requires !EndsWithSep(pathname)
    ensures SaveDir(outputDir, pathname + "/") == SaveDir(outputDir, pathname)
  {
    if pathname != "" {
      var x := Join(outputDir, pathname);
      JoinAppendSep(outputDir, pathname);
      assert (x + "/")[..|x|] == x;
    }
  }

  lemma JoinAppendSep(dir: string, p: string)
    requires p != "" && !EndsWithSep(p)
    ensures Join(dir, p + "/") == Join(dir, p) + "/"
    ensures !EndsWithSep(Join(dir, p))
  {
    var q := DropLeadingSep(p);
    assert DropLeadingSep(p + "/") == q + "/" by {
      if p[0] == '/' {
        assert (p + "/")[1..] == p[1..] + "/";
      }
    }
    var x := Join(dir, p);
    assert x[|x| - 1] == p[|p| - 1];
  }

  /** Distinct absolute pathnames without a trailing '/' and without empty
      segments are saved in distinct directories, so no two such pages
      overwrite each other. (A pathname such as `/a//b` is excluded: Node's
      `path.join` collapses the repeated '/', which Join does not model.) */
  lemma SaveDirInjective(outputDir: string, p: string, q: string)
    requires p != [] && p[0] == '/' && !EndsWithSep(p) && NoRepeatedSep(p)
    requires q != [] && q[0] == '/' && !EndsWithSep(q) && NoRepeatedSep(q)
    requires SaveDir(outputDir, p) == SaveDir(outputDir, q)
    ensures p == q
  {
    var d := DropTrailingSep(outputDir);
    assert SaveDir(outputDir, p) == d + p;
    assert SaveDir(outputDir, q) == d + q;
    assert p == (d + p)[|d|..];
    assert q == (d + q)[|d|..];
  }

  /** The root pathname, and a pathname with and without a trailing '/'. */
  lemma SaveDirExamples()
    ensures SaveDir("clone-all", "/") == "clone-all"
    ensures SaveDir("clone-all", "/foo/bar/") == "clone-all/foo/bar"
    ensures SaveDir("clone-all", "/foo/bar") == "clone-all/foo/bar"
  {
  }
}
