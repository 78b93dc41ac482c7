/** The archive loop of scrape.js and `clonePage`.

    The browser is an oracle: `render(url)` is the HTML that navigating to
    `url` and reading the page content yields, or None when navigation or
    rendering fails. URL parsing is an oracle too: `pathnameOf(url)` is
    the pathname of `new URL(url)`, or None when the constructor throws.
    The filesystem is abstracted to what the run creates inside the output
    directory: the set of ensured directories and, per directory, the
    contents of the `index.html` written into it. */
module Archive {
  import opened Results
  import opened Paths

  /** A snapshot of the abstract filesystem. */
  datatype Disk = Disk(dirs: set<string>, files: map<string, string>)

  /** The filesystem calls of fs-extra that the script makes. */
  class FileSystem {
    var dirs: set<string>
    var files: map<string, string>  // directory -> contents of its index.html

    function State(): Disk
      reads this
    {
      Disk(dirs, files)
    }

    /** `fs.emptyDir(dir)`: the directory exists and holds nothing. */
    method EmptyDir(dir: string)
      modifies this
      ensures dirs == {dir} && files == map[]
    {
      dirs := {dir};
      files := map[];
    }

    /** `fs.ensureDir(dir)`: the directory exists; files are untouched. */
    method EnsureDir(dir: string)
      modifies this
      ensures dirs == old(dirs) + {dir} && files == old(files)
    {
      dirs := dirs + {dir};
    }

    /** `fs.writeFile(path.join(dir, 'index.html'), html)`: creates or
        overwrites the page of `dir`. */
    method WriteIndex(dir: string, html: string)
      modifies this
      ensures files == old(files)[dir := html] && dirs == old(dirs)
    {
      files := files[dir := html];
    }
  }

  /** What the loop body does with one URL. */
  datatype Attempt =
    | BadUrl                             // `new URL` threw: nothing happens
    | RenderFailed(dir: string)          // directory ensured, nothing written
    | Saved(dir: string, html: string)   // directory ensured, page written

  function AttemptOf(pageUrl: string, outputDir: string,
                     pathnameOf: string -> Option<string>,
                     render: string -> Option<string>): Attempt
  {
    match pathnameOf(pageUrl)
    case None => BadUrl
    case Some(pathname) =>
      var dir := SaveDir(outputDir, pathname);
      match render(pageUrl)
      case None => RenderFailed(dir)
      case Some(html) => Saved(dir, html)
  }

  /** The effect of one attempt on the filesystem. */
  function Apply(disk: Disk, a: Attempt): Disk
  {
    match a
    case BadUrl => disk
    case RenderFailed(dir) => disk.(dirs := disk.dirs + {dir})
    case Saved(dir, html) => Disk(disk.dirs + {dir}, disk.files[dir := html])
  }

  /** The filesystem after the loop has processed `urls`, in order. */
  function Archived(disk: Disk, urls: seq<string>, outputDir: string,
                    pathnameOf: string -> Option<string>,
                    render: string -> Option<string>): Disk
  {
    if urls == [] then disk
    else
      Apply(Archived(disk, urls[..|urls| - 1], outputDir, pathnameOf, render),
            AttemptOf(urls[|urls| - 1], outputDir, pathnameOf, render))
  }

  /** `clonePage`: render the page and write its HTML into `saveDir`; a
      render failure leaves the filesystem as it was. */
  method ClonePage(fs: FileSystem, pageUrl: string, saveDir: string,
                   render: string -> Option<string>) returns (ok: bool)
    modifies fs
    ensures ok <==> render(pageUrl).Some?
    ensures fs.dirs == old(fs.dirs)
    ensures fs.files == if ok then old(fs.files)[saveDir := render(pageUrl).value] else old(fs.files)
  {
    var html := render(pageUrl);
    if html.None? {
      return false;
    }
    fs.WriteIndex(saveDir, html.value);
    return true;
  }

  /** The archive loop: every failure is caught for its URL and the loop
      goes on with the next one. */
  method ArchivePages(fs: FileSystem, urls: seq<string>, outputDir: string,
                      pathnameOf: string -> Option<string>,
                      render: string -> Option<string>)
    modifies fs
    ensures fs.State() == Archived(old(fs.State()), urls, outputDir, pathnameOf, render)
  {
    for i := 0 to |urls|
      invariant fs.State() == Archived(old(fs.State()), urls[..i], outputDir, pathnameOf, render)
    {
      assert urls[..i + 1][..i] == urls[..i];
      var pageUrl := urls[i];
      var pathname := pathnameOf(pageUrl);
      if pathname.None? {
        continue;
      }
      var saveDir := SaveDir(outputDir, pathname.value);
      fs.EnsureDir(saveDir);
      var _ := ClonePage(fs, pageUrl, saveDir, render);
    }
    assert urls[..|urls|] == urls;
  }

  /** The directories the loop ensures: one per URL whose pathname could
      be read, whether or not its page was then rendered. */
  function EnsuredDirs(urls: seq<string>, outputDir: string,
                       pathnameOf: string -> Option<string>): set<string>
  {
    set u | u in urls && pathnameOf(u).Some? :: SaveDir(outputDir, pathnameOf(u).value)
  }

  /** Attempt `a` writes the page of `dir`. */
  predicate SavesInto(a: Attempt, dir: string)
  {
    a.Saved? && a.dir == dir
  }

  /** Every URL whose pathname was read has its directory ensured, a
      failed render included, and no other directory is created. */
  lemma {:induction false} ArchivedDirs(disk: Disk, urls: seq<string>, outputDir: string,
                                        pathnameOf: string -> Option<string>,
                                        render: string -> Option<string>)
    ensures Archived(disk, urls, outputDir, pathnameOf, render).dirs ==
            disk.dirs + EnsuredDirs(urls, outputDir, pathnameOf)
  {
    if urls != [] {
      var init := urls[..|urls| - 1];
      var last := urls[|urls| - 1];
      ArchivedDirs(disk, init, outputDir, pathnameOf, render);
      assert urls == init + [last];
      EnsuredDirsSnoc(init, last, outputDir, pathnameOf);
    }
  }

  lemma EnsuredDirsSnoc(init: seq<string>, last: string, outputDir: string,
                        pathnameOf: string -> Option<string>)
    ensures EnsuredDirs(init + [last], outputDir, pathnameOf) ==
            EnsuredDirs(init, outputDir, pathnameOf) +
            (if pathnameOf(last).Some? then {SaveDir(outputDir, pathnameOf(last).value)} else {})
  {
    var urls := init + [last];
    forall u ensures u in urls <==> u in init || u == last { }
  }

  /** A directory has an `index.html` after the loop exactly when it had
      one before or some URL's page was saved into it; a directory no page
      was saved into keeps what it had. */
  lemma {:induction false} ArchivedFiles(disk: Disk, urls: seq<string>, outputDir: string,
                                         pathnameOf: string -> Option<string>,
                                         render: string -> Option<string>, dir: string)
    ensures dir in Archived(disk, urls, outputDir, pathnameOf, render).files <==>
            dir in disk.files ||
            exists i :: 0 <= i < |urls| && SavesInto(AttemptOf(urls[i], outputDir, pathnameOf, render), dir)
    ensures (forall i :: 0 <= i < |urls| ==> !SavesInto(AttemptOf(urls[i], outputDir, pathnameOf, render), dir)) &&
            dir in disk.files ==>
            Archived(disk, urls, outputDir, pathnameOf, render).files[dir] == disk.files[dir]
  {
    if urls != [] {
      var init := urls[..|urls| - 1];
      ArchivedFiles(disk, init, outputDir, pathnameOf, render, dir);
      forall i | 0 <= i < |init| ensures init[i] == urls[i] { }
    }
  }

  /** Last write wins: a saved page is what its directory holds at the end
      unless a later URL saved a page into the same directory. */
  lemma {:induction false} LastWriteWins(disk: Disk, urls: seq<string>, outputDir: string,
                                         pathnameOf: string -> Option<string>,
                                         render: string -> Option<string>, i: nat)
    requires i < |urls|
    requires AttemptOf(urls[i], outputDir, pathnameOf, render).Saved?
    requires forall j :: i < j < |urls| ==>
               !SavesInto(AttemptOf(urls[j], outputDir, pathnameOf, render),
                          AttemptOf(urls[i], outputDir, pathnameOf, render).dir)
    ensures AttemptOf(urls[i], outputDir, pathnameOf, render).dir in
              Archived(disk, urls, outputDir, pathnameOf, render).files
    ensures Archived(disk, urls, outputDir, pathnameOf, render).files[
              AttemptOf(urls[i], outputDir, pathnameOf, render).dir] ==
            AttemptOf(urls[i], outputDir, pathnameOf, render).html
  {
    var init := urls[..|urls| - 1];
    if i < |urls| - 1 {
      forall j | i < j < |init| ensures init[j] == urls[j] { }
      LastWriteWins(disk, init, outputDir, pathnameOf, render, i);
    }
  }

  /** Processing `a` and then `b` is processing `a + b`. */
  lemma {:induction false} ArchivedAppend(disk: Disk, a: seq<string>, b: seq<string>, outputDir: string,
                                          pathnameOf: string -> Option<string>,
                                          render: string -> Option<string>)
    ensures Archived(disk, a + b, outputDir, pathnameOf, render) ==
            Archived(Archived(disk, a, outputDir, pathnameOf, render), b, outputDir, pathnameOf, render)
    decreases |b|
  {
    if b == [] {
      assert a + b == a;
    } else {
      assert (a + b)[..|a + b| - 1] == a + b[..|b| - 1];
      ArchivedAppend(disk, a, b[..|b| - 1], outputDir, pathnameOf, render);
    }
  }

  /** The pages written do not depend on which directories exist. */
  lemma {:induction false} FilesIgnoreDirs(d1: Disk, d2: Disk, urls: seq<string>, outputDir: string,
                                           pathnameOf: string -> Option<string>,
                                           render: string -> Option<string>)
    requires d1.files == d2.files
    ensures Archived(d1, urls, outputDir, pathnameOf, render).files ==
            Archived(d2, urls, outputDir, pathnameOf, render).files
  {
    if urls != [] {
      FilesIgnoreDirs(d1, d2, urls[..|urls| - 1], outputDir, pathnameOf, render);
    }
  }

  /** Failure isolation: a URL whose page is not saved writes nothing, and
      every other URL writes exactly what it would have written had that
      URL not been in the list. */
  lemma FailedPageWritesNothing(disk: Disk, urls: seq<string>, outputDir: string,
                                pathnameOf: string -> Option<string>,
                                render: string -> Option<string>, i: nat)
    requires i < |urls|
    requires !AttemptOf(urls[i], outputDir, pathnameOf, render).Saved?
    ensures Archived(disk, urls, outputDir, pathnameOf, render).files ==
            Archived(disk, urls[..i] + urls[i + 1..], outputDir, pathnameOf, render).files
  {
    var before := Archived(disk, urls[..i], outputDir, pathnameOf, render);
    assert urls == urls[..i + 1] + urls[i + 1..];
    ArchivedAppend(disk, urls[..i + 1], urls[i + 1..], outputDir, pathnameOf, render);
    assert urls[..i + 1][..i] == urls[..i];
    ArchivedAppend(disk, urls[..i], urls[i + 1..], outputDir, pathnameOf, render);
    FilesIgnoreDirs(Archived(disk, urls[..i + 1], outputDir, pathnameOf, render), before,
                    urls[i + 1..], outputDir, pathnameOf, render);
  }
}
