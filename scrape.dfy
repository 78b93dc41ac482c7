/** The whole run of scrape.js: read the two optional arguments, clear the
    output directory, collect the page list from the two sitemaps, and
    archive every page. */
module Scrape {
  import opened Results
  import opened Sitemap
  import opened Dedup
  import opened Collect
  import opened Archive

  const DefaultBaseUrl: string := "https://www.zinzane.com.br"
  const DefaultOutputDir: string := "clone-all"

  /** The first positional argument (argv[2]), or the default site. A
      destructuring default applies only to a missing element, so a given
      argument is used as it is, even when empty. */
  function BaseUrlArg(argv: seq<string>): (r: string)
    ensures |argv| > 2 ==> r == argv[2]
    ensures |argv| <= 2 ==> r == DefaultBaseUrl
  {
    if |argv| > 2 then argv[2] else DefaultBaseUrl
  }

  /** The second positional argument (argv[3]), or the default folder. */
  function OutputDirArg(argv: seq<string>): (r: string)
    ensures |argv| > 3 ==> r == argv[3]
    ensures |argv| <= 3 ==> r == DefaultOutputDir
  {
    if |argv| > 3 then argv[3] else DefaultOutputDir
  }

  /** The run. The final filesystem depends only on the arguments and the
      oracles, not on what the output directory held before, so running
      it twice leaves the same pages as running it once. */
  method CloneAll(fs: FileSystem, argv: seq<string>, net: string -> Fetch,
                  pathnameOf: string -> Option<string>,
                  render: string -> Option<string>) returns (pages: seq<string>)
    modifies fs
    ensures pages == PageList(MergedUrls(net, SitemapUrls(BaseUrlArg(argv))))
    ensures fs.State() ==
            Archived(Disk({OutputDirArg(argv)}, map[]), pages, OutputDirArg(argv), pathnameOf, render)
  {
    var baseUrl := BaseUrlArg(argv);
    var outputDir := OutputDirArg(argv);
    fs.EmptyDir(outputDir);
    pages := CollectPages(net, baseUrl);
    ArchivePages(fs, pages, outputDir, pathnameOf, render);
  }
}
