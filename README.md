# Sitemap cloner, modelled in Dafny

`scrape.js` archives a web site: it reads the site's two XML sitemaps
(following `<sitemapindex>` references recursively), merges the page URLs
they list, removes duplicates and non-`http` entries, then renders every
page in a headless browser and writes its HTML to
`<outputDir>/<pathname>/index.html`.

This project models the deterministic bookkeeping between the I/O calls:

- `results.dfy` — `Option`, `Result` and the error kinds of one sitemap read.
- `sitemap.dfy` — `getUrlsFromSitemap`. What fetching and parsing a URL
  produced is a `Fetch` value; the answers for the child sitemaps of an
  index are unfolded into a finite tree (`SubSitemap(loc, fetched)`).
  `Flatten` is the specification; the method `GetUrlsFromSitemap` keeps
  the source's loop over the index entries and is proved equal to it.
- `dedup.dfy` — `[...new Set(allUrls)].filter(u => u.startsWith('http'))`,
  with its order, uniqueness and membership properties, and a proof that
  those properties determine the list.
- `collect.dfy` — trimming the base URL, the two sitemap URLs, the
  top-level loop that tolerates a failing sitemap, and the page list.
- `paths.dfy` — the `saveDir` computation.
- `archive.dfy` — the filesystem as a class (`FileSystem`: ensured
  directories and a map from directory to the contents of its
  `index.html`), `clonePage`, and the archive loop, proved against the
  specification function `Archived`, with the failure-isolation and
  last-write-wins lemmas.
- `scrape.dfy` — the two optional arguments with their defaults and the
  whole run.

The network is the parameter `net: string -> Fetch` (for the two
top-level sitemaps) and the tree inside `Fetch` (for child sitemaps). The
browser is `render: string -> Option<string>` (None: navigation or
content capture failed). `new URL(u).pathname` is
`pathnameOf: string -> Option<string>` (None: the constructor throws).

The model follows the code in three places that are easy to misread:
- the filter keeps every string that starts with `http` (so `httpfoo` is
  kept), not only `http://` and `https://` ones;
- the deduplicated list keeps the order of first occurrences (a
  JavaScript `Set` iterates in insertion order); it is not an unordered set;
- a sitemap entry without `<loc>` makes the read throw (`loc[0]` of an
  absent element), which is a failure like a fetch or parse error.

## Model

| member | source | states |
|---|---|---|
| Sitemap.Locs | scrape.js:15-17 | a `<urlset>` yields a list exactly when every `<url>` has a `<loc>`; then it has one entry per `<url>`, the entry's `loc[0]`, in document order; otherwise the error is a missing `<loc>` |
| Sitemap.GetUrlsFromSitemap | scrape.js:8-31 | the loop-and-recursion reader returns exactly the depth-first flattening `Flatten` of the fetched document, including its failures |
| Sitemap.PrefixFailureSticks | scrape.js:22-26 | once a child of an index has failed, processing later children never yields a result again |
| Sitemap.IndexIsConcatenation | scrape.js:20-28 | an index whose children all succeed yields the in-order concatenation of their lists |
| Sitemap.IndexFailsOnFirstFailingChild | scrape.js:22-26 | a failing child aborts the whole index: the result is the first failing child's error, never a partial list |
| Sitemap.IndexSucceedsIffAllChildrenSucceed | scrape.js:20-28 | an index yields a list if and only if every child does |
| Sitemap.ConcatMembers | scrape.js:25 | a URL is in the concatenation exactly when some child's list holds it (the union of the children's URLs) |
| Sitemap.UnrecognisedYieldsNothing | scrape.js:15-30 | an unrecognised document, an empty urlset and an empty index all yield the empty list, not an error |
| Dedup.Unique | scrape.js:67 | the Set spread holds exactly the strings of its input, ordered by their first occurrences (so each once) |
| Dedup.KeepHttp | scrape.js:67 | the filter holds exactly the input strings that start with "http" |
| Dedup.KeepHttpKeepsOrder | scrape.js:67 | filtering preserves the first-occurrence order |
| Dedup.PageList | scrape.js:67 | the whole dedup-then-filter expression: the page list is duplicate-free, every entry starts with "http", an entry is present iff it occurs in the merged list and starts with "http", and entries follow first-occurrence order |
| Dedup.PageListIsDetermined | scrape.js:67 | any list with the membership and order properties above is the page list (the properties characterise it) |
| Collect.TrimTrailingSlash | scrape.js:43 | the result is a prefix of the base URL at most one character shorter, and differs from it iff the base ends with '/' |
| Collect.TrimRemovesExactlyOneSlash | scrape.js:43 | exactly one trailing '/' is removed, even when more are present |
| Collect.SitemapUrls | scrape.js:46-49 | exactly two distinct sitemap URLs in this order: trimmed base + `/sitemap/userRoute-0.xml`, then trimmed base + `/sitemap/product-0.xml` |
| Collect.SitemapUrlsIgnoreTrailingSlash | scrape.js:43-49 | a base given with or without one trailing '/' names the same sitemaps |
| Collect.CollectUrls | scrape.js:55-64 | the loop's accumulated list is the in-order concatenation of the lists of the sitemaps that were read successfully |
| Collect.FailedSitemapContributesNothing | scrape.js:56-64 | a failing top-level sitemap contributes nothing, and the sitemaps before and after it contribute as if it were absent |
| Collect.MergedUrlsMembers | scrape.js:55-64 | a URL is merged iff some successfully read top-level sitemap lists it |
| Collect.CollectPages | scrape.js:42-67 | the pages to clone are the deduplicated, filtered merge of the two sitemaps: distinct, all starting with "http", present iff merged and starting with "http", in first-occurrence order |
| Paths.Join | scrape.js:80 | `path.join` abstracted: one '/' at the end of the directory and one at the start of the pathname become a single '/', other repeated separators are kept (the trimmed directory followed by '/' begins the result); a directory without a trailing '/' joined with an absolute pathname is their concatenation |
| Paths.SaveDir | scrape.js:80-86 | pathname "/" or "" maps to the output directory; any other pathname maps to a path inside it; an absolute pathname other than "/" maps to the output directory (one trailing '/' dropped) followed by the pathname (one trailing '/' dropped) |
| Paths.SaveDirIgnoresTrailingSlash | scrape.js:80-83 | `/foo/bar/` and `/foo/bar` map to the same directory |
| Paths.SaveDirInjective | scrape.js:80-86 | distinct absolute pathnames without a trailing '/' and without empty segments (`//`) map to distinct directories |
| Paths.SaveDirExamples | scrape.js:80-86 | "/" gives "clone-all"; "/foo/bar/" and "/foo/bar" give "clone-all/foo/bar" |
| Archive.FileSystem.EmptyDir | scrape.js:52 | afterwards the output directory exists and nothing else of the output tree does |
| Archive.FileSystem.EnsureDir | scrape.js:87 | the directory is added; no file changes |
| Archive.FileSystem.WriteIndex | scrape.js:37 | the directory's `index.html` is created or overwritten with the HTML; directories do not change |
| Archive.ClonePage | scrape.js:33-38 | on a successful render the directory's `index.html` holds the rendered HTML; on a failed render nothing changes |
| Archive.ArchivePages | scrape.js:76-92 | the filesystem after the loop is `Archived` of the filesystem before it: every URL processed in order, each failure skipped |
| Archive.ArchivedDirs | scrape.js:78-88 | the directory of every URL whose pathname parses is ensured, including when its render then fails; no other directory is created |
| Archive.ArchivedFiles | scrape.js:76-92 | a directory has an `index.html` iff it had one or some URL's page was saved into it; one no page was saved into is unchanged |
| Archive.LastWriteWins | scrape.js:76-92 | a saved page is the final content of its directory unless a later URL saved into the same directory |
| Archive.FailedPageWritesNothing | scrape.js:88-91 | a URL whose page is not saved changes no file, and the rest of the run writes exactly what it would without that URL |
| Scrape.BaseUrlArg | scrape.js:42 | the third argv element when present, used as given even when empty (a destructuring default applies only to a missing element); otherwise the default site URL |
| Scrape.OutputDirArg | scrape.js:42 | the fourth argv element when present, used as given even when empty; otherwise `clone-all` |
| Scrape.CloneAll | scrape.js:40-96 | the run archives exactly the collected page list into a freshly emptied output directory, so the result does not depend on what the directory held before (running twice equals running once) |

## Left out

- HTTP fetching (axios) and XML parsing (xml2js): replaced by the `Fetch` tree, in which every `<loc>` is text.
- Whole-run aborts: `CloneAll` always completes, while the script stops with an unhandled rejection when `fs.emptyDir` fails (line 52), when `puppeteer.launch` or `newPage` fails (lines 72-73), or when a `<urlset>` `<loc>` carries attributes: xml2js then yields an object rather than a string, `u.startsWith` throws at line 67 outside any `try`, and the run ends after the output directory was already emptied, with nothing archived.
- The recursion over a sitemap index is over a finite tree, so an index that refers to itself (on which the script would not stop) cannot be expressed.
- The browser (launch, `goto` with `networkidle2`, `content`, `close`): replaced by the `render` oracle; timeouts are just a None.
- WHATWG URL parsing: replaced by the `pathnameOf` oracle.
- `path.join` normalisation: Join absorbs one '/' at the end of the directory and one at the start of the pathname; '.', '..' and repeated separators are not normalised, and '/' is the only separator. So a pathname with an empty segment (`/a//b`) lands in a different directory in the model (`clone-all/a//b`) than in the script (`clone-all/a/b`, the same as `/a/b`); Paths.SaveDirInjective excludes such pathnames.
- Filesystem errors: `ensureDir` and `writeFile` always succeed in the model (a real run can fail, for instance when a page's pathname is `/index.html` and the root page's file is already there); the intermediate directories that `ensureDir` creates are not recorded.
- The filesystem state covers only the output tree; `emptyDir` resets it.
- Console logging and the async/await sequencing (every call is awaited in turn, so the model is sequential).
