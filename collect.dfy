/** The top-level collection in scrape.js: the base URL, the two sitemap
    URLs built from it, the loop that reads each sitemap and keeps what the
    successful ones list, and the deduplicated, filtered page list. */
module Collect {
  import opened Results
  import opened Sitemap
  import opened Dedup

  /** `baseUrl.replace(/\/$/, '')`: drops one '/' at the very end. */
  function TrimTrailingSlash(s: string): (r: string)
    ensures r <= s && |s| - 1 <= |r|
    ensures r == s <==> (s == [] || s[|s| - 1] != '/')
  {
    if s != [] && s[|s| - 1] == '/' then s[..|s| - 1] else s
  }

  /** Exactly one slash goes, even when there are several. */
  lemma TrimRemovesExactlyOneSlash(s: string)
    ensures TrimTrailingSlash(s + "/") == s
  {
    assert (s + "/")[..|s|] == s;
  }

  /** The routes sitemap, then the products sitemap: two distinct URLs,
      both in the `/sitemap/` folder of the trimmed base. */
  function SitemapUrls(baseUrl: string): (r: seq<string>)
    ensures |r| == 2 && r[0] != r[1]
    ensures r[0] == TrimTrailingSlash(baseUrl) + "/sitemap/userRoute-0.xml"
    ensures r[1] == TrimTrailingSlash(baseUrl) + "/sitemap/product-0.xml"
  {
    var base := TrimTrailingSlash(baseUrl);
    [base + "/sitemap/userRoute-0.xml", base + "/sitemap/product-0.xml"]
  }

  /** A base URL given with or without one trailing slash names the same
      sitemaps. */
  lemma SitemapUrlsIgnoreTrailingSlash(baseUrl: string)
    requires baseUrl == [] || baseUrl[|baseUrl| - 1] != '/'
    ensures SitemapUrls(baseUrl + "/") == SitemapUrls(baseUrl)
  {
    TrimRemovesExactlyOneSlash(baseUrl);
  }

  /** What the collection loop has accumulated after reading `sitemaps`:
      the lists of the sitemaps that were read, in order; a sitemap that
      failed adds nothing. `net` gives what fetching a URL produced. */
  function MergedUrls(net: string -> Fetch, sitemaps: seq<string>): seq<string>
  {
    if sitemaps == [] then []
    else
      var earlier := MergedUrls(net, sitemaps[..|sitemaps| - 1]);
      match Flatten(net(sitemaps[|sitemaps| - 1]))
      case Failure(_) => earlier
      case Success(urls) => earlier + urls
  }

  /** The loop over the top-level sitemaps: a failure is caught, logged
      and skipped; a success is appended. */
  method CollectUrls(net: string -> Fetch, sitemaps: seq<string>) returns (allUrls: seq<string>)
    ensures allUrls == MergedUrls(net, sitemaps)
  {
    allUrls := [];
    for i := 0 to |sitemaps|
      invariant allUrls == MergedUrls(net, sitemaps[..i])
    {
      assert sitemaps[..i + 1][..i] == sitemaps[..i];
      var urls := GetUrlsFromSitemap(net(sitemaps[i]));
      if urls.Success? {
        allUrls := allUrls + urls.value;
      }
    }
    assert sitemaps[..|sitemaps|] == sitemaps;
  }

  lemma {:induction false} MergedUrlsAppend(net: string -> Fetch, a: seq<string>, b: seq<string>)
    ensures MergedUrls(net, a + b) == MergedUrls(net, a) + MergedUrls(net, b)
    decreases |b|
  {
    if b == [] {
      assert a + b == a;
    } else {
      var b' := b[..|b| - 1];
      assert (a + b)[..|a + b| - 1] == a + b';
      MergedUrlsAppend(net, a, b');
    }
  }

  /** A sitemap that fails contributes nothing, wherever it stands, and the
      others still contribute. */
  lemma FailedSitemapContributesNothing(net: string -> Fetch, a: seq<string>, s: string, b: seq<string>)
    requires Flatten(net(s)).Failure?
    ensures MergedUrls(net, a + [s] + b) == MergedUrls(net, a) + MergedUrls(net, b)
  {
    MergedUrlsAppend(net, a + [s], b);
    assert (a + [s])[..|a|] == a;
  }

  /** A URL is merged exactly when some top-level sitemap that was read
      lists it. */
  lemma {:induction false} MergedUrlsMembers(net: string -> Fetch, sitemaps: seq<string>, x: string)
    ensures x in MergedUrls(net, sitemaps) <==>
            exists i :: 0 <= i < |sitemaps| && Flatten(net(sitemaps[i])).Success? &&
                        x in Flatten(net(sitemaps[i])).value
  {
    if sitemaps != [] {
      var init := sitemaps[..|sitemaps| - 1];
      MergedUrlsMembers(net, init, x);
      forall i | 0 <= i < |init| ensures init[i] == sitemaps[i] { }
    }
  }

  /** The pages to clone: the merged lists of both sitemaps, each URL once
      at its first occurrence, keeping those that start with "http". */
  method CollectPages(net: string -> Fetch, baseUrl: string) returns (pages: seq<string>)
    ensures pages == PageList(MergedUrls(net, SitemapUrls(baseUrl)))
    ensures Distinct(pages)
    ensures forall x :: x in pages ==> StartsWithHttp(x)
    ensures forall x :: x in pages <==> x in MergedUrls(net, SitemapUrls(baseUrl)) && StartsWithHttp(x)
    ensures OrderedByFirstOccurrence(pages, MergedUrls(net, SitemapUrls(baseUrl)))
  {
    var sitemaps := SitemapUrls(baseUrl);
    var allUrls := CollectUrls(net, sitemaps);
    pages := PageList(allUrls);
  }
}
