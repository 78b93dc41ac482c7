/** The recursive sitemap reader `getUrlsFromSitemap` of scrape.js.

    The HTTP client and the XML parser are not modelled: what fetching and
    parsing a sitemap URL produced is given as a `Fetch` value. Because a
    `<sitemapindex>` refers to further sitemaps, the answers of the network
    are unfolded into a finite tree: every child reference carries what
    fetching its `<loc>` produced. The tree is finite, so the recursion
    terminates structurally (the script itself would not stop on an index
    that refers to itself). */
module Sitemap {
  import opened Results

  /** The outcome of fetching and parsing one sitemap URL. */
  datatype Fetch =
    | FetchFailed          // axios.get rejected
    | ParseFailed          // xml2js rejected the body
    | Parsed(doc: Doc)

  /** The parsed document, in the three shapes the reader tells apart.
      `UrlSet(urls)` holds the `<loc>` of every `<url>` entry (None when the
      entry has no `<loc>`); an empty `urls` stands for a `<urlset>` without
      `<url>` children. `SitemapIndex(sitemaps)` likewise. Every other
      document is `Unrecognised`. */
  datatype Doc =
    | UrlSet(urls: seq<Option<string>>)
    | SitemapIndex(sitemaps: seq<SitemapRef>)
    | Unrecognised

  /** One `<sitemap>` entry of an index: its `<loc>` and what fetching that
      location produced, or an entry without `<loc>`. */
  datatype SitemapRef =
    | SubSitemap(loc: string, fetched: Fetch)
    | Locless

  /** The `loc[0]` of every `<url>` entry, in document order; the first
      entry without a `<loc>` makes the whole map throw. */
  function Locs(urls: seq<Option<string>>): (r: Result<seq<string>>)
    ensures r.Success? <==> forall i :: 0 <= i < |urls| ==> urls[i].Some?
    ensures r.Failure? ==> r.error == LocMissing
    ensures r.Success? ==> |r.value| == |urls| &&
                           forall i :: 0 <= i < |urls| ==> r.value[i] == urls[i].value
  {
    if urls == [] then Success([])
    else match urls[0]
      case None => Failure(LocMissing)
      case Some(loc) =>
        match Locs(urls[1..])
        case Failure(e) => Failure(e)
        case Success(rest) => Success([loc] + rest)
  }

  /** The page URLs listed under one fetched sitemap, depth first and in
      document order; a failure anywhere in the tree is the result. */
  function Flatten(f: Fetch): Result<seq<string>>
    decreases f, 0
  {
    match f
    case FetchFailed => Failure(FetchError)
    case ParseFailed => Failure(ParseError)
    case Parsed(doc) =>
      match doc
      case UrlSet(urls) => Locs(urls)
      case SitemapIndex(refs) => FlattenPrefix(doc, |refs|)
      case Unrecognised => Success([])
  }

  /** The result of one child reference of an index. */
  function ChildResult(ref: SitemapRef): Result<seq<string>>
    decreases ref, 1
  {
    match ref
    case Locless => Failure(LocMissing)
    case SubSitemap(_, sub) => Flatten(sub)
  }

  /** What the index loop has accumulated after its first `n` children:
      the concatenation of their lists, or the first failure met. */
  function FlattenPrefix(doc: Doc, n: nat): Result<seq<string>>
    requires doc.SitemapIndex? && n <= |doc.sitemaps|
    decreases doc, n
  {
    if n == 0 then Success([])
    else
      match FlattenPrefix(doc, n - 1)
      case Failure(e) => Failure(e)
      case Success(urls) =>
        match ChildResult(doc.sitemaps[n - 1])
        case Failure(e) => Failure(e)
        case Success(more) => Success(urls + more)
  }

  /** `getUrlsFromSitemap`: the urlset branch maps, the index branch loops
      over the children, concatenating and aborting on the first failure. */
  method GetUrlsFromSitemap(f: Fetch) returns (r: Result<seq<string>>)
    ensures r == Flatten(f)
    decreases f
  {
    match f
    case FetchFailed => return Failure(FetchError);
    case ParseFailed => return Failure(ParseError);
    case Parsed(doc) =>
      match doc {
        case UrlSet(urls) =>
          return Locs(urls);
        case SitemapIndex(refs) =>
          var urls: seq<string> := [];
          var i := 0;
          while i < |refs|
            invariant 0 <= i <= |refs|
            invariant FlattenPrefix(doc, i) == Success(urls)
          {
            match refs[i] {
              case Locless =>
                PrefixFailureSticks(doc, i + 1, |refs|);
                return Failure(LocMissing);
              case SubSitemap(_, sub) =>
                var subUrls := GetUrlsFromSitemap(sub);
                if subUrls.Failure? {
                  PrefixFailureSticks(doc, i + 1, |refs|);
                  return subUrls;
                }
                urls := urls + subUrls.value;
            }
            i := i + 1;
          }
          return Success(urls);
        case Unrecognised =>
          return Success([]);
      }
  }

  /** Once one child has failed, no later child can restore a result. */
  lemma {:induction false} PrefixFailureSticks(doc: Doc, m: nat, n: nat)
    requires doc.SitemapIndex? && m <= n <= |doc.sitemaps|
    requires FlattenPrefix(doc, m).Failure?
    ensures FlattenPrefix(doc, n) == FlattenPrefix(doc, m)
    decreases n - m
  {
    if m < n {
      PrefixFailureSticks(doc, m, n - 1);
    }
  }

  /** The concatenation of a sequence of lists. */
  function Concat(lists: seq<seq<string>>): seq<string>
  {
    if lists == [] then [] else Concat(lists[..|lists| - 1]) + lists[|lists| - 1]
  }

  /** Each of the first `n` child references yields a list. */
  predicate ChildrenSucceedBefore(refs: seq<SitemapRef>, n: nat)
    requires n <= |refs|
  {
    forall i :: 0 <= i < n ==> ChildResult(refs[i]).Success?
  }

  /** The lists of the first `n` children, in document order. */
  function ChildLists(refs: seq<SitemapRef>, n: nat): (lists: seq<seq<string>>)
    requires n <= |refs| && ChildrenSucceedBefore(refs, n)
    ensures |lists| == n
  {
    seq(n, i requires 0 <= i < n => ChildResult(refs[i]).value)
  }

  lemma {:induction false} FlattenPrefixIsConcat(doc: Doc, n: nat)
    requires doc.SitemapIndex? && n <= |doc.sitemaps|
    requires ChildrenSucceedBefore(doc.sitemaps, n)
    ensures FlattenPrefix(doc, n) == Success(Concat(ChildLists(doc.sitemaps, n)))
  {
    if n > 0 {
      FlattenPrefixIsConcat(doc, n - 1);
      assert ChildLists(doc.sitemaps, n)[..n - 1] == ChildLists(doc.sitemaps, n - 1);
    }
  }

  /** A `<sitemapindex>` whose children all yield lists yields their
      in-order concatenation, depth first. */
  lemma IndexIsConcatenation(refs: seq<SitemapRef>)
    requires ChildrenSucceedBefore(refs, |refs|)
    ensures Flatten(Parsed(SitemapIndex(refs))) == Success(Concat(ChildLists(refs, |refs|)))
  {
    FlattenPrefixIsConcat(SitemapIndex(refs), |refs|);
  }

  /** A failing child aborts the whole index: the result is the failure of
      the first failing child, and no partial list is returned. */
  lemma IndexFailsOnFirstFailingChild(refs: seq<SitemapRef>, i: nat)
    requires i < |refs|
    requires ChildrenSucceedBefore(refs, i)
    requires ChildResult(refs[i]).Failure?
    ensures Flatten(Parsed(SitemapIndex(refs))) == ChildResult(refs[i])
  {
    var doc := SitemapIndex(refs);
    FlattenPrefixIsConcat(doc, i);
    PrefixFailureSticks(doc, i + 1, |refs|);
  }

  /** The index yields a list exactly when every child does. */
  lemma IndexSucceedsIffAllChildrenSucceed(refs: seq<SitemapRef>)
    ensures Flatten(Parsed(SitemapIndex(refs))).Success? <==> ChildrenSucceedBefore(refs, |refs|)
  {
    if ChildrenSucceedBefore(refs, |refs|) {
      IndexIsConcatenation(refs);
    } else {
      var i := FirstFailingChild(refs);
      IndexFailsOnFirstFailingChild(refs, i);
    }
  }

  /** The position of the first child that fails. */
  lemma FirstFailingChild(refs: seq<SitemapRef>) returns (i: nat)
    requires !ChildrenSucceedBefore(refs, |refs|)
    ensures i < |refs| && ChildrenSucceedBefore(refs, i) && ChildResult(refs[i]).Failure?
  {
    i := 0;
    while i < |refs| && ChildResult(refs[i]).Success?
      invariant i <= |refs| && ChildrenSucceedBefore(refs, i)
    {
      i := i + 1;
    }
  }

  /** A string is in the concatenation exactly when some list holds it,
      so an index whose children all succeed yields the union of their
      URLs. */
  lemma {:induction false} ConcatMembers(lists: seq<seq<string>>, x: string)
    ensures x in Concat(lists) <==> exists i :: 0 <= i < |lists| && x in lists[i]
  {
    if lists != [] {
      var init := lists[..|lists| - 1];
      ConcatMembers(init, x);
      forall i | 0 <= i < |init| ensures init[i] == lists[i] { }
    }
  }

  /** A document of neither recognised shape, and either shape without
      entries, yields no URLs rather than an error. */
  lemma UnrecognisedYieldsNothing()
    ensures Flatten(Parsed(Unrecognised)) == Success([])
    ensures Flatten(Parsed(UrlSet([]))) == Success([])
    ensures Flatten(Parsed(SitemapIndex([]))) == Success([])
  {
  }
}
