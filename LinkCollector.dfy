/** `scrape_links` (scrapes/scrape.py lines 24-56): walk the listing pages
    1..num_pages in order, keep the title anchor of every listing entry
    (every second "ga-link" anchor, starting from the second), append the
    hrefs, and pause after every tenth page. */
module LinkCollector {
  import opened Wrappers
  import LinkFile

  const PagesPerBreak: nat := 10

  /** A fetched listing page as the HTML parser sees it: the hrefs of the
      "ga-link" anchors inside the element with id "browse-results", in
      document order; None when the page has no such element. Each listing
      entry contributes two anchors, the thumbnail link then the title link. */
  datatype ListingPage = ListingPage(browseResults: Option<seq<string>>)

  /** The run ends either with the collected links (and the text of the
      link file when one was asked for) or with the AttributeError raised
      on the 1-based page that had no "browse-results" element. */
  datatype Collection =
    | Collected(links: seq<string>, linkFile: Option<string>)
    | NoBrowseResults(page: nat)

  /** The slice `[1::2]` of line 40: the anchors at odd positions, in order. */
  function TitleLinks(anchors: seq<string>): (r: seq<string>)
    ensures |r| == |anchors| / 2
    ensures forall k :: 0 <= k < |r| ==> r[k] == anchors[2 * k + 1]
    ensures forall i :: 0 <= i < |anchors| && i % 2 == 1 ==> r[i / 2] == anchors[i]
    decreases |anchors|
  {
    if |anchors| < 2 then [] else [anchors[1]] + TitleLinks(anchors[2..])
  }

  predicate AllListed(pages: seq<ListingPage>)
  {
    forall p :: 0 <= p < |pages| ==> pages[p].browseResults.Some?
  }

  /** The links of all pages: each page's title links, page after page. */
  function CollectedLinks(pages: seq<ListingPage>): seq<string>
    requires AllListed(pages)
    decreases |pages|
  {
    if |pages| == 0 then []
    else CollectedLinks(pages[..|pages| - 1]) + TitleLinks(pages[|pages| - 1].browseResults.value)
  }

  /** The number of listing entries (anchor pairs) on the pages. */
  function EntryCount(pages: seq<ListingPage>): nat
    requires AllListed(pages)
    decreases |pages|
  {
    if |pages| == 0 then 0
    else EntryCount(pages[..|pages| - 1]) + |pages[|pages| - 1].browseResults.value| / 2
  }

  /** Collecting is page-ordered: the links of `a + b` are those of `a`
      followed by those of `b`. */
  lemma {:induction false} CollectedLinksAppend(a: seq<ListingPage>, b: seq<ListingPage>)
    requires AllListed(a) && AllListed(b)
    ensures AllListed(a + b)
    ensures CollectedLinks(a + b) == CollectedLinks(a) + CollectedLinks(b)
    decreases |b|
  {
    if |b| > 0 {
      var b' := b[..|b| - 1];
      assert (a + b)[..|a + b| - 1] == a + b';
      assert AllListed(b');
      CollectedLinksAppend(a, b');
    } else {
      assert a + b == a;
    }
  }

  /** One link per listing entry, never the thumbnail link. */
  lemma {:induction false} CollectedLinksCount(pages: seq<ListingPage>)
    requires AllListed(pages)
    ensures |CollectedLinks(pages)| == EntryCount(pages)
    decreases |pages|
  {
    if |pages| > 0 {
      CollectedLinksCount(pages[..|pages| - 1]);
    }
  }

  /** The 1-based numbers of the pages after which the run pauses, among
      the first `n` pages. */
  function PausePages(n: nat): seq<nat>
  {
    if n == 0 then [] else PausePages(n - 1) + (if n % PagesPerBreak == 0 then [n] else [])
  }

  /** A pause comes after exactly the pages whose number is a multiple of
      ten, in increasing order. */
  lemma {:induction false} PausePagesIff(n: nat)
    ensures forall p :: p in PausePages(n) <==> 1 <= p <= n && p % PagesPerBreak == 0
    ensures forall k, m :: 0 <= k < m < |PausePages(n)| ==> PausePages(n)[k] < PausePages(n)[m]
  {
    if n > 0 {
      PausePagesIff(n - 1);
      var before := PausePages(n - 1);
      forall k | 0 <= k < |before| ensures before[k] < n {
        assert before[k] in before;
      }
    }
  }

  /** The first page without a "browse-results" element. */
  function FirstUnlisted(pages: seq<ListingPage>): (k: nat)
    requires !AllListed(pages)
    ensures k < |pages| && pages[k].browseResults.None?
    ensures AllListed(pages[..k])
  {
    if pages[0].browseResults.None? then 0
    else
      var k := FirstUnlisted(pages[1..]);
      assert pages[..k + 1] == [pages[0]] + pages[1..][..k];
      k + 1
  }

  lemma {:induction false} FirstUnlistedAt(pages: seq<ListingPage>, k: nat)
    requires k < |pages| && pages[k].browseResults.None?
    requires AllListed(pages[..k])
    ensures !AllListed(pages) && FirstUnlisted(pages) == k
    decreases k
  {
    if k > 0 {
      assert pages[1..][..k - 1] == pages[..k][1..];
      FirstUnlistedAt(pages[1..], k - 1);
    }
  }

  /** `if outfile:` — a path that is None or empty writes no file. */
  predicate SavesTo(outfile: Option<string>)
  {
    outfile.Some? && outfile.value != ""
  }

  /** Lines 31-56, with the link file written as line 54 intends. */
  method ScrapeLinks(pages: seq<ListingPage>, outfile: Option<string>)
    returns (result: Collection, pauses: seq<nat>)
    ensures AllListed(pages) ==>
      && result == Collected(CollectedLinks(pages),
                             if SavesTo(outfile) then Some(LinkFile.Write(CollectedLinks(pages))) else None)
      && pauses == PausePages(|pages|)
    ensures !AllListed(pages) ==>
      && result == NoBrowseResults(FirstUnlisted(pages) + 1)
      && pauses == PausePages(FirstUnlisted(pages))
  {
    var talkLinks: seq<string> := [];
    pauses := [];
    var currentPage := 0;
    while currentPage < |pages|
      invariant 0 <= currentPage <= |pages|
      invariant AllListed(pages[..currentPage])
      invariant talkLinks == CollectedLinks(pages[..currentPage])
      invariant pauses == PausePages(currentPage)
    {
      var results := pages[currentPage].browseResults;
      if results.None? {
        FirstUnlistedAt(pages, currentPage);
        return NoBrowseResults(currentPage + 1), pauses;
      }
      var talks := TitleLinks(results.value);
      var t := 0;
      while t < |talks|
        invariant 0 <= t <= |talks|
        invariant talkLinks == CollectedLinks(pages[..currentPage]) + talks[..t]
      {
        talkLinks := talkLinks + [talks[t]];
        t := t + 1;
      }
      assert talks[..t] == talks;
      assert pages[..currentPage + 1][..currentPage] == pages[..currentPage];
      if (currentPage + 1) % PagesPerBreak == 0 {
        pauses := pauses + [currentPage + 1];
      }
      currentPage := currentPage + 1;
    }
    assert pages[..currentPage] == pages;
    var linkFile := if SavesTo(outfile) then Some(LinkFile.Write(talkLinks)) else None;
    result := Collected(talkLinks, linkFile);
  }
}
