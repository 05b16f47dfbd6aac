/**
 * The content script's pipeline: the `running` and `cancelRequested` flags,
 * `crawlAll` over the extracted links, the mapping of fetched pages to the
 * assembler's chapters, and the cancel message handler.
 */
module Pipeline {
  import opened Common
  import opened Dom
  import opened Urls
  import opened Parser
  import opened Slug
  import opened Printer
  import opened Links
  import opened Crawl

  /** The `contentSelector` and `excludeSelectors` of `DEFAULT_CONFIG`; its `aside a` is `SidebarAnchors`. */
  const DefaultConfig: Config := Config(
    Some([Type("main"), Type("article"), Class("content")]),
    Some([Class("ad"), Class("ads"), Class("advertisement"), Class("comments"), Class("comment"), Class("breadcrumb")]))

  /** What the browser supplies: how each URL fetches, and how a node serialises. */
  datatype Web = Web(fetch: string -> HttpOutcome, resolve: Resolver, serialize: Serializer)

  /** How `startPipeline` settles: `{ok: true}` or `{ok: false, reason}`. */
  datatype Outcome = Ok | Busy | NoLinks | Cancelled

  /** The cancel message arrives before the crawl has run out of URLs. */
  predicate CancelledDuring(n: nat, cancelAt: Option<nat>) {
    cancelAt.Some? && cancelAt.value < n
  }

  /**
   * How many URLs are claimed when the cancel message arrives while claim
   * `cancelAt` is in flight (`None`: it never arrives during the crawl).
   */
  function Claimed(n: nat, cancelAt: Option<nat>): (k: nat)
    ensures k <= n
    ensures k < n <==> cancelAt.Some? && cancelAt.value + 1 < n
    ensures CancelledDuring(n, cancelAt) ==> k == cancelAt.value + 1
    ensures !CancelledDuring(n, cancelAt) ==> k == n
  {
    if cancelAt.Some? && cancelAt.value < n then cancelAt.value + 1 else n
  }

  /** The page stored for link `i`. */
  function Stored(urls: seq<Link>, i: nat, config: Config, web: Web): Page
    requires i < |urls|
  {
    PageResult(urls[i].url, web.fetch(urls[i].url), config, web.resolve, web.serialize)
  }

  /** The pages stored for the first `k` links, in link order. */
  function StoredPages(urls: seq<Link>, k: nat, config: Config, web: Web): (r: seq<Page>)
    requires k <= |urls|
    ensures |r| == k && forall i :: 0 <= i < k ==> r[i] == Stored(urls, i, config, web)
  {
    seq(k, i requires 0 <= i < k => Stored(urls, i, config, web))
  }

  /**
   * Stored page `i` keeps its link's URL, and is the fetched page when
   * `fetchPage` succeeds and the error placeholder when it throws.
   */
  lemma StoredPagesSpec(urls: seq<Link>, k: nat, config: Config, web: Web, i: nat)
    requires i < k <= |urls|
    ensures var r, f := StoredPages(urls, k, config, web), Fetched(urls[i].url, web.fetch(urls[i].url), config, web.resolve, web.serialize);
      r[i].url == urls[i].url &&
      (f.Success? ==> r[i] == f.value) &&
      (f.Failure? ==> r[i] == FailedPage(urls[i].url))
  {
    PageResultSpec(urls[i].url, web.fetch(urls[i].url), config, web.resolve, web.serialize);
  }

  /**
   * Storing the pages of the first `k` claims leaves exactly the stylesheets of
   * the fetched pages among them, each once; placeholders add none.
   */
  lemma CrawlStyles(urls: seq<Link>, k: nat, config: Config, web: Web)
    requires k <= |urls|
    ensures var styles := StylesAfter(StoredPages(urls, k, config, web));
      NoDuplicates(styles) &&
      forall u :: u in styles <==>
        exists i :: 0 <= i < k && Fetched(urls[i].url, web.fetch(urls[i].url), config, web.resolve, web.serialize).Success? &&
          u in Stored(urls, i, config, web).styles
  {
    var pages := StoredPages(urls, k, config, web);
    StylesAfterSpec(pages);
    forall i | 0 <= i < k {
      PageResultSpec(urls[i].url, web.fetch(urls[i].url), config, web.resolve, web.serialize);
    }
  }

  lemma StylesStep(urls: seq<Link>, k: nat, config: Config, web: Web)
    requires k < |urls|
    ensures StylesAfter(StoredPages(urls, k + 1, config, web)) ==
      AddStyles(StylesAfter(StoredPages(urls, k, config, web)), Stored(urls, k, config, web).styles)
  {
    assert StoredPages(urls, k + 1, config, web)[..k] == StoredPages(urls, k, config, web);
  }

  /** The `results` array once the first `k` links have been stored: later slots are still empty. */
  function Slots(urls: seq<Link>, k: nat, config: Config, web: Web): (r: seq<Option<Page>>)
    requires k <= |urls|
    ensures |r| == |urls|
    ensures forall i :: 0 <= i < |urls| ==> r[i] == if i < k then Some(Stored(urls, i, config, web)) else None
  {
    seq(|urls|, i requires 0 <= i < |urls| => if i < k then Some(Stored(urls, i, config, web)) else None)
  }

  lemma SlotsStep(urls: seq<Link>, k: nat, config: Config, web: Web)
    requires k < |urls|
    ensures Slots(urls, k + 1, config, web) == Slots(urls, k, config, web)[k := Some(Stored(urls, k, config, web))]
  {
  }

  /** `` `chapter-${idx + 1}` ``. */
  function ChapterFallback(idx: nat): string {
    "chapter-" + NatToString(idx + 1)
  }

  /** `links[idx]?.level || 1`. */
  function LinkLevel(links: seq<Link>, idx: nat): int {
    if idx < |links| && links[idx].level != 0 then links[idx].level else 1
  }

  /** `pages.map((page, idx) => ({...page, anchorId, level}))`. */
  function PreparedPages(pages: seq<Page>, links: seq<Link>): (r: seq<PreparedPage>)
    ensures |r| == |pages|
  {
    seq(|pages|, idx requires 0 <= idx < |pages| =>
      var p := pages[idx];
      PreparedPage(p.title, p.url, p.html, p.styles, Slugify(p.title, ChapterFallback(idx)), LinkLevel(links, idx)))
  }

  /**
   * Each chapter keeps its page's fields and gets the level of its link and,
   * as anchor, the slug of its title or else `chapter-<n>` with its 1-based position.
   */
  lemma PreparedPagesSpec(pages: seq<Page>, links: seq<Link>, idx: nat)
    requires idx < |pages|
    ensures var c := PreparedPages(pages, links)[idx];
      c.title == pages[idx].title && c.url == pages[idx].url && c.html == pages[idx].html &&
      c.styles == pages[idx].styles &&
      c.anchorId == Slugify(pages[idx].title, ChapterFallback(idx)) &&
      (c.anchorId == ChapterFallback(idx) || IsSlug(c.anchorId)) &&
      (pages[idx].title == "" ==> c.anchorId == ChapterFallback(idx)) &&
      (idx < |links| && links[idx].level != 0 ==> c.level == links[idx].level) &&
      (idx >= |links| || links[idx].level == 0 ==> c.level == 1)
  {
    SlugifySpec(pages[idx].title, ChapterFallback(idx));
  }

  /**
   * Anchors are not made unique: two failed pages both get the anchor
   * `抓取失败`, so both TOC entries lead to the first of them.
   */
  lemma FailedAnchorsCollide(pages: seq<Page>, links: seq<Link>, i: nat, j: nat)
    requires i < j < |pages| && pages[i].title == "抓取失败" && pages[j].title == "抓取失败"
    ensures PreparedPages(pages, links)[i].anchorId == PreparedPages(pages, links)[j].anchorId == "抓取失败"
  {
    FailedTitleSlug(pages[i].title, ChapterFallback(i));
    FailedTitleSlug(pages[j].title, ChapterFallback(j));
  }

  /** The print page written after a crawl of `links` that was not cancelled. */
  function PrintedPage(links: seq<Link>, ctx: PageContext, web: Web, today: string): string {
    var pages := StoredPages(links, |links|, DefaultConfig, web);
    var chapters := PreparedPages(pages, links);
    PrintHtml(ctx.docTitle, today, BuildStylesheetLinks(Some(StylesAfter(pages))),
              TocSection(Render(TocTokens(chapters))), BuildChapters(chapters))
  }

  /** The content script's module state. */
  class Pipeline {
    var running: bool
    var cancelRequested: bool

    constructor ()
      ensures !running && !cancelRequested
    {
      running := false;
      cancelRequested := false;
    }

    /** The `DOCUPRINT_CANCEL` handler: raises the flag and answers `{ok: true}`. */
    method Cancel() returns (ack: bool)
      modifies this
      ensures cancelRequested && running == old(running) && ack
    {
      cancelRequested := true;
      ack := true;
    }

    /**
     * `crawlAll(urls, config)`, with the workers' claims taken one after the
     * other: URL `index` is claimed, fetched and stored, its stylesheets are
     * added to `stylesSet`, and the loop stops at the end of the list or once
     * the cancel message (arriving while claim `cancelAt` is in flight) has
     * raised the flag. Unclaimed slots stay empty.
     */
    method CrawlAll(urls: seq<Link>, config: Config, web: Web, cancelAt: Option<nat>)
      returns (pages: seq<Option<Page>>, styles: seq<string>)
      requires !cancelRequested
      modifies this
      ensures running == old(running)
      ensures cancelRequested <==> CancelledDuring(|urls|, cancelAt)
      ensures pages == Slots(urls, Claimed(|urls|, cancelAt), config, web)
      ensures styles == StylesAfter(StoredPages(urls, Claimed(|urls|, cancelAt), config, web))
    {
      var results := new Option<Page>[|urls|](_ => None);
      var stylesSet: seq<string> := [];
      var index := 0;
      assert results[..] == Slots(urls, 0, config, web);
      while index < |urls| && !cancelRequested
        invariant 0 <= index <= |urls| && running == old(running)
        invariant cancelRequested <==> cancelAt.Some? && cancelAt.value < index
        invariant !cancelRequested ==> index <= Claimed(|urls|, cancelAt)
        invariant cancelRequested ==> index == Claimed(|urls|, cancelAt)
        invariant results[..] == Slots(urls, index, config, web)
        invariant stylesSet == StylesAfter(StoredPages(urls, index, config, web))
      {
        var currentIndex := index;
        index := index + 1;
        var page := StorePage(urls, currentIndex, config, web);
        SlotsStep(urls, currentIndex, config, web);
        results[currentIndex] := Some(page);
        StylesStep(urls, currentIndex, config, web);
        stylesSet := AddEach(stylesSet, page.styles);
        if cancelAt == Some(currentIndex) {
          var _ := Cancel();
        }
      }
      pages, styles := results[..], stylesSet;
    }

    /**
     * `startPipeline()`. A second start while one runs answers `busy` and
     * changes nothing. Otherwise the cancel flag is cleared, the links are
     * extracted (there is always at least one, so `no-links` never happens),
     * the crawl runs, and the result is `cancelled` exactly when the cancel
     * message arrived during the crawl; else the print page is built and
     * written when the pop-up opens, and the answer is `ok` either way.
     * `running` is cleared on every path that set it.
     */
    method StartPipeline(doc: Node, ctx: PageContext, web: Web, today: string, popupOpened: bool,
                         cancelAt: Option<nat>)
      returns (r: Outcome, written: Option<string>)
      modifies this
      ensures old(running) ==> r == Busy && written == None && running && cancelRequested == old(cancelRequested)
      ensures !old(running) ==> !running && r in {Ok, Cancelled}
      ensures !old(running) ==>
        var links := ExtractedLinks(SidebarAnchors(doc, []), ctx);
        (r == Cancelled <==> CancelledDuring(|links|, cancelAt)) &&
        cancelRequested == (r == Cancelled) &&
        (r == Cancelled ==> written == None) &&
        (r == Ok ==> (written.Some? <==> popupOpened)) &&
        (r == Ok && popupOpened ==> written.value == PrintedPage(links, ctx, web, today))
    {
      written := None;
      if running {
        return Busy, None;
      }
      running := true;
      cancelRequested := false;
      var links := ExtractLinks(doc, ctx);
      if |links| == 0 {
        // `no-links`: the current page is always among the links, so this cannot happen.
        assert false;
      }
      var results, styles := CrawlAll(links, DefaultConfig, web, cancelAt);
      if cancelRequested {
        running := false;
        return Cancelled, None;
      }
      var pages := seq(|results|, i requires 0 <= i < |results| => if results[i].Some? then results[i].value else FailedPage(""));
      assert pages == StoredPages(links, |links|, DefaultConfig, web);
      var preparedPages := PreparedPages(pages, links);
      written := BuildPrintPage(preparedPages, Some(styles), ctx.docTitle, today, popupOpened);
      running := false;
      r := Ok;
    }
  }

  /** One worker step: `fetchPage` for URL `i`, or the placeholder when it throws. */
  method StorePage(urls: seq<Link>, i: nat, config: Config, web: Web) returns (page: Page)
    requires i < |urls|
    ensures page == Stored(urls, i, config, web)
  {
    var url := urls[i].url;
    var fetched := FetchPage(url, web.fetch(url), config, web.resolve, web.serialize);
    page := if fetched.Success? then fetched.value else FailedPage(url);
  }

  /** `styles.forEach((s) => stylesSet.add(s))`. */
  method AddEach(stylesSet: seq<string>, styles: seq<string>) returns (r: seq<string>)
    ensures r == AddStyles(stylesSet, styles)
  {
    r := stylesSet;
    for j := 0 to |styles|
      invariant r == AddStyles(stylesSet, styles[..j])
    {
      assert styles[..j + 1][..j] == styles[..j];
      if styles[j] !in r {
        r := r + [styles[j]];
      }
    }
    assert styles[..|styles|] == styles;
  }
}
