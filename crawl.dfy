/**
 * `fetchPage` of the content script and the pieces of `crawlAll` that do not
 * depend on scheduling: the page a fetch yields, the placeholder that replaces
 * a failed page, and the insertion-ordered set of stylesheet URLs.
 */
module Crawl {
  import opened Common
  import opened Dom
  import opened Urls
  import opened Parser

  /** A fetched and parsed document: its root element and `document.title`. */
  datatype ParsedPage = ParsedPage(root: Node, title: string)

  /**
   * What `fetch(url)` and `DOMParser` deliver for one URL: the request fails,
   * or a response arrives with its `ok` flag, its status and its parsed body.
   */
  datatype HttpOutcome = NetworkError | Response(ok: bool, status: int, doc: ParsedPage)

  /** Why `fetchPage` throws. */
  datatype FetchError = RequestFailed | HttpStatus(status: int) | NoContent

  datatype Result<T> = Success(value: T) | Failure(error: FetchError)

  /** One fetched chapter: `{title, url, html, styles}`. */
  datatype Page = Page(title: string, url: string, html: string, styles: seq<string>)

  /** `outerHTML`: serialising a node belongs to the browser and is a parameter. */
  type Serializer = Node -> string

  /** `doc.querySelector("h1")?.textContent?.trim()`, with a missing `h1` read as the empty string. */
  function H1Text(doc: ParsedPage): (t: string)
    ensures QueryFirst(doc.root, Type("h1")).Some? ==>
      t == Trim(TextContent(QueryFirst(doc.root, Type("h1")).value))
    ensures QueryFirst(doc.root, Type("h1")).None? ==> t == ""
  {
    match QueryFirst(doc.root, Type("h1"))
    case Some(h) => Trim(TextContent(h))
    case None => ""
  }

  /**
   * `doc.querySelector("h1")?.textContent?.trim() || doc.title || url`: the
   * first heading's text when it has any, else the document title when it is
   * not empty, else the URL.
   */
  function PageTitle(doc: ParsedPage, url: string): (t: string)
    ensures H1Text(doc) != "" ==> t == H1Text(doc)
    ensures H1Text(doc) == "" && doc.title != "" ==> t == doc.title
    ensures H1Text(doc) == "" && doc.title == "" ==> t == url
    ensures url != "" ==> t != ""
  {
    match QueryFirst(doc.root, Type("h1"))
    case Some(h) =>
      if Trim(TextContent(h)) != "" then Trim(TextContent(h))
      else if doc.title != "" then doc.title else url
    case None => if doc.title != "" then doc.title else url
  }

  /** What `fetchPage(url, config)` resolves to, or the error it throws. */
  function Fetched(url: string, outcome: HttpOutcome, config: Config, resolve: Resolver, serialize: Serializer)
    : Result<Page>
  {
    match outcome
    case NetworkError => Failure(RequestFailed)
    case Response(ok, status, doc) =>
      if !ok then Failure(HttpStatus(status))
      else match Sanitized(doc.root, url, config, resolve)
        case None => Failure(NoContent)
        case Some(content) =>
          Success(Page(PageTitle(doc, url), url, serialize(content),
                       StylesheetUrls(Preorder(doc.root), url, resolve)))
  }

  /**
   * `fetchPage(url, config)`: a failed request, a response that is not `ok`
   * and a page without main content each throw; otherwise the sanitised
   * content's HTML, the title, and the stylesheets of the whole document.
   */
  method FetchPage(url: string, outcome: HttpOutcome, config: Config, resolve: Resolver, serialize: Serializer)
    returns (r: Result<Page>)
    ensures r == Fetched(url, outcome, config, resolve, serialize)
  {
    if outcome.NetworkError? {
      return Failure(RequestFailed);
    }
    if !outcome.ok {
      return Failure(HttpStatus(outcome.status));
    }
    var doc := outcome.doc;
    var title := PageTitle(doc, url);
    var contentNode := SanitizeContent(doc.root, url, config, resolve);
    if contentNode == null {
      return Failure(NoContent);
    }
    var styles := CollectStyles(doc.root, url, resolve);
    r := Success(Page(title, url, serialize(contentNode.root), styles));
  }

  /**
   * A fetch succeeds exactly when the response is `ok` and some content
   * selector matches; the page then keeps the requested URL, carries the
   * serialised sanitised content, and lists exactly the document's stylesheet
   * links that resolve.
   */
  lemma FetchedSpec(url: string, outcome: HttpOutcome, config: Config, resolve: Resolver, serialize: Serializer)
    ensures var r := Fetched(url, outcome, config, resolve, serialize);
      r.Success? <==> outcome.Response? && outcome.ok && Sanitized(outcome.doc.root, url, config, resolve).Some?
    ensures var r := Fetched(url, outcome, config, resolve, serialize);
      r.Success? ==>
        r.value.url == url &&
        r.value.html == serialize(Sanitized(outcome.doc.root, url, config, resolve).value) &&
        r.value.title == PageTitle(outcome.doc, url) &&
        r.value.styles == StylesheetUrls(Preorder(outcome.doc.root), url, resolve) &&
        forall u :: u in r.value.styles <==>
          exists k :: 0 <= k < |Preorder(outcome.doc.root)| && StylesheetUrl(Preorder(outcome.doc.root)[k], url, resolve) == Some(u)
    ensures outcome.Response? && !outcome.ok ==>
      Fetched(url, outcome, config, resolve, serialize) == Failure(HttpStatus(outcome.status))
  {
    if outcome.Response? && outcome.ok {
      forall u {
        StylesheetUrlsMembers(Preorder(outcome.doc.root), url, resolve, u);
      }
    }
  }

  // ---------------------------------------------------------------------------
  // The placeholder of a failed page

  const ErrorPrefix := "<div class=\"docuprint-error\">[Error: 此页面抓取失败 - "

  /** `[Error: 此页面抓取失败 - ${url}]` in a `docuprint-error` block. */
  function ErrorHtml(url: string): string {
    ErrorPrefix + url + "]</div>"
  }

  /** The placeholder `crawlAll` stores when `fetchPage` throws. */
  function FailedPage(url: string): Page {
    Page("抓取失败", url, ErrorHtml(url), [])
  }

  /** What `crawlAll` stores for one URL: the fetched page, or the placeholder. */
  function PageResult(url: string, outcome: HttpOutcome, config: Config, resolve: Resolver, serialize: Serializer)
    : (p: Page)
  {
    match Fetched(url, outcome, config, resolve, serialize)
    case Success(page) => page
    case Failure(_) => FailedPage(url)
  }

  /**
   * Every stored page, fetched or not, keeps its URL; a placeholder has no
   * stylesheets and names the URL in its error message.
   */
  lemma PageResultSpec(url: string, outcome: HttpOutcome, config: Config, resolve: Resolver, serialize: Serializer)
    ensures var p := PageResult(url, outcome, config, resolve, serialize);
      p.url == url &&
      (Fetched(url, outcome, config, resolve, serialize).Failure? ==>
        p.title == "抓取失败" && p.styles == [] &&
        |ErrorPrefix| + |url| <= |p.html| && p.html[|ErrorPrefix|..|ErrorPrefix| + |url|] == url)
  {
    var p := PageResult(url, outcome, config, resolve, serialize);
    if Fetched(url, outcome, config, resolve, serialize).Failure? {
      assert p.html == ErrorPrefix + url + "]</div>";
      assert p.html[|ErrorPrefix|..|ErrorPrefix| + |url|] == url;
    }
  }

  // ---------------------------------------------------------------------------
  // `stylesSet`: a Set of URLs, which remembers insertion order

  predicate NoDuplicates(xs: seq<string>) {
    forall i, j :: 0 <= i < j < |xs| ==> xs[i] != xs[j]
  }

  /** `styles.forEach((s) => stylesSet.add(s))`: each URL not yet present is appended. */
  function AddStyles(acc: seq<string>, styles: seq<string>): seq<string>
    decreases |styles|
  {
    if styles == [] then acc
    else
      var before := AddStyles(acc, styles[..|styles| - 1]);
      if styles[|styles| - 1] in before then before else before + [styles[|styles| - 1]]
  }

  /**
   * Adding keeps the set duplicate-free, keeps what was there in front, and
   * ends with exactly the old members and the added URLs.
   */
  lemma {:induction false} AddStylesSpec(acc: seq<string>, styles: seq<string>)
    requires NoDuplicates(acc)
    ensures var r := AddStyles(acc, styles);
      NoDuplicates(r) && |acc| <= |r| && r[..|acc|] == acc &&
      forall u :: u in r <==> u in acc || u in styles
    decreases |styles|
  {
    if styles != [] {
      var init := styles[..|styles| - 1];
      AddStylesSpec(acc, init);
      var before := AddStyles(acc, init);
      var last := styles[|styles| - 1];
      assert styles == init + [last];
      if last !in before {
        var r := before + [last];
        assert r[..|acc|] == before[..|acc|];
        forall i, j | 0 <= i < j < |r| ensures r[i] != r[j] {
          if j == |before| {
            assert r[i] == before[i];
          }
        }
      }
    }
  }

  /** The stylesheet set after the pages `pages` have been stored, in order. */
  function StylesAfter(pages: seq<Page>): seq<string>
    decreases |pages|
  {
    if pages == [] then [] else AddStyles(StylesAfter(pages[..|pages| - 1]), pages[|pages| - 1].styles)
  }

  /** The final style list has no duplicates and holds exactly the stylesheets of the stored pages. */
  lemma {:induction false} StylesAfterSpec(pages: seq<Page>)
    ensures NoDuplicates(StylesAfter(pages))
    ensures forall u :: u in StylesAfter(pages) <==> exists i :: 0 <= i < |pages| && u in pages[i].styles
    decreases |pages|
  {
    if pages != [] {
      var init := pages[..|pages| - 1];
      StylesAfterSpec(init);
      AddStylesSpec(StylesAfter(init), pages[|pages| - 1].styles);
      forall u | u in StylesAfter(pages)
        ensures exists i :: 0 <= i < |pages| && u in pages[i].styles
      {
        if u in StylesAfter(init) {
          var i :| 0 <= i < |init| && u in init[i].styles;
          assert pages[i] == init[i];
        }
      }
      forall u, i | 0 <= i < |pages| && u in pages[i].styles
        ensures u in StylesAfter(pages)
      {
        if i < |pages| - 1 {
          assert init[i] == pages[i];
        }
      }
    }
  }
}
