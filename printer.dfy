/**
 * The document assembler: the nested table of contents, the stylesheet links,
 * the chapter sections and the order in which the print page puts them together.
 */
module Printer {
  import opened Common

  /** One chapter as the assembler receives it. */
  datatype PreparedPage = PreparedPage(
    title: string, url: string, html: string, styles: seq<string>, anchorId: string, level: int)

  /** `Math.max(1, page.level || 1)`: the TOC level of a page, never below 1. */
  function TocLevel(p: PreparedPage): (l: nat)
    ensures l >= 1
    ensures p.level >= 1 ==> l == p.level
    ensures p.level < 1 ==> l == 1
  {
    if p.level >= 1 then p.level else 1
  }

  /** `page.title || page.url`: the text of a TOC entry and of a chapter heading. */
  function Label(p: PreparedPage): string {
    if p.title != "" then p.title else p.url
  }

  // ---------------------------------------------------------------------------
  // The table of contents as a stream of list tokens

  /** What the TOC builder appends: a list opening at a level, a list closing, an entry. */
  datatype TocToken = Open(level: nat) | Close | Item(anchor: string, text: string)

  /** The root list's opening tag. */
  const RootOpening := "<ul class=\"toc-list level-1\">"

  /** `` `<ul class="level-${currentLevel}">` ``: the opening of a nested list. */
  function LevelOpening(k: nat): string {
    "<ul class=\"level-" + NatToString(k) + "\">"
  }

  /** `` `<li><a href="#${page.anchorId}">${page.title || page.url}</a></li>` ``. */
  function ItemHtml(anchor: string, text: string): string {
    "<li><a href=\"#" + anchor + "\">" + text + "</a></li>"
  }

  function RenderToken(t: TocToken): string {
    match t
    case Open(k) => if k == 1 then RootOpening else LevelOpening(k)
    case Close => "</ul>"
    case Item(a, l) => ItemHtml(a, l)
  }

  function Render(ts: seq<TocToken>): string {
    if ts == [] then "" else RenderToken(ts[0]) + Render(ts[1..])
  }

  lemma {:induction false} RenderAppend(a: seq<TocToken>, b: seq<TocToken>)
    ensures Render(a + b) == Render(a) + Render(b)
  {
    if a == [] {
      assert a + b == b;
    } else {
      assert (a + b)[0] == a[0] && (a + b)[1..] == a[1..] + b;
      RenderAppend(a[1..], b);
    }
  }

  /** `openToLevel(target)` from level `cur`: one opening per level passed. */
  function Opens(cur: nat, target: nat): seq<TocToken>
    decreases target - cur
  {
    if cur >= target then [] else [Open(cur + 1)] + Opens(cur + 1, target)
  }

  /** `closeToLevel(target)` from level `cur`: one closing per level left. */
  function Closes(cur: nat, target: nat): seq<TocToken>
    decreases cur
  {
    if cur <= target then [] else [Close] + Closes(cur - 1, target)
  }

  /** The list openings or closings that take the current level from `cur` to `l`. */
  function Moves(cur: nat, l: nat): seq<TocToken> {
    if l > cur then Opens(cur, l) else if l < cur then Closes(cur, l) else []
  }

  /** The tokens one page adds when the current level is `cur`. */
  function Entry(cur: nat, p: PreparedPage): seq<TocToken> {
    Moves(cur, TocLevel(p)) + [Item(p.anchorId, Label(p))]
  }

  /** The tokens after the root opening, starting at level `cur`, up to but excluding the root closing. */
  function TocBody(pages: seq<PreparedPage>, cur: nat): seq<TocToken> {
    if pages == [] then Closes(cur, 1)
    else Entry(cur, pages[0]) + TocBody(pages[1..], TocLevel(pages[0]))
  }

  /** The whole token stream of `buildNestedToc(pages)`. */
  function TocTokens(pages: seq<PreparedPage>): seq<TocToken> {
    [Open(1)] + TocBody(pages, 1) + [Close]
  }

  lemma RenderOne(t: TocToken)
    ensures Render([t]) == RenderToken(t)
  {
    assert [t][1..] == [];
  }

  /** One more opening, taken off the front of what `openToLevel` still has to append. */
  lemma OpensStep(html: string, level: nat, target: nat)
    requires 1 <= level < target
    ensures html + Render(Opens(level, target)) == (html + LevelOpening(level + 1)) + Render(Opens(level + 1, target))
  {
    assert Opens(level, target) == [Open(level + 1)] + Opens(level + 1, target);
    RenderAppend([Open(level + 1)], Opens(level + 1, target));
    RenderOne(Open(level + 1));
  }

  /** One more closing, taken off the front of what `closeToLevel` still has to append. */
  lemma ClosesStep(html: string, level: nat, target: nat)
    requires target < level
    ensures html + Render(Closes(level, target)) == (html + "</ul>") + Render(Closes(level - 1, target))
  {
    assert Closes(level, target) == [Close] + Closes(level - 1, target);
    RenderAppend([Close], Closes(level - 1, target));
    RenderOne(Close);
  }

  /**
   * `openToLevel(target)`: the closure's captured `html` and `currentLevel`
   * are passed in and returned.
   */
  method OpenToLevel(html0: string, level0: nat, target: nat) returns (html: string, level: nat)
    requires level0 >= 1
    ensures html == html0 + Render(Opens(level0, target))
    ensures level == if level0 < target then target else level0
  {
    html, level := html0, level0;
    while level < target
      invariant level0 <= level && (level0 < target ==> level <= target)
      invariant level0 >= target ==> level == level0
      invariant html + Render(Opens(level, target)) == html0 + Render(Opens(level0, target))
      decreases target - level
    {
      OpensStep(html, level, target);
      level := level + 1;
      html := html + LevelOpening(level);
    }
  }

  /** `closeToLevel(target)`, with the captured state passed in and returned. */
  method CloseToLevel(html0: string, level0: nat, target: nat) returns (html: string, level: nat)
    ensures html == html0 + Render(Closes(level0, target))
    ensures level == if level0 > target then target else level0
  {
    html, level := html0, level0;
    while level > target
      invariant level <= level0 && (level0 > target ==> level >= target)
      invariant level0 <= target ==> level == level0
      invariant html + Render(Closes(level, target)) == html0 + Render(Closes(level0, target))
    {
      ClosesStep(html, level, target);
      html := html + "</ul>";
      level := level - 1;
    }
  }

  /** The rendering of the remaining pages splits into the next page's moves, its entry and the rest. */
  lemma TocBodyStep(pages: seq<PreparedPage>, i: nat, cur: nat)
    requires i < |pages|
    ensures var p := pages[i];
      Render(TocBody(pages[i..], cur)) ==
      Render(Moves(cur, TocLevel(p))) + ItemHtml(p.anchorId, Label(p)) + Render(TocBody(pages[i + 1..], TocLevel(p)))
  {
    var p := pages[i];
    var moves := Moves(cur, TocLevel(p));
    var item := [Item(p.anchorId, Label(p))];
    assert pages[i..][1..] == pages[i + 1..];
    var rest := TocBody(pages[i + 1..], TocLevel(p));
    assert TocBody(pages[i..], cur) == moves + item + rest;
    RenderAppend(moves + item, rest);
    RenderAppend(moves, item);
    RenderOne(item[0]);
  }

  lemma Regroup(a: string, m: string, e: string, r: string)
    ensures a + (m + e + r) == ((a + m) + e) + r
  {
  }

  /**
   * The TOC built so far plus the rest of it: appending page `i`'s moves and
   * entry to `before` leaves the pages after it to render, from its level.
   */
  lemma TocBodyStepFrom(before: string, pages: seq<PreparedPage>, i: nat, cur: nat)
    requires i < |pages|
    ensures var p := pages[i];
      before + Render(TocBody(pages[i..], cur)) ==
      ((before + Render(Moves(cur, TocLevel(p)))) + ItemHtml(p.anchorId, Label(p))) +
      Render(TocBody(pages[i + 1..], TocLevel(p)))
  {
    var p := pages[i];
    TocBodyStep(pages, i, cur);
    Regroup(before, Render(Moves(cur, TocLevel(p))), ItemHtml(p.anchorId, Label(p)),
            Render(TocBody(pages[i + 1..], TocLevel(p))));
  }

  /** The moves and the entry the loop appends for one page, at level `cur`. */
  method AppendEntry(html0: string, cur: nat, page: PreparedPage) returns (html: string, level: nat)
    requires cur >= 1
    ensures html == (html0 + Render(Moves(cur, TocLevel(page)))) + ItemHtml(page.anchorId, Label(page))
    ensures level == TocLevel(page)
  {
    var target := TocLevel(page);
    html, level := html0, cur;
    if target > cur {
      html, level := OpenToLevel(html, cur, target);
    } else if target < cur {
      html, level := CloseToLevel(html, cur, target);
    }
    html := html + ItemHtml(page.anchorId, Label(page));
  }

  lemma TocTokensRender(pages: seq<PreparedPage>)
    ensures Render(TocTokens(pages)) == RootOpening + Render(TocBody(pages, 1)) + "</ul>"
  {
    RenderAppend([Open(1)], TocBody(pages, 1) + [Close]);
    RenderAppend(TocBody(pages, 1), [Close]);
    RenderOne(Open(1));
    RenderOne(Close);
    assert [Open(1)] + TocBody(pages, 1) + [Close] == [Open(1)] + (TocBody(pages, 1) + [Close]);
  }

  /** `buildNestedToc(pages)`: the nested `<ul>` list, built by appending to a string. */
  method BuildNestedToc(pages: seq<PreparedPage>) returns (html: string)
    ensures html == Render(TocTokens(pages))
  {
    var currentLevel: nat := 1;
    html := RootOpening;
    ghost var whole := html + Render(TocBody(pages, 1));
    var i := 0;
    while i < |pages|
      invariant 0 <= i <= |pages| && currentLevel >= 1
      invariant html + Render(TocBody(pages[i..], currentLevel)) == whole
    {
      TocBodyStepFrom(html, pages, i, currentLevel);
      html, currentLevel := AppendEntry(html, currentLevel, pages[i]);
      i := i + 1;
    }
    assert pages[i..] == [];
    html, currentLevel := CloseToLevel(html, currentLevel, 1);
    html := html + "</ul>";
    TocTokensRender(pages);
  }

  // ---------------------------------------------------------------------------
  // Reading the token stream back as a nested outline

  /** A TOC entry together with the number of lists that enclose it. */
  datatype TocEntry = TocEntry(anchor: string, text: string, depth: nat)

  datatype Walked = Walked(entries: seq<TocEntry>, depth: nat)

  /**
   * Reads tokens starting inside `d` open lists. A list may only open one level
   * deeper than the current one (`Open(d + 1)`), the outermost list is never
   * closed, and entries sit inside at least one list; `None` when a token breaks
   * these rules.
   */
  function Walk(ts: seq<TocToken>, d: nat): Option<Walked>
    decreases |ts|
  {
    if ts == [] then Some(Walked([], d))
    else match ts[0]
      case Open(k) => if k == d + 1 then Walk(ts[1..], k) else None
      case Close => if d >= 2 then Walk(ts[1..], d - 1) else None
      case Item(a, t) =>
        if d == 0 then None
        else match Walk(ts[1..], d)
          case None => None
          case Some(w) => Some(Walked([TocEntry(a, t, d)] + w.entries, w.depth))
  }

  /**
   * The outline of a whole list: one outermost `level-1` list, closed by the
   * last token and by nothing before it, with every inner list closed.
   */
  function Outline(ts: seq<TocToken>): Option<seq<TocEntry>> {
    if |ts| < 2 || ts[0] != Open(1) || ts[|ts| - 1] != Close then None
    else match Walk(ts[1..|ts| - 1], 1)
      case None => None
      case Some(w) => if w.depth == 1 then Some(w.entries) else None
  }

  /** The entry each page should get: its anchor, its label, at its TOC level. */
  function Expected(pages: seq<PreparedPage>): (r: seq<TocEntry>)
    ensures |r| == |pages|
  {
    if pages == [] then []
    else [TocEntry(pages[0].anchorId, Label(pages[0]), TocLevel(pages[0]))] + Expected(pages[1..])
  }

  /** Walking a concatenation is walking the first part, then the second from where the first ended. */
  lemma {:induction false} WalkAppend(a: seq<TocToken>, b: seq<TocToken>, d: nat)
    requires Walk(a, d).Some?
    ensures Walk(a + b, d) ==
      match Walk(b, Walk(a, d).value.depth)
      case None => None
      case Some(w) => Some(Walked(Walk(a, d).value.entries + w.entries, w.depth))
    decreases |a|
  {
    if a == [] {
      assert a + b == b;
      match Walk(b, d)
      case None =>
      case Some(w) => assert [] + w.entries == w.entries;
    } else {
      assert (a + b)[0] == a[0] && (a + b)[1..] == a[1..] + b;
      match a[0]
      case Open(k) => WalkAppend(a[1..], b, k);
      case Close => WalkAppend(a[1..], b, d - 1);
      case Item(x, t) =>
        WalkAppend(a[1..], b, d);
        match Walk(b, Walk(a, d).value.depth)
        case None =>
        case Some(w) =>
          var wa := Walk(a[1..], d).value;
          assert [TocEntry(x, t, d)] + wa.entries + w.entries == [TocEntry(x, t, d)] + (wa.entries + w.entries);
    }
  }

  lemma {:induction false} WalkOpens(cur: nat, target: nat)
    requires cur < target
    ensures Walk(Opens(cur, target), cur) == Some(Walked([], target))
    decreases target - cur
  {
    var ts := Opens(cur, target);
    assert ts[0] == Open(cur + 1) && ts[1..] == Opens(cur + 1, target);
    if cur + 1 < target {
      WalkOpens(cur + 1, target);
    }
  }

  lemma {:induction false} WalkCloses(cur: nat, target: nat)
    requires 1 <= target < cur
    ensures Walk(Closes(cur, target), cur) == Some(Walked([], target))
    decreases cur
  {
    var ts := Closes(cur, target);
    assert ts[0] == Close && ts[1..] == Closes(cur - 1, target);
    if target < cur - 1 {
      WalkCloses(cur - 1, target);
    }
  }

  lemma WalkMoves(cur: nat, l: nat)
    requires l >= 1
    ensures Walk(Moves(cur, l), cur) == Some(Walked([], l))
  {
    if l > cur {
      WalkOpens(cur, l);
    } else if l < cur {
      WalkCloses(cur, l);
    }
  }

  /** From any open level, the body lists every remaining page at its level and ends back at level 1. */
  lemma {:induction false} WalkBody(pages: seq<PreparedPage>, cur: nat)
    requires cur >= 1
    ensures Walk(TocBody(pages, cur), cur) == Some(Walked(Expected(pages), 1))
    decreases |pages|
  {
    if pages == [] {
      if cur > 1 {
        WalkCloses(cur, 1);
      }
    } else {
      var p := pages[0];
      var l := TocLevel(p);
      var item := [Item(p.anchorId, Label(p))];
      var rest := TocBody(pages[1..], l);
      WalkMoves(cur, l);
      var e := TocEntry(p.anchorId, Label(p), l);
      assert item[1..] == [];
      assert [e] + [] == [e];
      assert Walk(item, l) == Some(Walked([e], l));
      WalkAppend(Moves(cur, l), item, cur);
      assert Walk(Entry(cur, p), cur) == Some(Walked([] + [e], l));
      assert [] + [e] == [e];
      WalkBody(pages[1..], l);
      WalkAppend(Entry(cur, p), rest, cur);
      assert Expected(pages) == [e] + Expected(pages[1..]);
    }
  }

  /**
   * `buildNestedToc` produces one well-nested list: every inner `<ul>` opens
   * exactly one level below the list around it, every list is closed, and the
   * entries are the pages in their order, each nested exactly at its TOC level.
   */
  /** With no pages, `buildNestedToc` gives the empty top-level list. */
  lemma EmptyToc(pages: seq<PreparedPage>)
    requires pages == []
    ensures Render(TocTokens(pages)) == RootOpening + "</ul>"
  {
    assert TocTokens(pages) == [Open(1), Close];
    RenderOne(Close);
  }

  lemma TocOutline(pages: seq<PreparedPage>)
    ensures Outline(TocTokens(pages)) == Some(Expected(pages))
  {
    var ts := TocTokens(pages);
    assert ts[1..|ts| - 1] == TocBody(pages, 1);
    WalkBody(pages, 1);
  }

  // ---------------------------------------------------------------------------
  // The table-of-contents section, stylesheet links and chapters

  /** The `toc-container` section around the nested list. */
  function TocSection(nested: string): string {
    TocStart + nested + "\n</section>"
  }

  const TocStart := "<section class=\"toc-container\">\n  <h1>目录</h1>\n  "

  /** `buildToc(pages)`. */
  method BuildToc(pages: seq<PreparedPage>) returns (html: string)
    ensures html == TocSection(Render(TocTokens(pages)))
  {
    var nested := BuildNestedToc(pages);
    html := TocSection(nested);
  }

  function LinkTag(href: string): string {
    LinkStart + href + "\">"
  }

  const LinkStart := "<link rel=\"stylesheet\" href=\""

  /** `links.map((href) => ...)`. */
  function LinkTags(hrefs: seq<string>): seq<string> {
    seq(|hrefs|, k requires 0 <= k < |hrefs| => LinkTag(hrefs[k]))
  }

  /** `buildStylesheetLinks(links)`: one `<link>` per URL, newline-separated; a missing list is empty. */
  function BuildStylesheetLinks(links: Option<seq<string>>): string {
    Join(LinkTags(if links.Some? then links.value else []), "\n")
  }

  /** The stylesheet block is empty exactly when there is no stylesheet URL. */
  lemma StylesheetLinksEmpty(links: Option<seq<string>>)
    ensures BuildStylesheetLinks(links) == "" <==> links.None? || links.value == []
  {
    var tags := LinkTags(if links.Some? then links.value else []);
    JoinEmpty(tags, "\n");
    if |tags| == 1 {
      assert |tags[0]| > 0;
    }
  }

  /**
   * The link of URL `i` sits at its `JoinOffset` in the block, followed by a
   * newline and then the link of URL `i + 1`.
   */
  lemma StylesheetLinksSpec(hrefs: seq<string>, i: nat)
    requires i < |hrefs|
    ensures var s, tags := BuildStylesheetLinks(Some(hrefs)), LinkTags(hrefs);
      var at, n := JoinOffset(tags, "\n", i), |tags[i]|;
      at + n <= |s| && s[at..at + n] == tags[i] &&
      (i + 1 < |hrefs| ==> at + n + 1 <= |s| && s[at + n..at + n + 1] == "\n" && JoinOffset(tags, "\n", i + 1) == at + n + 1)
  {
    var tags := LinkTags(hrefs);
    LinkTagPlaced(BuildStylesheetLinks(Some(hrefs)), tags, i);
  }

  /** Element `i` of a newline-joined list, then a newline, then element `i + 1`. */
  lemma LinkTagPlaced(s: string, tags: seq<string>, i: nat)
    requires s == Join(tags, "\n") && i < |tags|
    ensures var at, n := JoinOffset(tags, "\n", i), |tags[i]|;
      at + n <= |s| && s[at..at + n] == tags[i] &&
      (i + 1 < |tags| ==> at + n + 1 <= |s| && s[at + n..at + n + 1] == "\n" && JoinOffset(tags, "\n", i + 1) == at + n + 1)
  {
    JoinEmbeds(tags, "\n", i);
    if i + 1 < |tags| {
      JoinSeparates(tags, "\n", i);
      JoinOffsetNext(tags, "\n", i);
    }
  }

  /** A chapter section up to the page's HTML: the anchor as id, and the label as heading. */
  function ChapterHead(p: PreparedPage): string {
    "<section id=\"" + p.anchorId + ChapterClass + Label(p) + "</h1>\n  "
  }

  const ChapterClass := "\" class=\"chapter-wrapper\">\n  <h1>"

  const ChapterEnd := "\n</section>"

  /** One chapter: the section head, the page's HTML, and the closing tag. */
  function ChapterSection(p: PreparedPage): string {
    ChapterHead(p) + p.html + ChapterEnd
  }

  /** Where the page's HTML starts inside its chapter section. */
  function ChapterHtmlOffset(p: PreparedPage): nat {
    |ChapterHead(p)|
  }

  /** `pages.map((page) => ...)`. */
  function ChapterSections(pages: seq<PreparedPage>): seq<string> {
    seq(|pages|, k requires 0 <= k < |pages| => ChapterSection(pages[k]))
  }

  /** `buildChapters(pages)`: the chapter sections, newline-separated. */
  function BuildChapters(pages: seq<PreparedPage>): string {
    Join(ChapterSections(pages), "\n")
  }

  /** Where chapter `i` starts in `buildChapters(pages)`. */
  function ChapterStart(pages: seq<PreparedPage>, i: nat): nat
    requires i < |pages|
  {
    JoinOffset(ChapterSections(pages), "\n", i)
  }

  lemma SliceOfSlice(s: string, a: nat, n: nat, k: nat, m: nat)
    requires a + n <= |s| && k + m <= n
    ensures s[a..a + n][k..k + m] == s[a + k..a + k + m]
  {
    var t := s[a..a + n];
    var u := t[k..k + m];
    forall j | 0 <= j < m
      ensures u[j] == s[a + k + j]
    {
      assert u[j] == t[k + j];
    }
  }

  /**
   * Each page's HTML is copied verbatim into its chapter, under the page's
   * anchor, and the chapters follow each other in page order.
   */
  lemma ChaptersSpec(pages: seq<PreparedPage>, i: nat)
    requires i < |pages|
    ensures var at := ChapterStart(pages, i) + ChapterHtmlOffset(pages[i]);
      at + |pages[i].html| <= |BuildChapters(pages)| &&
      BuildChapters(pages)[at..at + |pages[i].html|] == pages[i].html
    ensures var at := ChapterStart(pages, i);
      at + |ChapterSection(pages[i])| <= |BuildChapters(pages)| &&
      BuildChapters(pages)[at..at + |ChapterSection(pages[i])|] == ChapterSection(pages[i])
    ensures i + 1 < |pages| ==>
      ChapterStart(pages, i + 1) == ChapterStart(pages, i) + |ChapterSection(pages[i])| + 1
  {
    var sec := ChapterSection(pages[i]);
    var at := ChapterStart(pages, i);
    ChapterEmbedded(pages, i);
    Middle(ChapterHead(pages[i]), pages[i].html, ChapterEnd);
    SliceOfSlice(BuildChapters(pages), at, |sec|, ChapterHtmlOffset(pages[i]), |pages[i].html|);
    if i + 1 < |pages| {
      ChapterNext(pages, i);
    }
  }

  lemma ChapterEmbedded(pages: seq<PreparedPage>, i: nat)
    requires i < |pages|
    ensures var at := ChapterStart(pages, i);
      at + |ChapterSection(pages[i])| <= |BuildChapters(pages)| &&
      BuildChapters(pages)[at..at + |ChapterSection(pages[i])|] == ChapterSection(pages[i])
  {
    var secs := ChapterSections(pages);
    assert secs[i] == ChapterSection(pages[i]);
    JoinEmbeds(secs, "\n", i);
  }

  lemma ChapterNext(pages: seq<PreparedPage>, i: nat)
    requires i + 1 < |pages|
    ensures ChapterStart(pages, i + 1) == ChapterStart(pages, i) + |ChapterSection(pages[i])| + 1
  {
    var secs := ChapterSections(pages);
    assert secs[i] == ChapterSection(pages[i]);
    JoinOffsetNext(secs, "\n", i);
  }

  /** Chapters appear in page order: chapter `i` ends before chapter `j > i` starts. */
  lemma {:induction false} ChaptersInOrder(pages: seq<PreparedPage>, i: nat, j: nat)
    requires i < j < |pages|
    ensures ChapterStart(pages, i) + |ChapterSection(pages[i])| < ChapterStart(pages, j)
    decreases j - i
  {
    ChapterNext(pages, i);
    if i + 1 < j {
      ChaptersInOrder(pages, i + 1, j);
    }
  }

  // ---------------------------------------------------------------------------
  // The print page

  /** The screen and print style sheet; its rules are fixed text and not modelled. */
  const StyleBlock := "<style></style>"

  /** The script that waits for the images and then prints; fixed text, not modelled. */
  const ScriptBlock := "<script></script>"

  /** `${siteTitle || "Document"} - DocuPrint`. */
  function DocumentTitle(siteTitle: string): string {
    (if siteTitle != "" then siteTitle else "Document") + " - DocuPrint"
  }

  /** The cover heading: `siteTitle || "文档合集"`. */
  function CoverTitle(siteTitle: string): string {
    if siteTitle != "" then siteTitle else "文档合集"
  }

  /** Everything before the stylesheet links. */
  function HeadStart(siteTitle: string): string {
    DocumentHead + "  <title>" + DocumentTitle(siteTitle) + "</title>\n  "
  }

  /** The doctype, the opening tags and the two `meta` lines. */
  const DocumentHead := "<!DOCTYPE html>\n<html lang=\"zh-CN\">\n<head>\n  <meta charset=\"UTF-8\">\n" +
    "  <meta name=\"viewport\" content=\"width=device-width, initial-scale=1.0\">\n"

  /** From the end of the stylesheet links to the start of the TOC. */
  function HeadEndAndCover(siteTitle: string, today: string): string {
    CoverStart + CoverTitle(siteTitle) + "</h1>\n    <p>生成日期：" + today + "</p>\n  </section>\n  "
  }

  /** The style sheet, the end of the head, and the cover up to its heading. */
  const CoverStart := "\n  " + StyleBlock + "\n</head>\n<body>\n  <section class=\"cover\">\n    <h1>"

  /** The whole page `buildPrintPage` writes, given its three generated parts and the date. */
  function PrintHtml(siteTitle: string, today: string, styleLinks: string, toc: string, chapters: string): string {
    HeadStart(siteTitle) + styleLinks + HeadEndAndCover(siteTitle, today) + toc + "\n  " + chapters + PageEnd
  }

  /** After the chapters: the print script and the closing tags. */
  const PageEnd := "\n  " + ScriptBlock + "\n</body>\n</html>"

  /**
   * The page holds the stylesheet links, then the TOC, then the chapters, each
   * verbatim and none overlapping the next.
   */
  lemma PrintHtmlOrder(siteTitle: string, today: string, styleLinks: string, toc: string, chapters: string)
    ensures var page := PrintHtml(siteTitle, today, styleLinks, toc, chapters);
      var s := |HeadStart(siteTitle)|;
      var t := s + |styleLinks| + |HeadEndAndCover(siteTitle, today)|;
      var c := t + |toc| + 3;
      s + |styleLinks| < t && t + |toc| < c && c + |chapters| <= |page| &&
      page[s..s + |styleLinks|] == styleLinks && page[t..t + |toc|] == toc && page[c..c + |chapters|] == chapters
  {
    var page := PrintHtml(siteTitle, today, styleLinks, toc, chapters);
    var a, b, m := HeadStart(siteTitle), HeadEndAndCover(siteTitle, today), "\n  ";
    assert |b| > 0 && |m| == 3;
    assert page == a + styleLinks + b + toc + m + chapters + PageEnd;
    Layout(a, styleLinks, b, toc, m, chapters, PageEnd);
  }

  /** In `a + x + b + y + m + z + e`, the parts `x`, `y` and `z` sit at their offsets. */
  lemma Layout(a: string, x: string, b: string, y: string, m: string, z: string, e: string)
    ensures var page := a + x + b + y + m + z + e;
      var t := |a| + |x| + |b|;
      var c := t + |y| + |m|;
      c + |z| <= |page| &&
      page[|a|..|a| + |x|] == x && page[t..t + |y|] == y && page[c..c + |z|] == z
  {
    Middle(a, x, b + y + m + z + e);
    assert a + x + b + y + m + z + e == a + x + (b + y + m + z + e);
    Middle(a + x + b, y, m + z + e);
    assert a + x + b + y + m + z + e == (a + x + b) + y + (m + z + e);
    Middle(a + x + b + y + m, z, e);
  }

  /** The middle part of a three-part concatenation sits right after the first part. */
  lemma Middle(x: string, y: string, z: string)
    ensures (x + y + z)[|x|..|x| + |y|] == y
  {
    assert (x + y + z)[|x|..|x| + |y|] == (x + y)[|x|..];
  }

  /**
   * `buildPrintPage({pages, styles, siteTitle})`: the page is written to a new
   * window when one opens (`popupOpened`); a blocked pop-up gets an alert and
   * nothing is written. The date is the caller's `today`.
   */
  method BuildPrintPage(pages: seq<PreparedPage>, styles: Option<seq<string>>, siteTitle: string,
                        today: string, popupOpened: bool)
    returns (written: Option<string>)
    ensures written.Some? <==> popupOpened
    ensures written.Some? ==> (written.value ==
      PrintHtml(siteTitle, today, BuildStylesheetLinks(styles), TocSection(Render(TocTokens(pages))), BuildChapters(pages)))
  {
    var styleLinks := BuildStylesheetLinks(styles);
    var toc := BuildToc(pages);
    var chapters := BuildChapters(pages);
    var html := PrintHtml(siteTitle, today, styleLinks, toc, chapters);
    if !popupOpened {
      return None;
    }
    written := Some(html);
  }
}
