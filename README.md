# DocuPrint core, modelled in Dafny

DocuPrint is a browser extension that turns a documentation site into one
printable page. Its content script reads the sidebar links of the current
page, fetches every linked page, cuts out each page's main content and
cleans it, and then has the assembler write a print page. That page holds
a cover, a nested table of contents and one chapter per page.

This project models the three scripts that do this work:

- `Urls`, `Parser` (`scripts/parser.js`): resolving and un-hashing URLs,
  choosing the main-content subtree, stripping scripts, styles and
  excluded blocks, rewriting image and link URLs, and collecting
  stylesheet links. The DOM is a tree of elements with tags, attribute
  maps and children, with a small selector language (`Dom`). The
  in-place passes are methods of a `Fragment` class whose `root` they
  replace.
- `Slug`, `Printer` (`scripts/printer.js`): `slugify`, the stylesheet
  link block, the nested table of contents, the chapters and the
  composition of the print page. The TOC builder is an imperative method
  proved equal to the rendering of a token stream. Reading that stream
  back yields exactly one entry per page at its level, in order.
- `Links`, `Crawl`, `Pipeline` (`scripts/content.js`): `extractLinks`
  with `getDepth`; `fetchPage`; `crawlAll` with its `results` array and
  its insertion-ordered `stylesSet`; `startPipeline` with its `running`
  and `cancelRequested` flags and its chapter mapping; and the cancel
  message handler.

`Common` holds the `Option` type and JavaScript string helpers:
truthiness, `trim`, `join`, ASCII `toLowerCase` (`Common.Lower`) and
decimal printing.

The browser is a parameter. URL parsing (`new URL(link, base)`) is a
`Resolver` that may fail. Serialising a node (`outerHTML`) is a
`Serializer`. Each URL's fetch and parse is a function from URL to
`HttpOutcome`. The current date and whether the pop-up window opened are
arguments.

Some behaviour of the code is worth stating outright, because a reader
might expect otherwise:

- `fetchPage` fetches each URL once. There is no retry and no back-off:
  `crawlAll` stores the placeholder page as soon as a fetch throws.
- `crawlAll` waits for nothing between requests.
- `extractLinks` reads the sidebar of the live page as it stands. Collapsed
  sections are not expanded and lazily loaded ones are not scrolled into
  view, so their links are missed.
- Chapter anchors are not de-duplicated. Two failed pages both get the
  anchor `抓取失败` (`Pipeline.FailedAnchorsCollide`).
- When the pop-up is blocked, `buildPrintPage` only alerts, and
  `startPipeline` still answers `{ok: true}`.
- The `no-links` answer cannot happen. `extractLinks` always includes the
  current page (`Links.ExtractedShape`), so that branch is dead.

## Model

| member | source | states |
|---|---|---|
| Urls.ToAbsolute | scripts/parser.js:14-21 | A URL comes back exactly when the link is non-empty and resolves against the base. It is then the resolved URL; otherwise there is none. |
| Urls.StripHash | scripts/parser.js:4-12 | An unresolvable URL is returned unchanged. Otherwise the result is the resolved URL cut just before its first `#`, and it contains no `#`. |
| Urls.BeforeHashIdempotent | scripts/parser.js:4-12 | Stripping the fragment twice gives the same URL as stripping it once. |
| Parser.SelectContent | scripts/parser.js:23-29 | The result is absent iff no selector matches anything. Otherwise it is the first match of the earliest selector that matches, and every earlier selector matches nothing. |
| Parser.SelectedIsMatchingElement | scripts/parser.js:23-29 | The selected node is an element of the document, and one of the given selectors matches it. |
| Dom.NoneMatchInOrder | scripts/parser.js:35-39 | No element of a forest matches a selector iff no element visited in document order, as `querySelectorAll` visits them, matches it. |
| Parser.PruneAllClears | scripts/parser.js:31-39 | After removing every match of a selector, no node left in the forest matches it. |
| Parser.PruneAllKeepsClear | scripts/parser.js:35-39 | Removing nodes never brings back a match of another selector that was already absent. |
| Parser.PruneAllIdentity | scripts/parser.js:35-39 | Removal by a selector that matches nothing leaves the forest unchanged. |
| Parser.PruneEachClears | scripts/parser.js:35-39 | After `removeUnwanted`, no descendant matches any of the exclude selectors. Selectors whose matches were already gone stay absent. |
| Parser.PruneEachShape | scripts/parser.js:35-39 | `removeUnwanted` never removes or alters the root: its tag and attributes stay as they were. |
| Parser.Fragment.StripScripts | scripts/parser.js:31-33 | The clone's root becomes the old root with every `script` and `style` subtree below it removed. |
| Parser.Fragment.RemoveUnwanted | scripts/parser.js:35-39 | The clone's root becomes the old root with each exclude selector's matches removed, one selector after the other. |
| Parser.FixImageAttrs | scripts/parser.js:41-52 | The result never has `loading`. Every other attribute except `src` is kept. `src` is present iff a non-empty `data-src` or a `src` was present. When present, it is the resolved `data-src`/`src`, or that raw value when it does not resolve. |
| Parser.FixImagesSpec | scripts/parser.js:41-52 | Every descendant stays, in order and with its tag. Exactly the `img` descendants get their attributes rewritten, and none of them keeps `loading`. |
| Parser.Fragment.FixImagesInPlace | scripts/parser.js:41-52 | The clone's root becomes the image-rewritten old root. |
| Parser.FixLinkAttrs | scripts/parser.js:54-61 | Only `href` may change, and it is present iff it was. When it resolves it becomes the absolute URL; otherwise it is kept. |
| Parser.FixLinksSpec | scripts/parser.js:54-61 | Every descendant stays, in order and with its tag. Exactly the `a` descendants are rewritten, and none of them gains or loses an `href`. |
| Parser.Fragment.FixLinksInPlace | scripts/parser.js:54-61 | The clone's root becomes the link-rewritten old root. |
| Parser.Sanitized | scripts/parser.js:63-72 | The result is absent exactly when no content selector matches. A missing selector list means the defaults. |
| Parser.EmptyContentSelectorSelectsNothing | scripts/parser.js:63-65 | An explicitly empty `contentSelector` list selects nothing. The defaults `main`, `article`, `.content` apply only when the field is absent. |
| Parser.FixesKeepClear | scripts/parser.js:67-70 | The two URL rewrites keep a subtree free of what a selector matches, provided the selector does not test `src`, `href` or `loading`. |
| Parser.FixesLeaveNoLoading | scripts/parser.js:69-70 | After both rewrites, no `img` below the root has a `loading` attribute. |
| Parser.StrippedIsClean | scripts/parser.js:67-68 | After `stripScripts` and `removeUnwanted`, no script, style or excluded element is left below the root, and the root is unchanged. |
| Parser.SanitizedIsClean | scripts/parser.js:63-72 | The sanitised subtree keeps the selected root's tag and attributes. Below the root it holds no `script` or `style`, no match of an exclude selector that ignores the rewritten attributes, and no `img` with `loading`. |
| Parser.SanitizeContent | scripts/parser.js:63-72 | Null exactly when no content selector matches. Otherwise the result is a fresh fragment whose root is `Sanitized`. |
| Parser.StylesheetUrlsMembers | scripts/parser.js:74-81 | A URL is collected iff some `link[rel="stylesheet"]` element's `href` resolves to it. |
| Parser.StylesheetLinkMatches | scripts/parser.js:74-81 | An element is a stylesheet link iff it is a `link` whose `rel` is `stylesheet` in any ASCII letter case. |
| Parser.DuplicatesKept | scripts/parser.js:74-81 | The same stylesheet appearing twice is collected twice: `collectStyles` does not deduplicate. |
| Parser.CollectStyles | scripts/parser.js:74-81 | The loop over all elements in document order yields exactly `StylesheetUrls` of the document's elements. |
| Common.Lower | scripts/printer.js:7 | The result has the same length, and each character is lower-cased (ASCII letters only). |
| Slug.Collapse | scripts/printer.js:8 | Every character of the result is a slug character or `-`, and no two `-` are adjacent. The slug characters are those of the input, in order. It is empty iff the input is, and a leading slug character is kept. |
| Slug.CollapseKeptPrefix | scripts/printer.js:8 | A leading stretch of slug characters passes through the run replacement unchanged. |
| Slug.CollapseRun | scripts/printer.js:8 | A maximal run of other characters, followed by a slug character or the end, becomes exactly one `-` in its place. |
| Slug.SlugifySpec | scripts/printer.js:2-10 | The result is the fallback or a well-formed slug. It is the fallback exactly when the text is empty or has no slug character. Otherwise it is a slug whose letters and digits are those of the lower-cased text, in order. |
| Slug.SlugifyWords | scripts/printer.js:2-10 | Two words whose lower-cased characters are all kept, separated by a non-empty run of characters that are not, give the lower-cased words joined by one `-`. |
| Slug.CollapseFixes | scripts/printer.js:8 | Text that is already collapsed is left unchanged by the run replacement. |
| Slug.NormalizeFixesSlugs | scripts/printer.js:4-9 | Normalising a well-formed slug gives the slug itself. |
| Slug.SlugifyIdempotent | scripts/printer.js:2-10 | Slugifying a slug again returns it, whatever the second fallback. |
| Slug.IntroSlug | scripts/printer.js:2-10 | `slugify("intro", f)` is `intro`. |
| Slug.CapitalisedIntroSlug | scripts/printer.js:2-10 | `slugify("Intro", f)` is `intro`. |
| Slug.PunctuatedIntroSlug | scripts/printer.js:2-10 | `slugify("Intro!", f)` is `intro`: the trailing run becomes `-` and is then trimmed. |
| Slug.FailedTitleSlug | scripts/printer.js:2-10 | The placeholder title `抓取失败` is its own slug, since CJK characters are kept. |
| Printer.TocLevel | scripts/printer.js:37 | A TOC level is at least 1. It equals the page's level when that is at least 1, and is 1 otherwise. |
| Printer.OpenToLevel | scripts/printer.js:22-27 | Appends one list opening per level from the current level up to the target, and ends at the target, or at the current level when that is higher. |
| Printer.CloseToLevel | scripts/printer.js:29-34 | Appends one list closing per level from the current level down to the target, and ends at the target, or at the current level when that is lower. |
| Printer.BuildNestedToc | scripts/printer.js:18-49 | The HTML built is exactly the rendering of the TOC token stream of the pages, including the final `closeToLevel(1)` and the root closing. |
| Printer.EmptyToc | scripts/printer.js:20-48 | With no pages the nested TOC is just the empty top-level list `<ul class="toc-list level-1"></ul>`. |
| Printer.TocOutline | scripts/printer.js:18-49 | Reading the TOC token stream back gives a well-nested list that closes at level 1. It holds exactly one entry per page, in page order, with the page's anchor, its title (or URL) and its TOC level. |
| Printer.BuildToc | scripts/printer.js:51-57 | The TOC section wraps exactly the nested TOC HTML. |
| Printer.StylesheetLinksEmpty | scripts/printer.js:12-16 | The stylesheet block is empty iff there is no list of URLs or the list is empty. |
| Printer.StylesheetLinksSpec | scripts/printer.js:12-16 | Each URL's `<link rel="stylesheet">` tag appears whole at its offset in the block. A newline follows it, and the next URL's tag starts right after that newline. |
| Printer.ChaptersSpec | scripts/printer.js:59-68 | Each page's HTML appears verbatim inside its chapter section, and each section appears whole at its start. The next section starts one newline after it. |
| Printer.ChaptersInOrder | scripts/printer.js:59-68 | Chapters appear in page order and do not overlap. |
| Printer.PrintHtmlOrder | scripts/printer.js:76-148 | The page holds the stylesheet links, then the TOC, then the chapters. Each appears verbatim and ends before the next begins. |
| Printer.BuildPrintPage | scripts/printer.js:70-158 | A page is written iff the pop-up opened. The page written is the template filled with the stylesheet links, the TOC section and the chapters. |
| Links.SidebarAnchors | scripts/content.js:32 | Every anchor collected for `aside a` has an `aside` among its ancestors. |
| Links.PlacedInPreorder | scripts/content.js:32 | The elements walked with their ancestors are exactly the document's elements, in document order. |
| Links.SidebarAnchorsSpec | scripts/content.js:32 | The anchors are exactly the elements in document order that are `a` with an `aside` ancestor: every such element, each once, in order. |
| Links.ListDepth | scripts/content.js:38-48 | A depth never exceeds the number of ancestors. |
| Links.GetDepth | scripts/content.js:38-48 | The loop counts exactly the `ul`, `ol` and `nav` ancestors below `body`. |
| Links.DepthStopsAtBody | scripts/content.js:41 | Ancestors above `body` do not count towards the depth. |
| Links.DepthAppend | scripts/content.js:38-48 | Below `body`, the depth is additive over the ancestor chain. |
| Links.Visit | scripts/content.js:50-65 | One anchor adds at most one link, and only at the end. It adds one iff its `href` resolves and the un-hashed URL is new. The link then has the trimmed text (or the URL) as title and the list depth as level. |
| Links.VisitAnchors | scripts/content.js:50-65 | The loop's `links` are the collected links, and `seen` is exactly their URL set. |
| Links.CollectedUnique | scripts/content.js:56-57 | No two collected links share a URL. |
| Links.CollectedComplete | scripts/content.js:50-65 | Every anchor whose `href` resolves has its URL among the collected links. |
| Links.CollectedFirst | scripts/content.js:50-65 | Each collected link comes from the first anchor leading to its URL, and carries that anchor's title and depth. |
| Links.CollectedLevels | scripts/content.js:58-63 | No collected level is negative. |
| Links.MinWithZero | scripts/content.js:76 | The minimum is at most 0 and at most every level, and it is either 0 or one of the levels. |
| Links.ExtractLinks | scripts/content.js:31-83 | The method's result equals `ExtractedLinks` of the page's sidebar anchors. |
| Links.ExtractedShape | scripts/content.js:67-82 | Between 1 and 200 links. They are the collected links, with the current page in front when no anchor led to it, cut to 200, and each level is raised by one (at least 1). When missing, the current page comes first with the document title (or `当前页面`) at level 1. |
| Links.ExtractedUnique | scripts/content.js:31-83 | No two extracted links share a URL. |
| Crawl.H1Text | scripts/content.js:91 | The heading text is the trimmed text of the first `h1` when there is one, and empty when there is none. |
| Crawl.PageTitle | scripts/content.js:90-93 | The title is the first `h1`'s trimmed text when that is not empty. Otherwise it is the document title when that is not empty, and otherwise the URL. It is never empty when the URL is not. |
| Crawl.FetchPage | scripts/content.js:85-103 | The method's result is `Fetched`: failed requests, non-`ok` responses and pages without content throw; otherwise the page is built. |
| Crawl.FetchedSpec | scripts/content.js:85-103 | A fetch succeeds iff the response is `ok` and a content selector matches. The page then keeps the URL, has the title `PageTitle` chooses, and holds the serialised sanitised content. Its styles are the list `collectStyles` builds, in document order with repeats. A URL is among them iff a stylesheet link resolves to it. A non-`ok` response fails with its status. |
| Crawl.PageResultSpec | scripts/content.js:114-125 | Every stored page keeps its URL. A failed one is titled `抓取失败`, has no stylesheets, and names its URL in the error block. |
| Crawl.AddStylesSpec | scripts/content.js:117 | Adding to `stylesSet` keeps it duplicate-free and keeps the old members in front. Afterwards it holds exactly the old members and the added URLs. |
| Crawl.StylesAfterSpec | scripts/content.js:107-135 | The final style list has no duplicates and holds exactly the stylesheets of the stored pages. |
| Pipeline.Claimed | scripts/content.js:111-112 | When the cancel arrives during claim `c` of `n`, exactly `c + 1` URLs are claimed. Otherwise all `n` are. |
| Pipeline.StoredPagesSpec | scripts/content.js:112-125 | Stored page `i` keeps link `i`'s URL. It is the fetched page when `fetchPage` succeeds, and the error placeholder when it throws. |
| Pipeline.CrawlStyles | scripts/content.js:107-136 | After the claimed pages are stored, the styles have no duplicates. They are exactly the stylesheets of the pages that were fetched successfully; placeholders add none. |
| Pipeline.AddEach | scripts/content.js:117 | The `forEach` over a page's styles leaves `stylesSet` as `AddStyles` describes. |
| Pipeline.Pipeline.CrawlAll | scripts/content.js:105-137 | The cancel flag is raised iff the cancel arrives during the crawl. Every claimed slot holds its link's stored page, in link order, and every unclaimed slot is empty. The styles are the set built from the claimed pages. |
| Pipeline.PreparedPagesSpec | scripts/content.js:158-162 | Each chapter keeps its page's title, URL, HTML and styles. Its anchor is `slugify` of the title with `chapter-<n>` as fallback, so it is a slug or `chapter-<n>`, and always `chapter-<n>` for an empty title. Its level is the link's level when the link exists with a non-zero level, and 1 otherwise. |
| Pipeline.FailedAnchorsCollide | scripts/content.js:158-162 | Two failed pages get the same anchor `抓取失败`. |
| Pipeline.Pipeline.Cancel | scripts/content.js:180-183 | The handler raises the cancel flag, leaves `running` alone and acknowledges. |
| Pipeline.Pipeline.StartPipeline | scripts/content.js:139-173 | While running it answers busy and changes nothing. Otherwise it ends not running and answers ok or cancelled. It answers cancelled iff the cancel arrived during the crawl, and the flag is left raised exactly then. A cancelled run writes no page. On ok, a page is written iff the pop-up opened, and that page is the print page of the extracted links. |

## Left out

- `Common.Lower`: only ASCII letters are lower-cased. JavaScript's `toLowerCase` also maps other characters, and two of those mappings reach characters a slug keeps: U+212A KELVIN SIGN becomes `k`, and U+0130 `İ` becomes `i` followed by U+0307. So `slugify("İstanbul")` is `i-stanbul` in the browser but `stanbul` here. Every other non-ASCII character lower-cases to a character that the slug drops, in the browser and here alike.
- Selectors are limited to those the scripts use: a tag, a class, a tag with one attribute value, and a list of alternatives. Tags are compared in lower case, as the HTML parser delivers them. The `rel` of `link[rel="stylesheet"]` is compared ASCII case-insensitively, as HTML documents compare it. Class names are compared exactly. A document in quirks mode compares them case-insensitively, so there `.Content` would also match `.content` and the exclude classes; the model does not capture that.
- `Links.GetDepth`: the walk stops at the first `body` ancestor by tag. The source compares against the `document.body` node itself; in a parsed HTML document the two coincide.
- The five concurrent workers of `crawlAll` are modelled as claims taken one after the other. The cancel message is modelled as arriving while one chosen claim is in flight. Claims other workers had in flight when the flag rose, and their possible completion afterwards, are not modelled. A consequence: with five workers, `stylesSet` gathers stylesheets in the order fetches complete, while the model gathers them in link order, so `Pipeline.PrintedPage` fixes one order of the `<link>` tags among the several a browser may produce.
- Progress and error messages to the pop-up (`sendProgress`, `sendMessageToPopup`) are not modelled: they change no state the pipeline reads.
- The network, `DOMParser`, `new URL` and `outerHTML` are parameters: a fetch outcome per URL, a `Resolver` and a `Serializer`. The resolver in `Links.PageContext` (used by `extractLinks`) and the one in `Pipeline.Web` (used by `fetchPage`) both stand for `new URL`; they are separate parameters and are assumed to be the same function.
- The print page's inline CSS and its print script are represented by the fixed placeholders `StyleBlock` and `ScriptBlock`. The date is the `today` argument, since `new Date()` is a clock. Opening the pop-up is the `popupOpened` argument, and the `alert` is not modelled.
- The message listener's dispatch of `DOCUPRINT_START` to `startPipeline` is not modelled separately. Both message handlers are methods of the pipeline class.
- `background.js` and `popup/popup.js` (the toolbar and pop-up wiring) are not part of this model.
