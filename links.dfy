/**
 * `extractLinks` of the content script: the sidebar's `aside a` anchors become
 * a de-duplicated list of absolute, fragment-free chapter URLs with a title and
 * a nesting level, with the current page put first when the sidebar misses it,
 * capped at `MAX_PAGES`.
 */
module Links {
  import opened Common
  import opened Dom
  import opened Urls

  /** `MAX_PAGES`. */
  const MaxPages: nat := 200

  /** What the page around the sidebar supplies: `location.href`, `document.baseURI`, `document.title`. */
  datatype PageContext = PageContext(location: string, baseUri: string, docTitle: string, resolve: Resolver)

  /**
   * A sidebar anchor as `extractLinks` sees it: its `href` attribute, its
   * `textContent`, and the tag names of its ancestors, innermost first.
   */
  datatype Anchor = Anchor(href: Option<string>, text: string, ancestors: seq<string>)

  /** One chapter to fetch: `{url, title, level}`. */
  datatype Link = Link(url: string, title: string, level: int)

  // ---------------------------------------------------------------------------
  // `document.querySelectorAll("aside a")`

  /** The `a` elements of `n` that have an `aside` ancestor, in document order; `above` lists `n`'s ancestors. */
  function SidebarAnchors(n: Node, above: seq<string>): (r: seq<Anchor>)
    ensures forall k :: 0 <= k < |r| ==> "aside" in r[k].ancestors
    decreases n, 1
  {
    match n
    case Text(_) => []
    case Element(tag, attrs, cs) =>
      (if tag == "a" && "aside" in above then [Anchor(AttrValue(attrs, "href"), TextContent(n), above)] else [])
      + SidebarAnchorsAll(cs, [tag] + above)
  }

  function SidebarAnchorsAll(ns: seq<Node>, above: seq<string>): (r: seq<Anchor>)
    ensures forall k :: 0 <= k < |r| ==> "aside" in r[k].ancestors
    decreases ns, 0
  {
    if ns == [] then [] else SidebarAnchors(ns[0], above) + SidebarAnchorsAll(ns[1..], above)
  }

  /** An element of the document together with the tags of its ancestors, innermost first. */
  datatype Placed = Placed(node: Node, ancestors: seq<string>)

  /** The elements of `n` in document order, each with its ancestors; `above` lists `n`'s ancestors. */
  function PlacedElements(n: Node, above: seq<string>): (r: seq<Placed>)
    decreases n, 1
  {
    match n
    case Text(_) => []
    case Element(tag, _, cs) => [Placed(n, above)] + PlacedElementsAll(cs, [tag] + above)
  }

  function PlacedElementsAll(ns: seq<Node>, above: seq<string>): (r: seq<Placed>)
    decreases ns, 0
  {
    if ns == [] then [] else PlacedElements(ns[0], above) + PlacedElementsAll(ns[1..], above)
  }

  /** The placed elements are exactly the elements of `Preorder`, in the same order. */
  lemma {:induction false} PlacedInPreorder(n: Node, above: seq<string>)
    ensures var r := PlacedElements(n, above);
      |r| == |Preorder(n)| && forall i :: 0 <= i < |r| ==> r[i].node == Preorder(n)[i]
    decreases n, 1
  {
    match n
    case Text(_) =>
    case Element(tag, _, cs) =>
      PlacedInPreorderAll(cs, [tag] + above);
      var r: seq<Placed>, t: seq<Node> := PlacedElementsAll(cs, [tag] + above), PreorderAll(cs);
      forall i | 0 <= i < 1 + |r| ensures PlacedElements(n, above)[i].node == Preorder(n)[i] {
        if i > 0 {
          assert PlacedElements(n, above)[i] == r[i - 1];
          assert Preorder(n)[i] == t[i - 1];
        }
      }
  }

  lemma {:induction false} PlacedInPreorderAll(ns: seq<Node>, above: seq<string>)
    ensures var r := PlacedElementsAll(ns, above);
      |r| == |PreorderAll(ns)| && forall i :: 0 <= i < |r| ==> r[i].node == PreorderAll(ns)[i]
    decreases ns, 0
  {
    if ns != [] {
      PlacedInPreorder(ns[0], above);
      PlacedInPreorderAll(ns[1..], above);
      var h: seq<Placed>, t: seq<Placed> := PlacedElements(ns[0], above), PlacedElementsAll(ns[1..], above);
      var ph: seq<Node>, pt: seq<Node> := Preorder(ns[0]), PreorderAll(ns[1..]);
      forall i | 0 <= i < |h| + |t| ensures (h + t)[i].node == (ph + pt)[i] {
        if i < |h| {
          assert (h + t)[i] == h[i] && (ph + pt)[i] == ph[i];
        } else {
          assert (h + t)[i] == t[i - |h|] && (ph + pt)[i] == pt[i - |h|];
        }
      }
    }
  }

  /** `aside a`: an `a` element with an `aside` ancestor. */
  predicate InSidebar(p: Placed) {
    p.node.Element? && p.node.tag == "a" && "aside" in p.ancestors
  }

  /** What the loop reads of a matched anchor. */
  function AnchorOf(p: Placed): Anchor {
    Anchor(if p.node.Element? then AttrValue(p.node.attrs, "href") else None, TextContent(p.node), p.ancestors)
  }

  /** The anchors of the placed elements that `aside a` matches, in order. */
  function SidebarFilter(ps: seq<Placed>): seq<Anchor>
    decreases |ps|
  {
    if ps == [] then [] else (if InSidebar(ps[0]) then [AnchorOf(ps[0])] else []) + SidebarFilter(ps[1..])
  }

  lemma {:induction false} SidebarFilterConcat(a: seq<Placed>, b: seq<Placed>)
    ensures SidebarFilter(a + b) == SidebarFilter(a) + SidebarFilter(b)
    decreases |a|
  {
    if a != [] {
      assert (a + b)[0] == a[0] && (a + b)[1..] == a[1..] + b;
      SidebarFilterConcat(a[1..], b);
    } else {
      assert a + b == b;
    }
  }

  /**
   * `querySelectorAll("aside a")` yields every `a` element with an `aside`
   * ancestor, each once, in document order: the anchors are the document's
   * elements (as `PlacedInPreorder` lists them) filtered by the selector.
   */
  lemma {:induction false} SidebarAnchorsSpec(n: Node, above: seq<string>)
    ensures SidebarAnchors(n, above) == SidebarFilter(PlacedElements(n, above))
    decreases n, 1
  {
    match n
    case Text(_) =>
    case Element(tag, _, cs) =>
      SidebarAnchorsAllSpec(cs, [tag] + above);
      SidebarFilterConcat([Placed(n, above)], PlacedElementsAll(cs, [tag] + above));
      assert [Placed(n, above)][1..] == [];
  }

  lemma {:induction false} SidebarAnchorsAllSpec(ns: seq<Node>, above: seq<string>)
    ensures SidebarAnchorsAll(ns, above) == SidebarFilter(PlacedElementsAll(ns, above))
    decreases ns, 0
  {
    if ns != [] {
      SidebarAnchorsSpec(ns[0], above);
      SidebarAnchorsAllSpec(ns[1..], above);
      SidebarFilterConcat(PlacedElements(ns[0], above), PlacedElementsAll(ns[1..], above));
    }
  }

  // ---------------------------------------------------------------------------
  // `getDepth`

  predicate IsListTag(tag: string) {
    tag == "ul" || tag == "ol" || tag == "nav"
  }

  /** The number of `ul`, `ol` and `nav` ancestors below `body` (or below the root when there is no `body`). */
  function ListDepth(ancestors: seq<string>): (d: nat)
    ensures d <= |ancestors|
  {
    if ancestors == [] || ancestors[0] == "body" then 0
    else (if IsListTag(ancestors[0]) then 1 else 0) + ListDepth(ancestors[1..])
  }

  /** `getDepth(node)`: walks the parent chain up to `document.body`, counting list containers. */
  method GetDepth(ancestors: seq<string>) returns (depth: nat)
    ensures depth == ListDepth(ancestors)
  {
    depth := 0;
    var i := 0;
    while i < |ancestors| && ancestors[i] != "body"
      invariant 0 <= i <= |ancestors|
      invariant depth + ListDepth(ancestors[i..]) == ListDepth(ancestors)
    {
      assert ancestors[i..][1..] == ancestors[i + 1..];
      if IsListTag(ancestors[i]) {
        depth := depth + 1;
      }
      i := i + 1;
    }
    if i < |ancestors| {
      assert ancestors[i..][0] == "body";
    }
  }

  /** Containers above `body` never count: only the chain below it decides the depth. */
  lemma {:induction false} DepthStopsAtBody(below: seq<string>, above: seq<string>)
    requires "body" !in below
    ensures ListDepth(below + ["body"] + above) == ListDepth(below)
    decreases |below|
  {
    if below == [] {
      assert (below + ["body"] + above)[0] == "body";
    } else {
      assert (below + ["body"] + above)[1..] == below[1..] + ["body"] + above;
      DepthStopsAtBody(below[1..], above);
    }
  }

  /** Below `body`, the containers of an inner stretch of the parent chain add to those of the outer stretch. */
  lemma {:induction false} DepthAppend(below: seq<string>, rest: seq<string>)
    requires "body" !in below
    ensures ListDepth(below + rest) == ListDepth(below) + ListDepth(rest)
    decreases |below|
  {
    if below == [] {
      assert below + rest == rest;
    } else {
      assert (below + rest)[0] == below[0] && (below + rest)[1..] == below[1..] + rest;
      DepthAppend(below[1..], rest);
    }
  }

  // ---------------------------------------------------------------------------
  // The loop over the anchors

  /**
   * The normalised URL an anchor contributes: its `href`, made absolute (and
   * skipped unless the result is truthy) and cut at the fragment.
   */
  function Candidate(a: Anchor, ctx: PageContext): Option<string> {
    var absolute := ToAbsolute(a.href, ctx.location, ctx.resolve);
    if !Truthy(absolute) then None else Some(StripHash(absolute.value, ctx.baseUri, ctx.resolve))
  }

  /** The link an anchor makes for URL `u`: its trimmed text (or `u`) and its container depth. */
  function LinkFor(a: Anchor, u: string): Link {
    Link(u, if Trim(a.text) != "" then Trim(a.text) else u, ListDepth(a.ancestors))
  }

  function UrlsOf(links: seq<Link>): set<string> {
    set k | 0 <= k < |links| :: links[k].url
  }

  /** One visit of the anchor loop: push the anchor's link unless its URL is missing or already seen. */
  function Visit(prev: seq<Link>, a: Anchor, ctx: PageContext): (r: seq<Link>)
    ensures |prev| <= |r| <= |prev| + 1 && r[..|prev|] == prev
    ensures |r| == |prev| + 1 <==> Candidate(a, ctx).Some? && Candidate(a, ctx).value !in UrlsOf(prev)
    ensures |r| == |prev| + 1 ==> r[|prev|] == LinkFor(a, Candidate(a, ctx).value)
  {
    match Candidate(a, ctx)
    case None => prev
    case Some(u) => if u in UrlsOf(prev) then prev else prev + [LinkFor(a, u)]
  }

  /** The links the anchor loop has pushed after visiting `anchors`, in order. */
  function Collected(anchors: seq<Anchor>, ctx: PageContext): seq<Link>
    decreases |anchors|
  {
    if anchors == [] then [] else Visit(Collected(anchors[..|anchors| - 1], ctx), anchors[|anchors| - 1], ctx)
  }

  lemma CollectedStep(anchors: seq<Anchor>, i: nat, ctx: PageContext)
    requires i < |anchors|
    ensures Collected(anchors[..i + 1], ctx) == Visit(Collected(anchors[..i], ctx), anchors[i], ctx)
  {
    assert anchors[..i + 1][..i] == anchors[..i];
  }

  lemma UrlsOfPush(links: seq<Link>, l: Link)
    ensures UrlsOf(links + [l]) == UrlsOf(links) + {l.url}
  {
    var ext := links + [l];
    assert ext[|links|] == l;
    assert forall k :: 0 <= k < |links| ==> ext[k] == links[k];
  }

  /** The current page, normalised like every sidebar URL. */
  function SelfUrl(ctx: PageContext): string {
    StripHash(ctx.location, ctx.baseUri, ctx.resolve)
  }

  /** `links.unshift(...)` of the current page when no sidebar anchor led to it. */
  function WithSelf(links: seq<Link>, ctx: PageContext): seq<Link> {
    if SelfUrl(ctx) in UrlsOf(links) then links
    else [Link(SelfUrl(ctx), if ctx.docTitle != "" then ctx.docTitle else "当前页面", 0)] + links
  }

  /** `Math.min(...levels, 0)`. */
  function MinWithZero(levels: seq<int>): (m: int)
    ensures m <= 0 && forall k :: 0 <= k < |levels| ==> m <= levels[k]
    ensures m == 0 || exists k :: 0 <= k < |levels| && levels[k] == m
  {
    if levels == [] then 0
    else
      var rest := MinWithZero(levels[1..]);
      assert forall k :: 1 <= k < |levels| ==> levels[k] == levels[1..][k - 1];
      if levels[0] < rest then levels[0] else rest
  }

  /** `level: Math.max(1, item.level - minLevel + 1)` for every link. */
  function Relevel(links: seq<Link>, minLevel: int): (r: seq<Link>)
    ensures |r| == |links|
  {
    seq(|links|, k requires 0 <= k < |links| =>
      var l := links[k].level - minLevel + 1;
      links[k].(level := if l >= 1 then l else 1))
  }

  /** `.slice(0, MAX_PAGES)`. */
  function Capped(links: seq<Link>): seq<Link> {
    if |links| <= MaxPages then links else links[..MaxPages]
  }

  /** The whole of `extractLinks`, with the minimum level already known to be 0. */
  function ExtractedLinks(anchors: seq<Anchor>, ctx: PageContext): seq<Link> {
    Capped(Relevel(WithSelf(Collected(anchors, ctx), ctx), 0))
  }

  /**
   * The `anchors.forEach` loop of `extractLinks`: it keeps `seen`, `links` and
   * `levels` in step; every level is a depth, so none is negative.
   */
  method VisitAnchors(anchors: seq<Anchor>, ctx: PageContext)
    returns (seen: set<string>, links: seq<Link>, levels: seq<nat>)
    ensures links == Collected(anchors, ctx) && seen == UrlsOf(links)
  {
    seen, links, levels := {}, [], [];
    for i := 0 to |anchors|
      invariant links == Collected(anchors[..i], ctx)
      invariant seen == UrlsOf(links)
    {
      var a := anchors[i];
      CollectedStep(anchors, i, ctx);
      if Truthy(a.href) {
        var absolute := ToAbsolute(a.href, ctx.location, ctx.resolve);
        if Truthy(absolute) {
          var normalized := StripHash(absolute.value, ctx.baseUri, ctx.resolve);
          if normalized !in seen {
            seen := seen + {normalized};
            var depth := GetDepth(a.ancestors);
            levels := levels + [depth];
            var title := Trim(a.text);
            if title == "" {
              title := normalized;
            }
            UrlsOfPush(links, Link(normalized, title, depth));
            links := links + [Link(normalized, title, depth)];
          }
        }
      }
    }
    assert anchors[..|anchors|] == anchors;
  }

  /**
   * `extractLinks(DEFAULT_CONFIG)`: the minimum level it computes is always 0,
   * so every level is the depth plus one.
   */
  method ExtractLinks(doc: Node, ctx: PageContext) returns (result: seq<Link>)
    ensures result == ExtractedLinks(SidebarAnchors(doc, []), ctx)
  {
    var anchors := SidebarAnchors(doc, []);
    var seen, links, levels := VisitAnchors(anchors, ctx);
    ghost var full := WithSelf(links, ctx);
    var self := StripHash(ctx.location, ctx.baseUri, ctx.resolve);
    if self !in seen {
      levels := levels + [0];
      links := [Link(self, if ctx.docTitle != "" then ctx.docTitle else "当前页面", 0)] + links;
    }
    assert links == full;
    var minLevel := if |levels| > 0 then MinWithZero(levels) else 0;
    DepthsMinimum(levels);
    var normalized := Relevel(links, minLevel);
    result := normalized[..if |normalized| < MaxPages then |normalized| else MaxPages];
    assert result == Capped(normalized);
  }

  /** Depths are never negative, so `Math.min(...levels, 0)` is 0. */
  lemma DepthsMinimum(levels: seq<nat>)
    ensures MinWithZero(levels) == 0
  {
    var m := MinWithZero(levels);
    if m != 0 {
      assert false;
    }
  }

  // ---------------------------------------------------------------------------
  // What the extracted list promises

  predicate UniqueUrls(links: seq<Link>) {
    forall i, j :: 0 <= i < j < |links| ==> links[i].url != links[j].url
  }

  /** Anchor `i` is the first anchor whose normalised URL is `u`. */
  predicate FirstWithUrl(anchors: seq<Anchor>, i: nat, u: string, ctx: PageContext) {
    i < |anchors| && Candidate(anchors[i], ctx) == Some(u) &&
    forall j :: 0 <= j < i ==> Candidate(anchors[j], ctx) != Some(u)
  }

  lemma CollectedPrefix(anchors: seq<Anchor>, ctx: PageContext)
    requires anchors != []
    ensures var prev := Collected(anchors[..|anchors| - 1], ctx);
      |prev| <= |Collected(anchors, ctx)| && Collected(anchors, ctx)[..|prev|] == prev
  {
  }

  /** No URL is collected twice: `seen` filters repeats. */
  lemma {:induction false} CollectedUnique(anchors: seq<Anchor>, ctx: PageContext)
    ensures UniqueUrls(Collected(anchors, ctx))
    decreases |anchors|
  {
    if anchors != [] {
      var prev := Collected(anchors[..|anchors| - 1], ctx);
      CollectedUnique(anchors[..|anchors| - 1], ctx);
      var c := Collected(anchors, ctx);
      if c != prev {
        forall i, j | 0 <= i < j < |c| ensures c[i].url != c[j].url {
          if j == |prev| {
            assert c[i] == prev[i];
            assert prev[i].url in UrlsOf(prev);
          } else {
            assert c[i] == prev[i] && c[j] == prev[j];
          }
        }
      }
    }
  }

  /** Every anchor whose `href` resolves contributes its URL: nothing is lost before the cap. */
  lemma {:induction false} CollectedComplete(anchors: seq<Anchor>, ctx: PageContext, i: nat)
    requires i < |anchors| && Candidate(anchors[i], ctx).Some?
    ensures Candidate(anchors[i], ctx).value in UrlsOf(Collected(anchors, ctx))
    decreases |anchors|
  {
    var n := |anchors|;
    var prev := Collected(anchors[..n - 1], ctx);
    var c := Collected(anchors, ctx);
    CollectedPrefix(anchors, ctx);
    if i < n - 1 {
      assert anchors[..n - 1][i] == anchors[i];
      CollectedComplete(anchors[..n - 1], ctx, i);
      var u := Candidate(anchors[i], ctx).value;
      var k :| 0 <= k < |prev| && prev[k].url == u;
      assert c[k] == prev[k];
    } else if c != prev {
      assert c[|prev|].url == Candidate(anchors[i], ctx).value;
    }
  }

  /**
   * Each collected link comes from the first anchor with its URL, and takes
   * that anchor's title and depth: the first occurrence wins.
   */
  lemma {:induction false} CollectedFirst(anchors: seq<Anchor>, ctx: PageContext, k: nat)
    requires k < |Collected(anchors, ctx)|
    ensures var l := Collected(anchors, ctx)[k];
      exists i: nat :: FirstWithUrl(anchors, i, l.url, ctx) && l == LinkFor(anchors[i], l.url)
    decreases |anchors|
  {
    var n := |anchors|;
    var init := anchors[..n - 1];
    var prev := Collected(init, ctx);
    var c := Collected(anchors, ctx);
    var l := c[k];
    CollectedPrefix(anchors, ctx);
    if k < |prev| {
      CollectedFirst(init, ctx, k);
      assert c[k] == prev[k];
      var i: nat :| FirstWithUrl(init, i, l.url, ctx) && l == LinkFor(init[i], l.url);
      FirstKept(anchors, i, l.url, ctx);
    } else {
      LastFirst(anchors, l.url, ctx);
    }
  }

  /** The first anchor with a URL stays first when an anchor is appended. */
  lemma FirstKept(anchors: seq<Anchor>, i: nat, u: string, ctx: PageContext)
    requires anchors != [] && FirstWithUrl(anchors[..|anchors| - 1], i, u, ctx)
    ensures FirstWithUrl(anchors, i, u, ctx) && anchors[..|anchors| - 1][i] == anchors[i]
  {
    var init := anchors[..|anchors| - 1];
    assert forall j :: 0 <= j < i ==> init[j] == anchors[j];
  }

  /** A URL the earlier anchors did not collect is first met at the last anchor. */
  lemma LastFirst(anchors: seq<Anchor>, u: string, ctx: PageContext)
    requires anchors != [] && Candidate(anchors[|anchors| - 1], ctx) == Some(u)
    requires u !in UrlsOf(Collected(anchors[..|anchors| - 1], ctx))
    ensures FirstWithUrl(anchors, |anchors| - 1, u, ctx)
  {
    var init := anchors[..|anchors| - 1];
    forall j | 0 <= j < |anchors| - 1 ensures Candidate(anchors[j], ctx) != Some(u) {
      assert init[j] == anchors[j];
      if Candidate(anchors[j], ctx) == Some(u) {
        CollectedComplete(init, ctx, j);
      }
    }
  }

  /** No collected link has a negative level: every level is a depth. */
  lemma {:induction false} CollectedLevels(anchors: seq<Anchor>, ctx: PageContext)
    ensures forall k :: 0 <= k < |Collected(anchors, ctx)| ==> Collected(anchors, ctx)[k].level >= 0
    decreases |anchors|
  {
    if anchors != [] {
      var prev := Collected(anchors[..|anchors| - 1], ctx);
      CollectedLevels(anchors[..|anchors| - 1], ctx);
      var c := Collected(anchors, ctx);
      forall k | 0 <= k < |c| ensures c[k].level >= 0 {
        if k < |prev| {
          assert c[k] == prev[k];
        }
      }
    }
  }

  /**
   * `extractLinks` returns between 1 and `MAX_PAGES` links: the collected
   * links with the current page put first when no anchor led to it, cut to
   * the first `MAX_PAGES`, and each level raised by one.
   */
  lemma ExtractedShape(anchors: seq<Anchor>, ctx: PageContext)
    ensures var r := ExtractedLinks(anchors, ctx);
      var full := WithSelf(Collected(anchors, ctx), ctx);
      1 <= |r| <= MaxPages && |r| == (if |full| <= MaxPages then |full| else MaxPages) &&
      forall k :: 0 <= k < |r| ==> r[k] == full[k].(level := full[k].level + 1) && r[k].level >= 1
    ensures SelfUrl(ctx) !in UrlsOf(Collected(anchors, ctx)) ==>
      ExtractedLinks(anchors, ctx)[0] ==
        Link(SelfUrl(ctx), if ctx.docTitle != "" then ctx.docTitle else "当前页面", 1)
  {
    var c := Collected(anchors, ctx);
    var full := WithSelf(c, ctx);
    CollectedLevels(anchors, ctx);
    WithSelfLevels(c, ctx);
    var r := Relevel(full, 0);
    assert ExtractedLinks(anchors, ctx) == Capped(r);
    if SelfUrl(ctx) !in UrlsOf(c) {
      assert full[0] == Link(SelfUrl(ctx), if ctx.docTitle != "" then ctx.docTitle else "当前页面", 0);
      assert Capped(r)[0] == r[0];
    }
  }

  /** The current page's entry makes the list non-empty and brings no negative level. */
  lemma WithSelfLevels(c: seq<Link>, ctx: PageContext)
    requires forall k :: 0 <= k < |c| ==> c[k].level >= 0
    ensures var full := WithSelf(c, ctx);
      |full| >= 1 && forall k :: 0 <= k < |full| ==> full[k].level >= 0
  {
    var full := WithSelf(c, ctx);
    if SelfUrl(ctx) in UrlsOf(c) {
      assert |c| > 0;
    } else {
      assert forall k :: 1 <= k < |full| ==> full[k] == c[k - 1];
    }
  }

  lemma WithSelfUnique(c: seq<Link>, ctx: PageContext)
    requires UniqueUrls(c)
    ensures UniqueUrls(WithSelf(c, ctx))
  {
    var full := WithSelf(c, ctx);
    if SelfUrl(ctx) !in UrlsOf(c) {
      forall i, j | 0 <= i < j < |full| ensures full[i].url != full[j].url {
        if i == 0 {
          assert full[j] == c[j - 1];
        } else {
          assert full[i] == c[i - 1] && full[j] == c[j - 1];
        }
      }
    }
  }

  /** No URL appears twice in what `extractLinks` returns. */
  lemma ExtractedUnique(anchors: seq<Anchor>, ctx: PageContext)
    ensures UniqueUrls(ExtractedLinks(anchors, ctx))
  {
    var full := WithSelf(Collected(anchors, ctx), ctx);
    CollectedUnique(anchors, ctx);
    WithSelfUnique(Collected(anchors, ctx), ctx);
    ExtractedShape(anchors, ctx);
    var r := ExtractedLinks(anchors, ctx);
    forall i, j | 0 <= i < j < |r| ensures r[i].url != r[j].url {
      assert r[i].url == full[i].url && r[j].url == full[j].url;
    }
  }
}
