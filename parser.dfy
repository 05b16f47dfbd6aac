/**
 * The content parser: picks the main-content subtree of a fetched page,
 * clones it, strips scripts, styles and unwanted blocks from the clone,
 * makes image and link URLs absolute, and lists the page's stylesheets.
 */
module Parser {
  import opened Common
  import opened Dom
  import opened Urls

  /** `DEFAULT_SELECTORS`: `main`, `article`, `.content`. */
  const DefaultSelectors: seq<Selector> := [Type("main"), Type("article"), Class("content")]

  /** The `script, style` selector of `stripScripts`. */
  const ScriptOrStyle: Selector := AnyOf([Type("script"), Type("style")])

  /** The `link[rel="stylesheet"]` selector of `collectStyles`. */
  const StylesheetLink: Selector := TypeWithAttr("link", "rel", "stylesheet", true)

  /** The two fields of the site configuration that the parser reads; `None` is an absent field. */
  datatype Config = Config(contentSelector: Option<seq<Selector>>, excludeSelectors: Option<seq<Selector>>)

  /** `contentSelector || DEFAULT_SELECTORS`: any array, even an empty one, is truthy. */
  function ContentSelectors(config: Config): seq<Selector> {
    match config.contentSelector
    case None => DefaultSelectors
    case Some(sels) => sels
  }

  /** `excludeSelectors || []`. */
  function ExcludeSelectors(config: Config): seq<Selector> {
    match config.excludeSelectors
    case None => []
    case Some(sels) => sels
  }

  // ---------------------------------------------------------------- selectContent

  /**
   * `selectContent(doc, selectors)`: a copy of the first match of the earliest
   * selector that matches anything, or `None` when no selector matches.
   */
  function SelectContent(doc: Node, selectors: seq<Selector>): (r: Option<Node>)
    ensures r.None? <==> forall i :: 0 <= i < |selectors| ==> QueryFirst(doc, selectors[i]).None?
    ensures r.Some? ==> exists i :: 0 <= i < |selectors| && QueryFirst(doc, selectors[i]) == r &&
                         forall j :: 0 <= j < i ==> QueryFirst(doc, selectors[j]).None?
  {
    if selectors == [] then None
    else match QueryFirst(doc, selectors[0])
      case Some(node) =>
        assert QueryFirst(doc, selectors[0]) == Some(node);
        Some(node)
      case None =>
        var rest := SelectContent(doc, selectors[1..]);
        assert forall i :: 1 <= i < |selectors| ==> selectors[i] == selectors[1..][i - 1];
        if rest.Some? then
          var i :| 0 <= i < |selectors[1..]| && QueryFirst(doc, selectors[1..][i]) == rest &&
                   forall j :: 0 <= j < i ==> QueryFirst(doc, selectors[1..][j]).None?;
          assert QueryFirst(doc, selectors[i + 1]) == rest;
          rest
        else
          rest
  }

  /** The node `selectContent` hands back is an element of the document that its selector matches. */
  lemma SelectedIsMatchingElement(doc: Node, selectors: seq<Selector>)
    requires SelectContent(doc, selectors).Some?
    ensures var n := SelectContent(doc, selectors).value;
      n in Preorder(doc) && exists i :: 0 <= i < |selectors| && ElementMatches(selectors[i], n)
  {
    var n := SelectContent(doc, selectors).value;
    var i :| 0 <= i < |selectors| && QueryFirst(doc, selectors[i]) == Some(n);
    var k := FirstMatch(Preorder(doc), selectors[i]).value;
    assert Preorder(doc)[k] == n;
  }

  // ---------------------------------------------------------------- removing nodes

  /**
   * `root.querySelectorAll(sel).forEach(n => n.remove())`: every strict
   * descendant that `sel` matches is detached with its whole subtree; the root
   * itself is never examined.
   */
  function Prune(n: Node, sel: Selector): (r: Node)
    ensures n.Element? ==> r.Element? && r.tag == n.tag && r.attrs == n.attrs
    ensures n.Text? ==> r == n
    decreases n, 1
  {
    match n
    case Text(_) => n
    case Element(t, a, cs) => Element(t, a, PruneAll(cs, sel))
  }

  function PruneAll(ns: seq<Node>, sel: Selector): (r: seq<Node>)
    ensures |r| <= |ns|
    decreases ns, 0
  {
    if ns == [] then []
    else (if ElementMatches(sel, ns[0]) then [] else [Prune(ns[0], sel)]) + PruneAll(ns[1..], sel)
  }

  /** After a removal pass nothing below the root matches the selector. */
  lemma {:induction false} PruneAllClears(ns: seq<Node>, sel: Selector)
    ensures NoneMatch(PruneAll(ns, sel), sel)
    decreases ns
  {
    if ns != [] {
      PruneAllClears(ns[1..], sel);
      var head := if ElementMatches(sel, ns[0]) then [] else [Prune(ns[0], sel)];
      if !ElementMatches(sel, ns[0]) && ns[0].Element? {
        PruneAllClears(ns[0].children, sel);
        assert NoneMatch(head[1..], sel);
      }
      NoneMatchConcat(head, PruneAll(ns[1..], sel), sel);
    }
  }

  /** A removal pass never brings back a match of another selector. */
  lemma {:induction false} PruneAllKeepsClear(ns: seq<Node>, sel: Selector, other: Selector)
    requires NoneMatch(ns, other)
    ensures NoneMatch(PruneAll(ns, sel), other)
    decreases ns
  {
    if ns != [] {
      PruneAllKeepsClear(ns[1..], sel, other);
      var head := if ElementMatches(sel, ns[0]) then [] else [Prune(ns[0], sel)];
      if !ElementMatches(sel, ns[0]) && ns[0].Element? {
        PruneAllKeepsClear(ns[0].children, sel, other);
        assert NoneMatch(head[1..], other);
      }
      NoneMatchConcat(head, PruneAll(ns[1..], sel), other);
    }
  }

  /** A removal pass removes nothing when nothing matches. */
  lemma {:induction false} PruneAllIdentity(ns: seq<Node>, sel: Selector)
    requires NoneMatch(ns, sel)
    ensures PruneAll(ns, sel) == ns
    decreases ns, 0
  {
    if ns != [] {
      assert !ElementMatches(sel, ns[0]);
      PruneIdentity(ns[0], sel);
      PruneAllIdentity(ns[1..], sel);
      assert ns == [ns[0]] + ns[1..];
    }
  }

  lemma {:induction false} PruneIdentity(n: Node, sel: Selector)
    requires n.Element? ==> NoneMatch(n.children, sel)
    ensures Prune(n, sel) == n
    decreases n, 1
  {
    if n.Element? {
      PruneAllIdentity(n.children, sel);
    }
  }

  /** `removeUnwanted(root, excludeSelectors)`: one removal pass per selector, in list order. */
  function PruneEach(n: Node, sels: seq<Selector>): Node
    decreases |sels|
  {
    if sels == [] then n else Prune(PruneEach(n, sels[..|sels| - 1]), sels[|sels| - 1])
  }

  lemma {:induction false} PruneEachShape(n: Node, sels: seq<Selector>)
    requires n.Element?
    ensures PruneEach(n, sels).Element?
    ensures PruneEach(n, sels).tag == n.tag && PruneEach(n, sels).attrs == n.attrs
    decreases |sels|
  {
    if sels != [] {
      PruneEachShape(n, sels[..|sels| - 1]);
    }
  }

  /**
   * After `removeUnwanted`, no descendant matches any exclude selector, and a
   * selector nothing matched before still matches nothing.
   */
  lemma {:induction false} PruneEachClears(n: Node, sels: seq<Selector>, other: Selector)
    requires n.Element? && NoneMatch(n.children, other)
    ensures PruneEach(n, sels).Element?
    ensures forall i :: 0 <= i < |sels| ==> NoneMatch(PruneEach(n, sels).children, sels[i])
    ensures NoneMatch(PruneEach(n, sels).children, other)
    decreases |sels|
  {
    PruneEachShape(n, sels);
    if sels != [] {
      var init, last := sels[..|sels| - 1], sels[|sels| - 1];
      var before := PruneEach(n, init);
      PruneEachClears(n, init, other);
      PruneEachShape(n, init);
      PruneAllClears(before.children, last);
      PruneAllKeepsClear(before.children, last, other);
      forall i | 0 <= i < |sels| ensures NoneMatch(PruneEach(n, sels).children, sels[i]) {
        if i < |sels| - 1 {
          assert sels[i] == init[i];
          PruneAllKeepsClear(before.children, last, sels[i]);
        }
      }
    }
  }

  // ---------------------------------------------------------------- rewriting attributes

  /** Applies `f` to the attributes of every element of a subtree, the root included. */
  function MapAttrs(n: Node, f: (string, Attrs) -> Attrs): (r: Node)
    ensures n.Element? ==> r.Element? && r.tag == n.tag && r.attrs == f(n.tag, n.attrs)
    ensures n.Text? ==> r == n
    decreases n, 1
  {
    match n
    case Text(_) => n
    case Element(t, a, cs) => Element(t, f(t, a), MapAttrsAll(cs, f))
  }

  function MapAttrsAll(ns: seq<Node>, f: (string, Attrs) -> Attrs): (r: seq<Node>)
    ensures |r| == |ns|
    decreases ns, 0
  {
    if ns == [] then [] else [MapAttrs(ns[0], f)] + MapAttrsAll(ns[1..], f)
  }

  /**
   * `root.querySelectorAll(...).forEach(rewrite)`: the same elements in the same
   * document order, each with its attributes rewritten by `f`.
   */
  lemma {:induction false} MapAttrsInOrder(ns: seq<Node>, f: (string, Attrs) -> Attrs)
    ensures |PreorderAll(MapAttrsAll(ns, f))| == |PreorderAll(ns)|
    ensures forall i :: 0 <= i < |PreorderAll(ns)| ==>
      PreorderAll(MapAttrsAll(ns, f))[i] == MapAttrs(PreorderAll(ns)[i], f)
    decreases ns
  {
    if ns != [] {
      var ms := MapAttrsAll(ns, f);
      assert ms[0] == MapAttrs(ns[0], f) && ms[1..] == MapAttrsAll(ns[1..], f);
      MapAttrsInOrder(ns[1..], f);
      var head, tail := Preorder(ns[0]), PreorderAll(ns[1..]);
      var mhead, mtail := Preorder(ms[0]), PreorderAll(ms[1..]);
      assert PreorderAll(ns) == head + tail;
      assert PreorderAll(ms) == mhead + mtail;
      if ns[0].Element? {
        MapAttrsInOrder(ns[0].children, f);
        assert head == [ns[0]] + PreorderAll(ns[0].children);
        assert mhead == [ms[0]] + PreorderAll(MapAttrsAll(ns[0].children, f));
      }
      assert |mhead| == |head|;
      forall i | 0 <= i < |PreorderAll(ns)|
        ensures PreorderAll(ms)[i] == MapAttrs(PreorderAll(ns)[i], f)
      {
        if i >= |head| {
          assert PreorderAll(ms)[i] == mtail[i - |head|];
          assert PreorderAll(ns)[i] == tail[i - |head|];
        } else if i > 0 {
          assert PreorderAll(ms)[i] == PreorderAll(MapAttrsAll(ns[0].children, f))[i - 1];
          assert PreorderAll(ns)[i] == PreorderAll(ns[0].children)[i - 1];
        }
      }
    }
  }

  /** A rewrite that leaves `other`'s verdict alone cannot create a match of `other`. */
  lemma {:induction false} MapAttrsKeepsClear(ns: seq<Node>, f: (string, Attrs) -> Attrs, other: Selector)
    requires forall t, a :: Matches(other, t, f(t, a)) == Matches(other, t, a)
    requires NoneMatch(ns, other)
    ensures NoneMatch(MapAttrsAll(ns, f), other)
    decreases ns
  {
    if ns != [] {
      MapAttrsKeepsClear(ns[1..], f, other);
      if ns[0].Element? {
        MapAttrsKeepsClear(ns[0].children, f, other);
      }
      assert MapAttrsAll(ns, f) == [MapAttrs(ns[0], f)] + MapAttrsAll(ns[1..], f);
      NoneMatchConcat([MapAttrs(ns[0], f)], MapAttrsAll(ns[1..], f), other);
      assert [MapAttrs(ns[0], f)][1..] == [];
    }
  }

  /** Rewrites `f` to the strict descendants of `n` only, as `root.querySelectorAll` does. */
  function MapBelow(n: Node, f: (string, Attrs) -> Attrs): (r: Node)
    ensures n.Element? ==> r.Element? && r.tag == n.tag && r.attrs == n.attrs
  {
    if n.Element? then Element(n.tag, n.attrs, MapAttrsAll(n.children, f)) else n
  }

  /** The `src` an image has once a non-empty `data-src` has been copied over it. */
  function ImageSource(attrs: Attrs): Option<string> {
    if "data-src" in attrs && attrs["data-src"] != "" then Some(attrs["data-src"]) else AttrValue(attrs, "src")
  }

  /**
   * `fixImages` on one `img`: a non-empty `data-src` replaces `src`; `src` is
   * then made absolute when that succeeds and otherwise kept; `loading` is removed.
   */
  function FixImageAttrs(attrs: Attrs, pageUrl: string, resolve: Resolver): (r: Attrs)
    ensures "loading" !in r
    ensures forall k :: k in attrs && k != "src" && k != "loading" ==> k in r && r[k] == attrs[k]
    ensures forall k :: k in r && k != "src" ==> k in attrs
    ensures "src" in r <==> ImageSource(attrs).Some?
    ensures "src" in r ==>
      var abs := ToAbsolute(ImageSource(attrs), pageUrl, resolve);
      r["src"] == if Truthy(abs) then abs.value else ImageSource(attrs).value
  {
    var copied := if "data-src" in attrs && attrs["data-src"] != "" then attrs["src" := attrs["data-src"]] else attrs;
    var abs := ToAbsolute(AttrValue(copied, "src"), pageUrl, resolve);
    var resolved := if Truthy(abs) then copied["src" := abs.value] else copied;
    resolved - {"loading"}
  }

  /**
   * `fixLinks` on one `a`: an `href` that resolves is replaced by the absolute
   * URL; a missing or unresolvable `href` is left as it is.
   */
  function FixLinkAttrs(attrs: Attrs, pageUrl: string, resolve: Resolver): (r: Attrs)
    ensures forall k :: k != "href" ==> (k in r <==> k in attrs)
    ensures forall k :: k in attrs && k != "href" ==> r[k] == attrs[k]
    ensures "href" in r <==> "href" in attrs
    ensures "href" in r ==>
      var abs := ToAbsolute(Some(attrs["href"]), pageUrl, resolve);
      r["href"] == if Truthy(abs) then abs.value else attrs["href"]
  {
    var abs := ToAbsolute(AttrValue(attrs, "href"), pageUrl, resolve);
    if Truthy(abs) then attrs["href" := abs.value] else attrs
  }

  function ImageRewrite(pageUrl: string, resolve: Resolver): (string, Attrs) -> Attrs {
    (t: string, a: Attrs) => if t == "img" then FixImageAttrs(a, pageUrl, resolve) else a
  }

  function LinkRewrite(pageUrl: string, resolve: Resolver): (string, Attrs) -> Attrs {
    (t: string, a: Attrs) => if t == "a" then FixLinkAttrs(a, pageUrl, resolve) else a
  }

  /** `fixImages(root, pageUrl)` on a subtree value. */
  function FixImages(n: Node, pageUrl: string, resolve: Resolver): Node {
    MapBelow(n, ImageRewrite(pageUrl, resolve))
  }

  /** `fixLinks(root, pageUrl)` on a subtree value. */
  function FixLinks(n: Node, pageUrl: string, resolve: Resolver): Node {
    MapBelow(n, LinkRewrite(pageUrl, resolve))
  }

  /**
   * `fixImages` keeps every descendant, in order and with its tag; it rewrites
   * exactly the `img` elements, none of which keeps a `loading` attribute.
   */
  lemma FixImagesSpec(n: Node, pageUrl: string, resolve: Resolver)
    requires n.Element?
    ensures var r := FixImages(n, pageUrl, resolve);
      |Descendants(r)| == |Descendants(n)| &&
      forall i :: 0 <= i < |Descendants(n)| ==>
        Descendants(r)[i].tag == Descendants(n)[i].tag &&
        Descendants(r)[i].attrs ==
          (if Descendants(n)[i].tag == "img" then FixImageAttrs(Descendants(n)[i].attrs, pageUrl, resolve)
           else Descendants(n)[i].attrs) &&
        (Descendants(r)[i].tag == "img" ==> "loading" !in Descendants(r)[i].attrs)
  {
    MapAttrsInOrder(n.children, ImageRewrite(pageUrl, resolve));
  }

  /**
   * `fixLinks` keeps every descendant, in order and with its tag; it rewrites
   * exactly the `a` elements, and adds an `href` to none of them.
   */
  lemma FixLinksSpec(n: Node, pageUrl: string, resolve: Resolver)
    requires n.Element?
    ensures var r := FixLinks(n, pageUrl, resolve);
      |Descendants(r)| == |Descendants(n)| &&
      forall i :: 0 <= i < |Descendants(n)| ==>
        Descendants(r)[i].tag == Descendants(n)[i].tag &&
        Descendants(r)[i].attrs ==
          (if Descendants(n)[i].tag == "a" then FixLinkAttrs(Descendants(n)[i].attrs, pageUrl, resolve)
           else Descendants(n)[i].attrs) &&
        ("href" in Descendants(r)[i].attrs <==> "href" in Descendants(n)[i].attrs)
  {
    MapAttrsInOrder(n.children, LinkRewrite(pageUrl, resolve));
  }

  // ---------------------------------------------------------------- sanitizeContent

  /** The attributes `fixImages` and `fixLinks` may change. */
  predicate IgnoresRewrittenAttrs(sel: Selector) {
    "src" !in AttrsRead(sel) && "loading" !in AttrsRead(sel) && "href" !in AttrsRead(sel)
  }

  /** The value `sanitizeContent` leaves in the cloned subtree, or `None` when no content selector matches. */
  function Sanitized(doc: Node, pageUrl: string, config: Config, resolve: Resolver): (r: Option<Node>)
    ensures r.None? <==> SelectContent(doc, ContentSelectors(config)).None?
  {
    match SelectContent(doc, ContentSelectors(config))
    case None => None
    case Some(target) =>
      var stripped := PruneEach(Prune(target, ScriptOrStyle), ExcludeSelectors(config));
      Some(FixLinks(FixImages(stripped, pageUrl, resolve), pageUrl, resolve))
  }

  /** An explicitly empty `contentSelector` list selects nothing: the defaults apply only when it is absent. */
  lemma EmptyContentSelectorSelectsNothing(doc: Node, pageUrl: string, excludes: Option<seq<Selector>>, resolve: Resolver)
    ensures Sanitized(doc, pageUrl, Config(Some([]), excludes), resolve).None?
    ensures Sanitized(doc, pageUrl, Config(None, excludes), resolve).None? <==>
      forall i :: 0 <= i < |DefaultSelectors| ==> QueryFirst(doc, DefaultSelectors[i]).None?
  {
  }

  /** Neither rewrite changes the verdict of a selector that does not test `src`, `href` or `loading`. */
  lemma RewritesKeepVerdict(sel: Selector, pageUrl: string, resolve: Resolver)
    requires IgnoresRewrittenAttrs(sel)
    ensures forall t, a :: Matches(sel, t, ImageRewrite(pageUrl, resolve)(t, a)) == Matches(sel, t, a)
    ensures forall t, a :: Matches(sel, t, LinkRewrite(pageUrl, resolve)(t, a)) == Matches(sel, t, a)
  {
    var img, link := ImageRewrite(pageUrl, resolve), LinkRewrite(pageUrl, resolve);
    forall t, a ensures Matches(sel, t, img(t, a)) == Matches(sel, t, a) {
      if t == "img" { MatchesFrame(sel, t, img(t, a), a); }
    }
    forall t, a ensures Matches(sel, t, link(t, a)) == Matches(sel, t, a) {
      if t == "a" { MatchesFrame(sel, t, link(t, a), a); }
    }
  }

  /** The two rewrites keep a subtree free of what a selector they ignore matches. */
  lemma FixesKeepClear(n: Node, pageUrl: string, resolve: Resolver, sel: Selector)
    requires n.Element? && IgnoresRewrittenAttrs(sel) && NoneMatch(n.children, sel)
    ensures NoneMatch(FixLinks(FixImages(n, pageUrl, resolve), pageUrl, resolve).children, sel)
  {
    RewritesKeepVerdict(sel, pageUrl, resolve);
    MapAttrsKeepsClear(n.children, ImageRewrite(pageUrl, resolve), sel);
    MapAttrsKeepsClear(FixImages(n, pageUrl, resolve).children, LinkRewrite(pageUrl, resolve), sel);
  }

  /** After both rewrites, no `img` below the root has a `loading` attribute. */
  lemma FixesLeaveNoLoading(n: Node, pageUrl: string, resolve: Resolver)
    requires n.Element?
    ensures var r := FixLinks(FixImages(n, pageUrl, resolve), pageUrl, resolve);
      forall i :: 0 <= i < |Descendants(r)| && Descendants(r)[i].tag == "img" ==> "loading" !in Descendants(r)[i].attrs
  {
    var m := FixImages(n, pageUrl, resolve);
    FixImagesSpec(n, pageUrl, resolve);
    FixLinksSpec(m, pageUrl, resolve);
  }

  /** `stripScripts` then `removeUnwanted`: no script, style or excluded element is left below the root. */
  lemma StrippedIsClean(target: Node, excludes: seq<Selector>)
    requires target.Element?
    ensures var stripped := PruneEach(Prune(target, ScriptOrStyle), excludes);
      stripped.Element? && stripped.tag == target.tag && stripped.attrs == target.attrs &&
      NoneMatch(stripped.children, ScriptOrStyle) &&
      forall i :: 0 <= i < |excludes| ==> NoneMatch(stripped.children, excludes[i])
  {
    var stripped0 := Prune(target, ScriptOrStyle);
    PruneAllClears(target.children, ScriptOrStyle);
    PruneEachClears(stripped0, excludes, ScriptOrStyle);
    PruneEachShape(stripped0, excludes);
  }

  /**
   * The sanitised subtree holds no `script` or `style`, nothing matching an
   * exclude selector that does not test `src`, `href` or `loading`, and no `img`
   * with a `loading` attribute; the selected root keeps its tag and attributes.
   */
  lemma SanitizedIsClean(doc: Node, pageUrl: string, config: Config, resolve: Resolver)
    requires Sanitized(doc, pageUrl, config, resolve).Some?
    ensures var r := Sanitized(doc, pageUrl, config, resolve).value;
      var target := SelectContent(doc, ContentSelectors(config)).value;
      r.Element? && r.tag == target.tag && r.attrs == target.attrs &&
      NoneMatch(r.children, ScriptOrStyle) &&
      (forall i :: 0 <= i < |ExcludeSelectors(config)| && IgnoresRewrittenAttrs(ExcludeSelectors(config)[i]) ==>
         NoneMatch(r.children, ExcludeSelectors(config)[i])) &&
      (forall i :: 0 <= i < |Descendants(r)| && Descendants(r)[i].tag == "img" ==> "loading" !in Descendants(r)[i].attrs)
  {
    var target := SelectContent(doc, ContentSelectors(config)).value;
    SelectedIsMatchingElement(doc, ContentSelectors(config));
    PassesClean(target, ExcludeSelectors(config), pageUrl, resolve);
  }

  /** The four passes of `sanitizeContent`, applied to an element. */
  lemma PassesClean(target: Node, excludes: seq<Selector>, pageUrl: string, resolve: Resolver)
    requires target.Element?
    ensures var r := FixLinks(FixImages(PruneEach(Prune(target, ScriptOrStyle), excludes), pageUrl, resolve), pageUrl, resolve);
      r.Element? && r.tag == target.tag && r.attrs == target.attrs &&
      NoneMatch(r.children, ScriptOrStyle) &&
      (forall i :: 0 <= i < |excludes| && IgnoresRewrittenAttrs(excludes[i]) ==> NoneMatch(r.children, excludes[i])) &&
      (forall i :: 0 <= i < |Descendants(r)| && Descendants(r)[i].tag == "img" ==> "loading" !in Descendants(r)[i].attrs)
  {
    var stripped := PruneEach(Prune(target, ScriptOrStyle), excludes);
    StrippedIsClean(target, excludes);
    ScriptOrStyleIgnoresRewrites();
    FixesKeepClear(stripped, pageUrl, resolve, ScriptOrStyle);
    forall i | 0 <= i < |excludes| && IgnoresRewrittenAttrs(excludes[i])
      ensures NoneMatch(FixLinks(FixImages(stripped, pageUrl, resolve), pageUrl, resolve).children, excludes[i])
    {
      FixesKeepClear(stripped, pageUrl, resolve, excludes[i]);
    }
    FixesLeaveNoLoading(stripped, pageUrl, resolve);
  }

  lemma ScriptOrStyleIgnoresRewrites()
    ensures IgnoresRewrittenAttrs(ScriptOrStyle)
  {
    var alts := ScriptOrStyle.alternatives;
    assert AttrsRead(alts[0]) == {} && AttrsRead(alts[1]) == {};
    assert AttrsRead(ScriptOrStyle) == {};
  }

  /**
   * The clone `sanitizeContent` works on. The passes of the sanitiser update
   * it in place; the parsed document it was copied from is never touched.
   */
  class Fragment {
    var root: Node

    constructor (clone: Node)
      ensures root == clone
    {
      root := clone;
    }

    /** `stripScripts(root)`. */
    method StripScripts()
      modifies this
      ensures root == Prune(old(root), ScriptOrStyle)
    {
      root := Prune(root, ScriptOrStyle);
    }

    /** `removeUnwanted(root, excludeSelectors)`: one pass per selector. */
    method RemoveUnwanted(excludeSelectors: seq<Selector>)
      modifies this
      ensures root == PruneEach(old(root), excludeSelectors)
    {
      var i := 0;
      while i < |excludeSelectors|
        invariant 0 <= i <= |excludeSelectors|
        invariant root == PruneEach(old(root), excludeSelectors[..i])
      {
        assert excludeSelectors[..i + 1][..i] == excludeSelectors[..i];
        root := Prune(root, excludeSelectors[i]);
        i := i + 1;
      }
      assert excludeSelectors[..i] == excludeSelectors;
    }

    /** `fixImages(root, pageUrl)`. */
    method FixImagesInPlace(pageUrl: string, resolve: Resolver)
      modifies this
      ensures root == FixImages(old(root), pageUrl, resolve)
    {
      root := FixImages(root, pageUrl, resolve);
    }

    /** `fixLinks(root, pageUrl)`. */
    method FixLinksInPlace(pageUrl: string, resolve: Resolver)
      modifies this
      ensures root == FixLinks(old(root), pageUrl, resolve)
    {
      root := FixLinks(root, pageUrl, resolve);
    }
  }

  /**
   * `sanitizeContent(doc, pageUrl, config)`: null when no content selector
   * matches; otherwise a new fragment, cloned from the document and cleaned.
   */
  method SanitizeContent(doc: Node, pageUrl: string, config: Config, resolve: Resolver) returns (target: Fragment?)
    ensures target == null <==> SelectContent(doc, ContentSelectors(config)).None?
    ensures target != null ==> fresh(target) && Some(target.root) == Sanitized(doc, pageUrl, config, resolve)
  {
    var selected := SelectContent(doc, ContentSelectors(config));
    if selected.None? {
      return null;
    }
    target := new Fragment(selected.value);
    target.StripScripts();
    target.RemoveUnwanted(ExcludeSelectors(config));
    target.FixImagesInPlace(pageUrl, resolve);
    target.FixLinksInPlace(pageUrl, resolve);
  }

  // ---------------------------------------------------------------- collectStyles

  /** The absolute URL one element contributes to `collectStyles`, if any. */
  function StylesheetUrl(n: Node, pageUrl: string, resolve: Resolver): Option<string> {
    if !ElementMatches(StylesheetLink, n) then None
    else
      var abs := ToAbsolute(AttrValue(n.attrs, "href"), pageUrl, resolve);
      if Truthy(abs) then abs else None
  }

  /** The stylesheet URLs of the elements `ns`, in their order, duplicates kept. */
  function StylesheetUrls(ns: seq<Node>, pageUrl: string, resolve: Resolver): seq<string>
    decreases |ns|
  {
    if ns == [] then []
    else
      var init := StylesheetUrls(ns[..|ns| - 1], pageUrl, resolve);
      match StylesheetUrl(ns[|ns| - 1], pageUrl, resolve)
      case None => init
      case Some(u) => init + [u]
  }

  /** Stylesheet URLs follow document order: those of a later part come after those of an earlier one. */
  lemma {:induction false} StylesheetUrlsAppend(xs: seq<Node>, ys: seq<Node>, pageUrl: string, resolve: Resolver)
    ensures StylesheetUrls(xs + ys, pageUrl, resolve) ==
            StylesheetUrls(xs, pageUrl, resolve) + StylesheetUrls(ys, pageUrl, resolve)
    decreases |ys|
  {
    if ys == [] {
      assert xs + ys == xs;
    } else {
      var ys' := ys[..|ys| - 1];
      assert (xs + ys)[..|xs + ys| - 1] == xs + ys';
      StylesheetUrlsAppend(xs, ys', pageUrl, resolve);
    }
  }

  /** A URL is collected exactly when some stylesheet link of the elements resolves to it. */
  lemma {:induction false} StylesheetUrlsMembers(ns: seq<Node>, pageUrl: string, resolve: Resolver, u: string)
    ensures u in StylesheetUrls(ns, pageUrl, resolve) <==>
            exists i :: 0 <= i < |ns| && StylesheetUrl(ns[i], pageUrl, resolve) == Some(u)
    decreases |ns|
  {
    if ns != [] {
      var init := ns[..|ns| - 1];
      StylesheetUrlsMembers(init, pageUrl, resolve, u);
      if exists i :: 0 <= i < |ns| && StylesheetUrl(ns[i], pageUrl, resolve) == Some(u) {
        var i :| 0 <= i < |ns| && StylesheetUrl(ns[i], pageUrl, resolve) == Some(u);
        if i < |ns| - 1 {
          assert init[i] == ns[i];
        }
      }
      if exists i :: 0 <= i < |init| && StylesheetUrl(init[i], pageUrl, resolve) == Some(u) {
        var i :| 0 <= i < |init| && StylesheetUrl(init[i], pageUrl, resolve) == Some(u);
        assert ns[i] == init[i];
      }
    }
  }

  /**
   * `rel` is compared ASCII case-insensitively, as an HTML document compares
   * it in attribute selectors: `rel="StyleSheet"` is a stylesheet link too.
   */
  lemma StylesheetLinkMatches(n: Node)
    ensures ElementMatches(StylesheetLink, n) <==>
      n.Element? && n.tag == "link" && "rel" in n.attrs && Lower(n.attrs["rel"]) == "stylesheet"
  {
  }

  lemma DuplicatesKept(link: Node, pageUrl: string, resolve: Resolver)
    requires StylesheetUrl(link, pageUrl, resolve).Some?
    ensures var u := StylesheetUrl(link, pageUrl, resolve).value;
      StylesheetUrls([link, link], pageUrl, resolve) == [u, u]
  {
    assert [link, link][..1] == [link];
    assert [link][..0] == [];
    assert StylesheetUrls([link], pageUrl, resolve) == [StylesheetUrl(link, pageUrl, resolve).value];
  }

  /**
   * `collectStyles(doc, pageUrl)`: walks every element of the document in
   * order and pushes the absolute URL of each stylesheet link whose `href` resolves.
   */
  method CollectStyles(doc: Node, pageUrl: string, resolve: Resolver) returns (styles: seq<string>)
    ensures styles == StylesheetUrls(Preorder(doc), pageUrl, resolve)
  {
    var elements := Preorder(doc);
    styles := [];
    var i := 0;
    while i < |elements|
      invariant 0 <= i <= |elements|
      invariant styles == StylesheetUrls(elements[..i], pageUrl, resolve)
    {
      assert elements[..i + 1][..i] == elements[..i];
      var n := elements[i];
      if ElementMatches(StylesheetLink, n) {
        var href := ToAbsolute(AttrValue(n.attrs, "href"), pageUrl, resolve);
        if Truthy(href) {
          styles := styles + [href.value];
        }
      }
      i := i + 1;
    }
    assert elements[..i] == elements;
  }
}
