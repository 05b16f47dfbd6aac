/**
 * An abstract HTML document tree and the part of CSS selector matching the
 * crawler relies on: `querySelector` (first match in document order) and
 * `querySelectorAll` (every match in document order).
 */
module Dom {
  import opened Common

  type Attrs = map<string, string>

  /** `getAttribute(name)`: the value, or `None` for an absent attribute. */
  function AttrValue(attrs: Attrs, name: string): Option<string> {
    if name in attrs then Some(attrs[name]) else None
  }

  /** A DOM node: an element (lower-case tag name, attributes, children) or a text node. */
  datatype Node =
    | Element(tag: string, attrs: Attrs, children: seq<Node>)
    | Text(text: string)

  /**
   * The selector forms the crawler uses. Each one is decided by an element's own
   * tag and attributes. An attribute selector is `folded` when its attribute is
   * one whose value an HTML document compares ASCII case-insensitively (`rel`,
   * `type`, `media`, `lang` and the others the HTML standard lists for
   * selectors); its `value` is then written in lower case.
   */
  datatype Selector =
    | Type(name: string)                                       // `main`
    | Class(name: string)                                      // `.content`
    | TypeWithAttr(name: string, attr: string, value: string, folded: bool)  // `link[rel="stylesheet"]`
    | AnyOf(alternatives: seq<Selector>)                       // `script, style`

  /** ASCII whitespace, which separates the tokens of a `class` attribute. */
  predicate IsAsciiSpace(c: char) {
    c == ' ' || c == '\t' || c == '\n' || c == '\U{C}' || c == '\r'
  }

  /** Length of the leading run of non-whitespace characters of `s`. */
  function WordLength(s: string): (k: nat)
    ensures k <= |s|
    ensures forall i :: 0 <= i < k ==> !IsAsciiSpace(s[i])
    ensures k == |s| || IsAsciiSpace(s[k])
  {
    if s == [] || IsAsciiSpace(s[0]) then 0 else 1 + WordLength(s[1..])
  }

  /** True when the whitespace-separated token list `s` contains `w`. */
  predicate HasToken(s: string, w: string)
    decreases |s|
  {
    if s == [] then false
    else if IsAsciiSpace(s[0]) then HasToken(s[1..], w)
    else s[..WordLength(s)] == w || HasToken(s[WordLength(s)..], w)
  }

  predicate Matches(sel: Selector, tag: string, attrs: Attrs)
    decreases sel
  {
    match sel
    case Type(n) => tag == n
    case Class(n) => "class" in attrs && HasToken(attrs["class"], n)
    case TypeWithAttr(n, a, v, folded) => tag == n && a in attrs && (if folded then Lower(attrs[a]) else attrs[a]) == v
    case AnyOf(alts) => exists i :: 0 <= i < |alts| && Matches(alts[i], tag, attrs)
  }

  predicate ElementMatches(sel: Selector, n: Node) {
    n.Element? && Matches(sel, n.tag, n.attrs)
  }

  /** The attribute names whose values can decide whether `sel` matches. */
  function AttrsRead(sel: Selector): set<string>
    decreases sel
  {
    match sel
    case Type(_) => {}
    case Class(_) => {"class"}
    case TypeWithAttr(_, a, _, _) => {a}
    case AnyOf(alts) => set i, k | 0 <= i < |alts| && k in AttrsRead(alts[i]) :: k
  }

  /** Two attribute maps that agree on the names `sel` reads get the same verdict. */
  lemma {:induction false} MatchesFrame(sel: Selector, tag: string, a1: Attrs, a2: Attrs)
    requires forall k :: k in AttrsRead(sel) ==> (k in a1 <==> k in a2) && (k in a1 ==> a1[k] == a2[k])
    ensures Matches(sel, tag, a1) == Matches(sel, tag, a2)
    decreases sel
  {
    match sel
    case AnyOf(alts) =>
      forall i | 0 <= i < |alts|
        ensures Matches(alts[i], tag, a1) == Matches(alts[i], tag, a2)
      {
        MatchesFrame(alts[i], tag, a1, a2);
      }
    case _ =>
  }

  /** The elements of `n` (itself first) in document order. */
  function Preorder(n: Node): (r: seq<Node>)
    ensures forall i :: 0 <= i < |r| ==> r[i].Element?
    ensures n.Element? ==> r != [] && r[0] == n
    decreases n, 1
  {
    match n
    case Text(_) => []
    case Element(_, _, cs) => [n] + PreorderAll(cs)
  }

  /** The elements of the forest `ns` in document order. */
  function PreorderAll(ns: seq<Node>): (r: seq<Node>)
    ensures forall i :: 0 <= i < |r| ==> r[i].Element?
    decreases ns, 0
  {
    if ns == [] then [] else Preorder(ns[0]) + PreorderAll(ns[1..])
  }

  /** The strict descendants of `n` in document order: what `n.querySelectorAll` ranges over. */
  function Descendants(n: Node): seq<Node> {
    if n.Element? then PreorderAll(n.children) else []
  }

  /** Index of the first node of `ns` that is an element matching `sel`. */
  function FirstMatch(ns: seq<Node>, sel: Selector): (r: Option<nat>)
    ensures r.Some? ==> r.value < |ns| && ElementMatches(sel, ns[r.value])
    ensures r.Some? ==> forall j :: 0 <= j < r.value ==> !ElementMatches(sel, ns[j])
    ensures r.None? ==> forall j :: 0 <= j < |ns| ==> !ElementMatches(sel, ns[j])
  {
    if ns == [] then None
    else if ElementMatches(sel, ns[0]) then Some(0)
    else match FirstMatch(ns[1..], sel)
      case None => None
      case Some(k) => Some(k + 1)
  }

  /** `document.querySelector(sel)` on a document whose root element is `root`. */
  function QueryFirst(root: Node, sel: Selector): Option<Node> {
    match FirstMatch(Preorder(root), sel)
    case None => None
    case Some(k) => Some(Preorder(root)[k])
  }

  /** No element anywhere in the forest `ns` matches `sel`. */
  predicate NoneMatch(ns: seq<Node>, sel: Selector)
    decreases ns
  {
    ns == [] ||
    ((ns[0].Element? ==> !Matches(sel, ns[0].tag, ns[0].attrs) && NoneMatch(ns[0].children, sel)) &&
     NoneMatch(ns[1..], sel))
  }

  lemma {:induction false} NoneMatchConcat(a: seq<Node>, b: seq<Node>, sel: Selector)
    ensures NoneMatch(a + b, sel) <==> NoneMatch(a, sel) && NoneMatch(b, sel)
    decreases a
  {
    if a != [] {
      assert (a + b)[0] == a[0] && (a + b)[1..] == a[1..] + b;
      NoneMatchConcat(a[1..], b, sel);
    } else {
      assert a + b == b;
    }
  }

  /** No node of `xs` is an element matching `sel`. */
  predicate NoneOf(xs: seq<Node>, sel: Selector) {
    forall i :: 0 <= i < |xs| ==> !ElementMatches(sel, xs[i])
  }

  lemma NoneOfConcat(a: seq<Node>, b: seq<Node>, sel: Selector)
    ensures NoneOf(a + b, sel) <==> NoneOf(a, sel) && NoneOf(b, sel)
  {
    if NoneOf(a, sel) && NoneOf(b, sel) {
      forall i | 0 <= i < |a + b| ensures !ElementMatches(sel, (a + b)[i]) {
        if i >= |a| {
          assert (a + b)[i] == b[i - |a|];
        }
      }
    }
    if NoneOf(a + b, sel) {
      forall i | 0 <= i < |a| ensures !ElementMatches(sel, a[i]) {
        assert (a + b)[i] == a[i];
      }
      forall i | 0 <= i < |b| ensures !ElementMatches(sel, b[i]) {
        assert (a + b)[|a| + i] == b[i];
      }
    }
  }

  /** `NoneMatch` says exactly that no element visited in document order matches. */
  lemma {:induction false} NoneMatchInOrder(ns: seq<Node>, sel: Selector)
    ensures NoneMatch(ns, sel) <==> NoneOf(PreorderAll(ns), sel)
    decreases ns
  {
    if ns != [] {
      NoneMatchInOrder(ns[1..], sel);
      var head, tail := Preorder(ns[0]), PreorderAll(ns[1..]);
      NoneOfConcat(head, tail, sel);
      if ns[0].Element? {
        NoneMatchInOrder(ns[0].children, sel);
        NoneOfConcat([ns[0]], PreorderAll(ns[0].children), sel);
      }
    }
  }

  /** `textContent`: the text of every text node below `n`, in document order. */
  function TextContent(n: Node): string
    decreases n, 1
  {
    match n
    case Text(t) => t
    case Element(_, _, cs) => TextContentAll(cs)
  }

  function TextContentAll(ns: seq<Node>): string
    decreases ns, 0
  {
    if ns == [] then "" else TextContent(ns[0]) + TextContentAll(ns[1..])
  }
}
