/**
 * The URL helpers of the content parser: making a link absolute and dropping
 * a URL's fragment. URL parsing itself (the "URL parser" of the WHATWG URL
 * Standard, reached through `new URL(input, base).toString()`) is a parameter.
 */
module Urls {
  import opened Common

  /**
   * `new URL(input, base).toString()`: `Some` of the serialised absolute URL,
   * or `None` where the constructor throws.
   */
  type Resolver = (string, string) -> Option<string>

  /** `toAbsolute(link, baseUrl)`: null for a missing or empty link, or when parsing throws. */
  function ToAbsolute(link: Option<string>, base: string, resolve: Resolver): (r: Option<string>)
    ensures r.Some? <==> Truthy(link) && resolve(link.value, base).Some?
    ensures r.Some? ==> r == resolve(link.value, base)
  {
    if !Truthy(link) then None else resolve(link.value, base)
  }

  /** A serialised URL cut just before its first `#`, i.e. with the fragment cleared. */
  function BeforeHash(u: string): (r: string)
    ensures |r| <= |u| && r == u[..|r|]
    ensures '#' !in r
    ensures |r| < |u| ==> u[|r|] == '#'
  {
    if u == [] || u[0] == '#' then [] else [u[0]] + BeforeHash(u[1..])
  }

  /**
   * `stripHash(url)`: the URL re-serialised with an empty fragment, or the
   * input unchanged when it cannot be parsed against `baseUri`.
   */
  function StripHash(url: string, baseUri: string, resolve: Resolver): (r: string)
    ensures resolve(url, baseUri).None? ==> r == url
    ensures resolve(url, baseUri).Some? ==>
      var u := resolve(url, baseUri).value;
      '#' !in r && |r| <= |u| && r == u[..|r|] && (|r| == |u| || u[|r|] == '#')
  {
    match resolve(url, baseUri)
    case None => url
    case Some(u) => BeforeHash(u)
  }

  /** Cutting at the fragment twice is cutting once. */
  lemma BeforeHashIdempotent(u: string)
    ensures BeforeHash(BeforeHash(u)) == BeforeHash(u)
  {
    var r := BeforeHash(u);
    assert |BeforeHash(r)| == |r|;
  }
}
