/**
 Proxy URL decoration (`decorateProxyUrl` / `undecorateProxyUrl`). A remote
 data file is fetched through the application's own `/proxy` route, whose
 `url` query parameter carries the real address.

 Node's `url.parse(…, true)` and `encodeURIComponent` are library code: the
 model receives them as functions in a `UrlLib`, with the parsed URL reduced
 to the two parts the utilities read.
 */
module Proxy {
  import opened Collections

  /** What the utilities read of `url.parse(u, true)`: the path and the `url` query value. */
  datatype ParsedUrl = ParsedUrl(pathname: Option<string>, queryUrl: Option<string>)

  datatype UrlLib = UrlLib(parse: string -> ParsedUrl, encode: string -> string)

  const ProxyPath: string := "/proxy"
  const ProxyPrefix: string := "/proxy?url="

  /**
   The test of `undecorateProxyUrl`: the path is `/proxy` and the `url`
   parameter is truthy, i.e. present and non-empty.
   */
  predicate IsProxied(p: ParsedUrl) {
    p.pathname == Some(ProxyPath) && p.queryUrl.Some? && p.queryUrl.value != ""
  }

  /** `undecorateProxyUrl`: the wrapped address of a proxy URL, any other input unchanged. */
  function Undecorate(lib: UrlLib, u: string): (r: string)
    ensures r != u ==> IsProxied(lib.parse(u))
    ensures IsProxied(lib.parse(u)) ==> r == lib.parse(u).queryUrl.value
  {
    var parsed := lib.parse(u);
    if parsed.pathname.Some? && parsed.pathname.value != "" && IsProxied(parsed) then
      parsed.queryUrl.value
    else
      u
  }

  /** `decorateProxyUrl`: the proxy route wrapping the encoded, undecorated address. */
  function Decorate(lib: UrlLib, u: string): (r: string)
    ensures |r| >= |ProxyPrefix| && r[..|ProxyPrefix|] == ProxyPrefix
    ensures r[|ProxyPrefix|..] == lib.encode(Undecorate(lib, u))
  {
    ProxyPrefix + lib.encode(Undecorate(lib, u))
  }

  /**
   What Node guarantees of the two library calls together: parsing the proxy
   route built from an encoded non-empty address gives back the path
   `/proxy` and the address itself as the `url` parameter.
   */
  ghost predicate ProxyRoundTrips(lib: UrlLib) {
    forall a :: a != "" ==> lib.parse(ProxyPrefix + lib.encode(a)) == ParsedUrl(Some(ProxyPath), Some(a))
  }

  /**
   Undecorating a decorated URL gives the address it wraps, as long as that
   address is not empty.
   */
  lemma UndecorateDecorate(lib: UrlLib, u: string)
    requires ProxyRoundTrips(lib)
    requires Undecorate(lib, u) != ""
    ensures Undecorate(lib, Decorate(lib, u)) == Undecorate(lib, u)
  {
  }

  /** Decorating twice is decorating once: a decorated URL is not wrapped again. */
  lemma DecorateIdempotent(lib: UrlLib, u: string)
    requires ProxyRoundTrips(lib)
    requires Undecorate(lib, u) != ""
    ensures Decorate(lib, Decorate(lib, u)) == Decorate(lib, u)
  {
  }

  /**
   The empty address does not round-trip: `/proxy?url=` carries an empty,
   hence falsy, `url` parameter, so undecorating it returns the route itself,
   and decorating it again wraps the route a second time.
   */
  lemma EmptyAddressDoesNotRoundTrip(lib: UrlLib)
    requires lib.encode("") == ""
    requires lib.parse(ProxyPrefix) == ParsedUrl(Some(ProxyPath), Some(""))
    requires lib.parse("").pathname.None?
    ensures Undecorate(lib, Decorate(lib, "")) == ProxyPrefix
    ensures Undecorate(lib, "") == ""
    ensures Decorate(lib, Decorate(lib, "")) == ProxyPrefix + lib.encode(ProxyPrefix)
  {
    assert ProxyPrefix + "" == ProxyPrefix;
  }
}
