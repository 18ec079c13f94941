/**
 * The per-request decision of `proxy` (src/main.rs): the welcome page, a
 * request forwarded to the configured upstream, or 404.
 */
module Dispatch {
  import opened Wrappers
  import opened ConfigParser
  import opened RoutingTable

  type byte = x: int | 0 <= x < 256

  /**
   * What `proxy` looks at in a request: the HTTP method, the first `Host` header
   * value as raw bytes (if there is one), the URI path and the URI
   * path-and-query (if the URI has one).
   */
  datatype Request = Request(verb: string, host: Option<seq<byte>>, path: string, pathAndQuery: Option<string>)

  /** A response produced locally, or the request to send upstream. */
  datatype Outcome =
    | Respond(status: nat, body: string)
    | Forward(verb: string, uri: string)

  const WelcomePage: string :=
    "<html><head><title>MiHTTP</title></head><body><h1>Welcome to MiHTTP</h1><p>Your reverse proxy server is running!</p></body></html>"

  const NotFoundBody: string := "Not Found"

  /** The bytes `HeaderValue::to_str` accepts: visible ASCII, space and tab. */
  predicate IsVisibleAscii(b: byte)
  {
    (32 <= b < 127) || b == 9
  }

  predicate AllVisible(bytes: seq<byte>)
  {
    forall i :: 0 <= i < |bytes| ==> IsVisibleAscii(bytes[i])
  }

  function AsText(bytes: seq<byte>): (s: string)
    ensures |s| == |bytes|
    ensures forall i :: 0 <= i < |bytes| ==> s[i] as int == bytes[i]
  {
    seq(|bytes|, i requires 0 <= i < |bytes| => bytes[i] as char)
  }

  /**
   * The host `proxy` routes on: the header as text, or "" when the header is
   * missing or holds a byte `to_str` rejects.
   */
  function HostOf(header: Option<seq<byte>>): (host: string)
    ensures host != [] ==> header.Some? && AllVisible(header.value) && host == AsText(header.value)
    ensures host == [] <==> header.None? || header.value == [] || !AllVisible(header.value)
  {
    if header.Some? && AllVisible(header.value) then AsText(header.value) else ""
  }

  /** The upstream URI: `proxy_pass` followed by the path and query, if any. */
  function UpstreamUri(proxyPass: string, pathAndQuery: Option<string>): (uri: string)
    ensures proxyPass <= uri
    ensures pathAndQuery.Some? ==> uri[|proxyPass|..] == pathAndQuery.value
    ensures pathAndQuery.None? ==> uri == proxyPass
  {
    proxyPass + pathAndQuery.GetOr("")
  }

  /**
   * `proxy`: the welcome page when there is no usable host or the path is
   * "/", whatever the table holds; otherwise forward when the host names an
   * entry exactly; otherwise 404.
   */
  function Proxy(req: Request, table: map<string, ServerConfig>): (r: Outcome)
    ensures r == Respond(200, WelcomePage) <==> HostOf(req.host) == [] || req.path == "/"
    ensures r.Forward? <==> HostOf(req.host) != [] && req.path != "/" && HostOf(req.host) in table
    ensures r.Forward? ==>
      r.verb == req.verb && r.uri == UpstreamUri(table[HostOf(req.host)].proxyPass, req.pathAndQuery)
    ensures r == Respond(404, NotFoundBody)
      <==> HostOf(req.host) != [] && req.path != "/" && HostOf(req.host) !in table
  {
    var host := HostOf(req.host);
    if host == [] || req.path == "/" then
      Respond(200, WelcomePage)
    else if host in table then
      Forward(req.verb, UpstreamUri(table[host].proxyPass, req.pathAndQuery))
    else
      Respond(404, NotFoundBody)
  }

  /**
   * From configuration text to the outcome of a request: with the table
   * built from what `parse_config` returned, a request is forwarded exactly
   * when its host is the name of some parsed block, to the upstream of the
   * last such block; only a host that is a word can be forwarded.
   */
  lemma {:induction false} ProxyConfigured(text: string, table: map<string, ServerConfig>, req: Request)
    requires ParseConfig(text).Done?
    requires IsTableOf(table, ParseConfig(text).value)
    ensures Proxy(req, table).Forward? <==>
      HostOf(req.host) != [] && req.path != "/"
      && exists c :: c in ParseConfig(text).value && c.servername == HostOf(req.host)
    ensures Proxy(req, table).Forward? ==>
      IsWord(HostOf(req.host)) && LastWith(ParseConfig(text).value, HostOf(req.host)).Some?
    ensures Proxy(req, table).Forward? ==>
      Proxy(req, table).uri
      == UpstreamUri(LastWith(ParseConfig(text).value, HostOf(req.host)).value.proxyPass, req.pathAndQuery)
  {
    var configs := ParseConfig(text).value;
    var host := HostOf(req.host);
    ParseConfigWords(text);
    if host != [] && req.path != "/" && exists c :: c in configs && c.servername == host {
      assert host in Names(configs);
      TableKeysAreNames(table, configs, host);
      assert table[host] in configs;
    }
  }
}
