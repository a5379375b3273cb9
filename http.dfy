/**
 * The request description of the `fire` binary (src/http.rs): verbs, which
 * verbs carry a body, the URL prefix rule and the headers sent with a
 * request. URL parsing is a parameter: the model only reads whether a parsed
 * URL has a host.
 */
module Http {
  import opened Wrappers
  import opened Text
  import opened Headers

  datatype Verb = Get | Head | Post | Put | Delete | Connect | Options | Trace | Patch

  datatype BodyStatus = Permitted | Discouraged | Forbidden

  /** `Verb::body`: whether a request with this verb should carry a body. */
  function BodyOf(v: Verb): (s: BodyStatus)
    ensures s == Forbidden <==> v == Trace
    ensures s == Permitted <==> v == Post || v == Put || v == Patch
  {
    match v
    case Get => Discouraged
    case Head => Discouraged
    case Post => Permitted
    case Put => Permitted
    case Delete => Discouraged
    case Connect => Discouraged
    case Options => Discouraged
    case Trace => Forbidden
    case Patch => Permitted
  }

  /** `Display for Verb`: the method's name as it goes on the wire. */
  function Name(v: Verb): string {
    match v
    case Get => "GET"
    case Head => "HEAD"
    case Post => "POST"
    case Put => "PUT"
    case Delete => "DELETE"
    case Connect => "CONNECT"
    case Options => "OPTIONS"
    case Trace => "TRACE"
    case Patch => "PATCH"
  }

  predicate IsUpperWord(s: string) {
    s != [] && forall i :: 0 <= i < |s| ==> 'A' <= s[i] <= 'Z'
  }

  /** Every name is a non-empty upper-case word, and no two verbs share one. */
  lemma NamesUpperAndDistinct(v: Verb, w: Verb)
    ensures IsUpperWord(Name(v))
    ensures Name(v) == Name(w) ==> v == w
  {
    if Name(v) == Name(w) {
      assert Name(v)[0] == Name(w)[0] && |Name(v)| == |Name(w)|;
      if |Name(v)| > 1 {
        assert Name(v)[1] == Name(w)[1];
      }
    }
  }

  /** The verbs whose body `body_size` counts. */
  predicate CountsBody(v: Verb) {
    v == Post || v == Put || v == Delete || v == Patch
  }

  /** What the model reads of a parsed URL: `host_str`. */
  datatype Url = Url(host: Option<string>)

  /** The string `url()` hands to the URL parser: kept when it names its scheme, else given `https://`. */
  function UrlInput(url: string): (r: string)
    ensures StartsWith(r, "http://") || StartsWith(r, "https://")
    ensures (StartsWith(url, "http://") || StartsWith(url, "https://")) ==> r == url
    ensures !(StartsWith(url, "http://") || StartsWith(url, "https://")) ==> r == "https://" + url
  {
    if StartsWith(url, "http://") || StartsWith(url, "https://") then url else "https://" + url
  }

  /** The rule adds a scheme at most once: applying it again changes nothing. */
  lemma UrlInputIdempotent(url: string)
    ensures UrlInput(UrlInput(url)) == UrlInput(url)
  {
  }

  /** A URL without a scheme is read as `https` and keeps its text after the prefix. */
  lemma UrlInputAddsHttps(url: string)
    requires !StartsWith(url, "http://") && !StartsWith(url, "https://")
    ensures StartsWith(UrlInput(url), "https://") && UrlInput(url)[8..] == url
  {
  }

  /** `HttpRequest::url`, with `Url::parse` as a parameter. */
  function ParsedUrl(url: string, parse: string -> Option<Url>): Option<Url> {
    parse(UrlInput(url))
  }

  datatype HttpRequest = HttpRequest(verb: Verb, url: string, body: Option<string>, headers: Option<Headers>)

  /** `body_size`: the body's length in bytes, counted for POST, PUT, DELETE and PATCH only. */
  function BodySize(verb: Verb, body: Option<string>): (n: nat)
    ensures !CountsBody(verb) || body.None? ==> n == 0
    ensures CountsBody(verb) && body.Some? ==> n == Utf8Len(body.value)
  {
    if CountsBody(verb) then
      match body
      case Some(b) => Utf8Len(b)
      case None => 0
    else 0
  }

  /** `has_body`: the size is not zero. */
  function HasBody(verb: Verb, body: Option<string>): (b: bool)
    ensures b <==> BodySize(verb, body) != 0
  {
    BodySize(verb, body) != 0
  }

  /** A request has a body exactly when its verb counts one and the body is present and non-empty. */
  lemma HasBodyIff(verb: Verb, body: Option<string>)
    ensures HasBody(verb, body) <==> CountsBody(verb) && body.Some? && body.value != []
  {
    if body.Some? {
      Utf8LenBounds(body.value);
    }
  }

  /** A body is never counted for GET, HEAD, CONNECT, OPTIONS and TRACE. */
  lemma BodyIgnored(verb: Verb, body: Option<string>)
    requires verb in [Get, Head, Connect, Options, Trace]
    ensures BodySize(verb, body) == 0 && !HasBody(verb, body)
  {
  }

  /**
   * `HttpRequest::header`: a name `HeaderKey::from_str` rejects, or a request
   * without explicit headers, gives None; otherwise the explicit value. The
   * defaults of `Headers` are never seen here.
   */
  function Header(req: HttpRequest, key: string, parseKey: string -> Option<string>): (r: Option<string>)
    ensures parseKey(key).None? || req.headers.None? ==> r.None?
    ensures r.Some? <==> parseKey(key).Some? && req.headers.Some? && parseKey(key).value in req.headers.value
    ensures r.Some? ==> r.value == req.headers.value[parseKey(key).value]
  {
    match parseKey(key)
    case None => None
    case Some(k) =>
      match req.headers
      case None => None
      case Some(hs) => if k in hs then Some(hs[k]) else None
  }

  /**
   * `HttpRequest::headers`: the explicit headers, then `host` (when the parsed
   * URL has a host), `user-agent` and `content-length` put in if absent. The
   * URL must parse, since the code unwraps it.
   */
  method RequestHeaders(req: HttpRequest, parse: string -> Option<Url>) returns (headers: Headers)
    requires ParsedUrl(req.url, parse).Some?
    ensures var explicit := if req.headers.Some? then req.headers.value else map[];
      var host := ParsedUrl(req.url, parse).value.host;
      && (forall k :: k in explicit ==> k in headers && headers[k] == explicit[k])
      && headers.Keys == explicit.Keys + {UserAgentKey, ContentLengthKey} + (if host.Some? then {HostKey} else {})
      && (UserAgentKey !in explicit ==> headers[UserAgentKey] == UserAgent)
      && (ContentLengthKey !in explicit ==> headers[ContentLengthKey] == Decimal(BodySize(req.verb, req.body)))
      && (host.Some? && HostKey !in explicit ==> headers[HostKey] == host.value)
  {
    var m := new HeaderMap(if req.headers.Some? then req.headers.value else map[]);
    var url := ParsedUrl(req.url, parse).value;
    if url.host.Some? {
      m.PutIfAbsent(HostKey, url.host.value);
    }
    var bodySize := Decimal(BodySize(req.verb, req.body));
    m.PutIfAbsent(UserAgentKey, UserAgent);
    m.PutIfAbsent(ContentLengthKey, bodySize);
    headers := m.entries;
  }
}
