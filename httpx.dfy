/**
 * The request type of the `httpx` crate (httpx/src/lib.rs), which keeps its
 * method as an `http::Method` and its headers in a `HeaderMap`. Header names
 * and values are validated by `HeaderName::from_str` and
 * `HeaderValue::from_str`, both parameters here.
 */
module Httpx {
  import opened Wrappers
  import opened Text
  import opened Headers
  import Http

  /** `http::Method`: the nine standard methods and any extension method. */
  datatype Method = GET | HEAD | POST | PUT | DELETE | CONNECT | OPTIONS | TRACE | PATCH | Extension(name: string)

  /** The methods whose body `body_size` counts. */
  predicate CountsBody(m: Method) {
    m == PUT || m == POST || m == DELETE || m == PATCH
  }

  /** `body_size`: the body's length in bytes, for PUT, POST, DELETE and PATCH only. */
  function BodySize(m: Method, body: Option<string>): (n: nat)
    ensures !CountsBody(m) || body.None? ==> n == 0
    ensures CountsBody(m) && body.Some? ==> n == Utf8Len(body.value)
  {
    match m
    case PUT | POST | DELETE | PATCH =>
      (match body
       case Some(b) => Utf8Len(b)
       case None => 0)
    case _ => 0
  }

  /** `has_body`: the size is not zero. */
  function HasBody(m: Method, body: Option<string>): (b: bool)
    ensures b <==> BodySize(m, body) != 0
  {
    BodySize(m, body) != 0
  }

  /** A request has a body exactly when its method counts one and the body is present and non-empty. */
  lemma HasBodyIff(m: Method, body: Option<string>)
    ensures HasBody(m, body) <==> CountsBody(m) && body.Some? && body.value != []
  {
    if body.Some? {
      Utf8LenBounds(body.value);
    }
  }

  /** An extension method never counts its body. */
  lemma ExtensionIgnoresBody(name: string, body: Option<string>)
    ensures BodySize(Extension(name), body) == 0
  {
  }

  datatype InvalidHeader = Key(key: string) | Value(value: string)

  /**
   * The `header` helper: a name the validator refuses gives `Key(name)`; a
   * value is checked only after the name passes, and a refused one gives
   * `Value(value)`.
   */
  function MakeHeader(key: string, value: string, validName: string -> bool, validValue: string -> bool)
    : (r: Result<(string, string), InvalidHeader>)
    ensures r.Ok? <==> validName(key) && validValue(value)
    ensures r.Ok? ==> r.value == (key, value)
    ensures !validName(key) ==> r == Err(Key(key))
    ensures validName(key) && !validValue(value) ==> r == Err(Value(value))
  {
    if !validName(key) then Err(Key(key))
    else if !validValue(value) then Err(Value(value))
    else Ok((key, value))
  }

  /** The error of the first default the helper refuses, if any. */
  function FirstInvalid(defaults: seq<(string, string)>, validName: string -> bool, validValue: string -> bool)
    : (r: Option<InvalidHeader>)
    ensures r.None? <==> forall i :: 0 <= i < |defaults| ==> MakeHeader(defaults[i].0, defaults[i].1, validName, validValue).Ok?
  {
    if defaults == [] then None
    else match MakeHeader(defaults[0].0, defaults[0].1, validName, validValue)
      case Err(e) => Some(e)
      case Ok(_) => FirstInvalid(defaults[1..], validName, validValue)
  }

  /** Defaults the helper accepted do not change which refusal comes first. */
  lemma {:induction false} FirstInvalidAfterValid(valid: seq<(string, string)>, rest: seq<(string, string)>,
                                                  validName: string -> bool, validValue: string -> bool)
    requires forall i :: 0 <= i < |valid| ==> MakeHeader(valid[i].0, valid[i].1, validName, validValue).Ok?
    ensures FirstInvalid(valid + rest, validName, validValue) == FirstInvalid(rest, validName, validValue)
  {
    if valid != [] {
      assert (valid + rest)[0] == valid[0];
      assert (valid + rest)[1..] == valid[1..] + rest;
      FirstInvalidAfterValid(valid[1..], rest, validName, validValue);
    } else {
      assert valid + rest == rest;
    }
  }

  class HttpRequest {
    const httpMethod: Method
    const url: string
    const body: Option<string>
    var headers: Headers

    constructor (m: Method, url: string, body: Option<string>, headers: Headers)
      ensures this.httpMethod == m && this.url == url && this.body == body && this.headers == headers
    {
      this.httpMethod := m;
      this.url := url;
      this.body := body;
      this.headers := headers;
    }

    /**
     * `set_default_headers`: every `?` runs while the defaults are built, so
     * a refused default returns its error before the header map is touched;
     * otherwise each default is put in when its name is absent.
     */
    method SetDefaultHeaders(parse: string -> Option<Http.Url>, validName: string -> bool, validValue: string -> bool)
      returns (r: Result<(), InvalidHeader>)
      requires Http.ParsedUrl(url, parse).Some?
      modifies this
      ensures var defaults := DefaultHeaders(Http.ParsedUrl(url, parse).value.host, HasBody(httpMethod, body), BodySize(httpMethod, body));
        && (r.Ok? <==> FirstInvalid(defaults, validName, validValue).None?)
        && (r.Err? ==> r.error == FirstInvalid(defaults, validName, validValue).value && headers == old(headers))
        && (r.Ok? ==> headers == DefaultedAll(old(headers), defaults))
    {
      var default: seq<(string, string)> := [];
      var host := Http.ParsedUrl(url, parse).value.host;
      if host.Some? {
        var h := MakeHeader(HostKey, host.value, validName, validValue);
        if h.Err? {
          return Err(h.error);
        }
        default := default + [(HostKey, host.value)];
      }
      assert default == (if host.Some? then [(HostKey, host.value)] else []);
      if HasBody(httpMethod, body) {
        var contentLength := Decimal(BodySize(httpMethod, body));
        var h := MakeHeader(ContentLengthKey, contentLength, validName, validValue);
        if h.Err? {
          FirstInvalidAfterValid(default, [(ContentLengthKey, contentLength), (UserAgentKey, UserAgent)], validName, validValue);
          assert DefaultHeaders(host, true, BodySize(httpMethod, body))
            == default + [(ContentLengthKey, contentLength), (UserAgentKey, UserAgent)];
          return Err(h.error);
        }
        default := default + [(ContentLengthKey, contentLength)];
      }
      var h := MakeHeader(UserAgentKey, UserAgent, validName, validValue);
      if h.Err? {
        FirstInvalidAfterValid(default, [(UserAgentKey, UserAgent)], validName, validValue);
        assert DefaultHeaders(host, HasBody(httpMethod, body), BodySize(httpMethod, body)) == default + [(UserAgentKey, UserAgent)];
        return Err(h.error);
      }
      default := default + [(UserAgentKey, UserAgent)];
      assert default == DefaultHeaders(host, HasBody(httpMethod, body), BodySize(httpMethod, body));
      InsertDefaults(default);
      r := Ok(());
    }

    /** The `for_each` of `set_default_headers`: `entry(key).or_insert(value)` for each default in turn. */
    method InsertDefaults(default: seq<(string, string)>)
      modifies this
      ensures headers == DefaultedAll(old(headers), default)
    {
      var i := 0;
      while i < |default|
        invariant 0 <= i <= |default|
        invariant headers == DefaultedAll(old(headers), default[..i])
      {
        var (key, value) := default[i];
        assert default[..i + 1][..i] == default[..i];
        if key !in headers {
          headers := headers[key := value];
        }
        i := i + 1;
      }
      assert default[..i] == default;
    }
  }

  /**
   * With valid defaults, `set_default_headers` succeeds: explicit headers are
   * untouched, `user-agent` is there, `content-length` is added only with a
   * body, `host` only with a host, nothing else.
   */
  lemma SetDefaultsOutcome(explicit: Headers, host: Option<string>, m: Method, body: Option<string>)
    ensures var r := DefaultedAll(explicit, DefaultHeaders(host, HasBody(m, body), BodySize(m, body)));
      && (forall k :: k in explicit ==> k in r && r[k] == explicit[k])
      && UserAgentKey in r && (UserAgentKey !in explicit ==> r[UserAgentKey] == UserAgent)
      && (ContentLengthKey in r - explicit.Keys <==> ContentLengthKey !in explicit && HasBody(m, body))
      && (ContentLengthKey !in explicit && HasBody(m, body) ==> r[ContentLengthKey] == Decimal(BodySize(m, body)))
      && (HostKey in r - explicit.Keys <==> HostKey !in explicit && host.Some?)
      && r.Keys <= explicit.Keys + {HostKey, ContentLengthKey, UserAgentKey}
  {
    DefaultsApplied(explicit, host, HasBody(m, body), BodySize(m, body));
  }

  /** A refused `user-agent` name makes defaulting fail with `Key("user-agent")`, whatever else holds. */
  lemma RefusedUserAgentName(host: Option<string>, hasBody: bool, size: nat, validName: string -> bool, validValue: string -> bool)
    requires validName(HostKey) && validName(ContentLengthKey) && !validName(UserAgentKey)
    requires host.Some? ==> validValue(host.value)
    requires hasBody ==> validValue(Decimal(size))
    ensures FirstInvalid(DefaultHeaders(host, hasBody, size), validName, validValue) == Some(Key(UserAgentKey))
  {
    var d := DefaultHeaders(host, hasBody, size);
    var front := d[..|d| - 1];
    assert d == front + [(UserAgentKey, UserAgent)];
    assert forall i :: 0 <= i < |front| ==> front[i].0 == HostKey || front[i].0 == ContentLengthKey;
    FirstInvalidAfterValid(front, [(UserAgentKey, UserAgent)], validName, validValue);
  }
}
