/**
 * The request and response types of the `http` crate (http/src/lib.rs). The
 * request owns its header map and `set_default_headers` updates it in place.
 * Its verbs and the rules on them are those of module Http, which this crate
 * repeats word for word.
 */
module HttpCrate {
  import opened Wrappers
  import opened Text
  import opened Headers
  import opened Http

  /**
   * The crate's `headers::header` helper, which turns a name and a value into
   * a `Header` or an `Error`, is a parameter: `check(name, value)` is None when
   * it accepts the pair as it is, and Some(error) when it refuses it.
   */
  function FirstRefusal<E>(defaults: seq<(string, string)>, check: (string, string) -> Option<E>): (r: Option<E>)
    ensures r.None? <==> forall i :: 0 <= i < |defaults| ==> check(defaults[i].0, defaults[i].1).None?
  {
    if defaults == [] then None
    else if check(defaults[0].0, defaults[0].1).Some? then check(defaults[0].0, defaults[0].1)
    else FirstRefusal(defaults[1..], check)
  }

  class HttpRequest {
    const verb: Verb
    const url: string
    const body: Option<string>
    var headers: Headers

    constructor (verb: Verb, url: string, body: Option<string>, headers: Headers)
      ensures this.verb == verb && this.url == url && this.body == body && this.headers == headers
    {
      this.verb := verb;
      this.url := url;
      this.body := body;
      this.headers := headers;
    }

    /** `body_size`, by the rule of module Http. */
    function BodySize(): (n: nat)
      ensures n == Http.BodySize(verb, body)
    {
      Http.BodySize(verb, body)
    }

    /** `has_body`. */
    function HasBody(): (b: bool)
      ensures b <==> BodySize() != 0
    {
      BodySize() != 0
    }

    /** `header`: a name `Key::from_str` rejects gives None, otherwise the stored value if any. */
    function Header(key: string, parseKey: string -> Option<string>): (r: Option<string>)
      reads this
      ensures r.Some? <==> parseKey(key).Some? && parseKey(key).value in headers
      ensures r.Some? ==> r.value == headers[parseKey(key).value]
    {
      match parseKey(key)
      case None => None
      case Some(k) => if k in headers then Some(headers[k]) else None
    }

    /**
     * `set_default_headers`: build `host` (when the URL has a host),
     * `content-length` (when there is a body) and `user-agent`, stopping at
     * the first the helper refuses; only once all three are built, put each
     * in when its name is absent.
     */
    method SetDefaultHeaders<E>(parse: string -> Option<Url>, check: (string, string) -> Option<E>)
      returns (r: Result<(), E>)
      requires ParsedUrl(url, parse).Some?
      modifies this
      ensures var defaults := DefaultHeaders(ParsedUrl(url, parse).value.host, HasBody(), BodySize());
        && (r.Ok? <==> FirstRefusal(defaults, check).None?)
        && (r.Err? ==> r.error == FirstRefusal(defaults, check).value && headers == old(headers))
        && (r.Ok? ==> headers == DefaultedAll(old(headers), defaults))
    {
      var default: seq<(string, string)> := [];
      var host := ParsedUrl(url, parse).value.host;
      if host.Some? {
        var refused := check(HostKey, host.value);
        if refused.Some? {
          return Err(refused.value);
        }
        default := default + [(HostKey, host.value)];
      }
      if HasBody() {
        var contentLength := Decimal(BodySize());
        var refused := check(ContentLengthKey, contentLength);
        if refused.Some? {
          FirstRefusalAfterAccepted(default, [(ContentLengthKey, contentLength), (UserAgentKey, UserAgent)], check);
          return Err(refused.value);
        }
        default := default + [(ContentLengthKey, contentLength)];
      }
      var refused := check(UserAgentKey, UserAgent);
      if refused.Some? {
        FirstRefusalAfterAccepted(default, [(UserAgentKey, UserAgent)], check);
        return Err(refused.value);
      }
      default := default + [(UserAgentKey, UserAgent)];
      assert default == DefaultHeaders(host, HasBody(), BodySize());
      InsertDefaults(default);
      r := Ok(());
    }

    /** The `for_each` of `set_default_headers`: `entry(key).or_insert(value)` for each default in turn. */
    method InsertDefaults(default: seq<(string, string)>)
      modifies this
      ensures headers == DefaultedAll(old(headers), default)
    {
      var i := 0;
      while i < |default|
        invariant 0 <= i <= |default|
        invariant headers == DefaultedAll(old(headers), default[..i])
      {
        var (key, value) := default[i];
        assert default[..i + 1][..i] == default[..i];
        if key !in headers {
          headers := headers[key := value];
        }
        i := i + 1;
      }
      assert default[..i] == default;
    }
  }

  /** Pairs the helper accepted do not change which refusal comes first. */
  lemma {:induction false} FirstRefusalAfterAccepted<E>(accepted: seq<(string, string)>, rest: seq<(string, string)>,
                                                        check: (string, string) -> Option<E>)
    requires forall i :: 0 <= i < |accepted| ==> check(accepted[i].0, accepted[i].1).None?
    ensures FirstRefusal(accepted + rest, check) == FirstRefusal(rest, check)
  {
    if accepted != [] {
      assert (accepted + rest)[0] == accepted[0];
      assert (accepted + rest)[1..] == accepted[1..] + rest;
      FirstRefusalAfterAccepted(accepted[1..], rest, check);
    } else {
      assert accepted + rest == rest;
    }
  }

  /**
   * After a successful `set_default_headers`: explicit headers are untouched,
   * `user-agent` is present, `content-length` and `host` are added only with a
   * body and a host, and no other name is added.
   */
  lemma SetDefaultsOutcome(explicit: Headers, host: Option<string>, verb: Verb, body: Option<string>)
    ensures var r := DefaultedAll(explicit, DefaultHeaders(host, Http.HasBody(verb, body), Http.BodySize(verb, body)));
      && (forall k :: k in explicit ==> k in r && r[k] == explicit[k])
      && UserAgentKey in r && (UserAgentKey !in explicit ==> r[UserAgentKey] == UserAgent)
      && (ContentLengthKey in r - explicit.Keys <==> ContentLengthKey !in explicit && Http.HasBody(verb, body))
      && (ContentLengthKey !in explicit && Http.HasBody(verb, body) ==> r[ContentLengthKey] == Decimal(Http.BodySize(verb, body)))
      && (HostKey in r - explicit.Keys <==> HostKey !in explicit && host.Some?)
      && r.Keys <= explicit.Keys + {HostKey, ContentLengthKey, UserAgentKey}
  {
    DefaultsApplied(explicit, host, Http.HasBody(verb, body), Http.BodySize(verb, body));
  }

  /** A received response; its headers are kept in the order they arrived. */
  datatype HttpResponse = HttpResponse(version: string, status: int, headers: seq<(string, string)>, body: string)

  /** The position of the first header named `name`, or `|hs|` when there is none. */
  function FirstNamed(hs: seq<(string, string)>, name: string): (i: nat)
    ensures i <= |hs|
    ensures forall j :: 0 <= j < i ==> hs[j].0 != name
    ensures i < |hs| ==> hs[i].0 == name
  {
    if hs == [] || hs[0].0 == name then 0 else 1 + FirstNamed(hs[1..], name)
  }

  /** `HttpResponse::header`: the value of the first stored header whose name equals the lower-cased query. */
  function ResponseHeader(resp: HttpResponse, key: string): (r: Option<string>)
    ensures r.Some? <==> exists i :: 0 <= i < |resp.headers| && resp.headers[i].0 == AsciiLowercase(key)
    ensures r.Some? ==> var i := FirstNamed(resp.headers, AsciiLowercase(key));
      i < |resp.headers| && r.value == resp.headers[i].1
  {
    var i := FirstNamed(resp.headers, AsciiLowercase(key));
    if i < |resp.headers| then Some(resp.headers[i].1) else None
  }

  /** The query's case does not matter. */
  lemma ResponseHeaderIgnoresCase(resp: HttpResponse, k1: string, k2: string)
    requires AsciiLowercase(k1) == AsciiLowercase(k2)
    ensures ResponseHeader(resp, k1) == ResponseHeader(resp, k2)
  {
  }

  /** The stored names are not lower-cased, so a stored name with an upper-case letter never matches. */
  lemma UpperCaseStoredNameNeverMatches(resp: HttpResponse, key: string, i: nat, j: nat)
    requires i < |resp.headers| && j < |resp.headers[i].0| && 'A' <= resp.headers[i].0[j] <= 'Z'
    ensures FirstNamed(resp.headers, AsciiLowercase(key)) != i
  {
  }
}
