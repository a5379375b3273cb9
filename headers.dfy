/**
 * Header maps and put-if-absent (src/headers.rs), and the default headers
 * the request types add without overriding explicit ones. A header map is a
 * `map` from names to values.
 */
module Headers {
  import opened Wrappers
  import opened Text

  type Headers = map<string, string>

  const UserAgentKey: string := "user-agent"
  const UserAgent: string := "fire/0.1.0"
  const ContentLengthKey: string := "content-length"
  const HostKey: string := "host"

  /** `put_if_absent` on a map value: a present key is left alone, an absent one is added, nothing else moves. */
  function Defaulted(m: Headers, key: string, value: string): (r: Headers)
    ensures key in m ==> r == m
    ensures key in r && (key !in m ==> r[key] == value)
    ensures r.Keys == m.Keys + {key}
    ensures forall k :: k in m ==> r[k] == m[k]
  {
    if key in m then m else m[key := value]
  }

  /** Putting the same key a second time, whatever the value, changes nothing. */
  lemma DefaultedTwice(m: Headers, key: string, v1: string, v2: string)
    ensures Defaulted(Defaulted(m, key, v1), key, v2) == Defaulted(m, key, v1)
  {
  }

  /** A header map object, updated in place. */
  class HeaderMap {
    var entries: Headers

    constructor (initial: Headers)
      ensures entries == initial
    {
      entries := initial;
    }

    /** `Appendable::put_if_absent`. */
    method PutIfAbsent(key: string, value: string)
      modifies this
      ensures entries == Defaulted(old(entries), key, value)
    {
      if key !in entries {
        entries := entries[key := value];
      }
    }
  }

  /** `entry(key).or_insert(value)` for each pair in turn. */
  function DefaultedAll(m: Headers, defaults: seq<(string, string)>): Headers {
    if defaults == [] then m
    else
      var last := defaults[|defaults| - 1];
      Defaulted(DefaultedAll(m, defaults[..|defaults| - 1]), last.0, last.1)
  }

  function Names(defaults: seq<(string, string)>): set<string> {
    set i | 0 <= i < |defaults| :: defaults[i].0
  }

  /** Explicit entries survive, and exactly the default names are added. */
  lemma {:induction false} DefaultedAllKeeps(m: Headers, defaults: seq<(string, string)>)
    ensures DefaultedAll(m, defaults).Keys == m.Keys + Names(defaults)
    ensures forall k :: k in m ==> DefaultedAll(m, defaults)[k] == m[k]
  {
    if defaults != [] {
      var init := defaults[..|defaults| - 1];
      DefaultedAllKeeps(m, init);
      assert Names(defaults) == Names(init) + {defaults[|defaults| - 1].0} by {
        forall n | n in Names(defaults)
          ensures n in Names(init) + {defaults[|defaults| - 1].0}
        {
          var i :| 0 <= i < |defaults| && defaults[i].0 == n;
          if i < |defaults| - 1 {
            assert init[i].0 == n;
          }
        }
        forall n | n in Names(init)
          ensures n in Names(defaults)
        {
          var i :| 0 <= i < |init| && init[i].0 == n;
          assert defaults[i].0 == n;
        }
      }
    }
  }

  /** With distinct names, a default that is not explicit takes its own value. */
  lemma {:induction false} DefaultedAllValue(m: Headers, defaults: seq<(string, string)>, i: nat)
    requires i < |defaults| && defaults[i].0 !in m
    requires forall a, b :: 0 <= a < b < |defaults| ==> defaults[a].0 != defaults[b].0
    ensures defaults[i].0 in DefaultedAll(m, defaults) && DefaultedAll(m, defaults)[defaults[i].0] == defaults[i].1
  {
    var n := |defaults| - 1;
    var init := defaults[..n];
    if i < n {
      DefaultedAllValue(m, init, i);
      assert defaults[n].0 != defaults[i].0;
    } else {
      DefaultedAllKeeps(m, init);
      assert defaults[i].0 !in Names(init);
    }
  }

  /**
   * The defaults `set_default_headers` builds in both request crates, in
   * order: `host` when the URL has a host, `content-length` when the request
   * has a body, then `user-agent`.
   */
  function DefaultHeaders(host: Option<string>, hasBody: bool, bodySize: nat): (d: seq<(string, string)>)
    ensures 1 <= |d| <= 3 && d[|d| - 1] == (UserAgentKey, UserAgent)
  {
    (if host.Some? then [(HostKey, host.value)] else [])
    + (if hasBody then [(ContentLengthKey, Decimal(bodySize))] else [])
    + [(UserAgentKey, UserAgent)]
  }

  /**
   * What defaulting does to a header map: explicit headers keep their values;
   * `user-agent` is always there and defaults to `fire/0.1.0`;
   * `content-length` and `host` are added only with a body and a host; no
   * other name appears.
   */
  lemma DefaultsApplied(m: Headers, host: Option<string>, hasBody: bool, bodySize: nat)
    ensures var r := DefaultedAll(m, DefaultHeaders(host, hasBody, bodySize));
      && (forall k :: k in m ==> k in r && r[k] == m[k])
      && r.Keys == m.Keys + {UserAgentKey}
           + (if hasBody then {ContentLengthKey} else {})
           + (if host.Some? then {HostKey} else {})
      && (UserAgentKey !in m ==> r[UserAgentKey] == UserAgent)
      && (hasBody && ContentLengthKey !in m ==> r[ContentLengthKey] == Decimal(bodySize))
      && (host.Some? && HostKey !in m ==> r[HostKey] == host.value)
  {
    DefaultedAllKeeps(m, DefaultHeaders(host, hasBody, bodySize));
    DefaultNames(host, hasBody, bodySize);
    DefaultValues(m, host, hasBody, bodySize);
  }

  /** Each default whose name is not explicit takes its own value. */
  lemma DefaultValues(m: Headers, host: Option<string>, hasBody: bool, bodySize: nat)
    ensures var r := DefaultedAll(m, DefaultHeaders(host, hasBody, bodySize));
      && (UserAgentKey !in m ==> UserAgentKey in r && r[UserAgentKey] == UserAgent)
      && (hasBody && ContentLengthKey !in m ==> ContentLengthKey in r && r[ContentLengthKey] == Decimal(bodySize))
      && (host.Some? && HostKey !in m ==> HostKey in r && r[HostKey] == host.value)
  {
    var d := DefaultHeaders(host, hasBody, bodySize);
    DistinctDefaultNames(host, hasBody, bodySize);
    if UserAgentKey !in m {
      DefaultedAllValue(m, d, |d| - 1);
    }
    if hasBody && ContentLengthKey !in m {
      DefaultedAllValue(m, d, if host.Some? then 1 else 0);
    }
    if host.Some? && HostKey !in m {
      DefaultedAllValue(m, d, 0);
    }
  }

  /** The names the defaults carry: `user-agent`, with `content-length` for a body and `host` for a host. */
  lemma DefaultNames(host: Option<string>, hasBody: bool, bodySize: nat)
    ensures Names(DefaultHeaders(host, hasBody, bodySize)) == {UserAgentKey} + (if hasBody then {ContentLengthKey} else {})
      + (if host.Some? then {HostKey} else {})
  {
    var d := DefaultHeaders(host, hasBody, bodySize);
    assert forall i :: 0 <= i < |d| ==> d[i].0 in {UserAgentKey, ContentLengthKey, HostKey};
    assert d[|d| - 1].0 == UserAgentKey;
    if host.Some? {
      assert d[0].0 == HostKey;
    }
    if hasBody {
      assert d[if host.Some? then 1 else 0].0 == ContentLengthKey;
    }
  }

  lemma DistinctDefaultNames(host: Option<string>, hasBody: bool, bodySize: nat)
    ensures var d := DefaultHeaders(host, hasBody, bodySize);
      forall a, b :: 0 <= a < b < |d| ==> d[a].0 != d[b].0
  {
    assert UserAgentKey[0] != ContentLengthKey[0] && UserAgentKey[0] != HostKey[0] && ContentLengthKey[0] != HostKey[0];
  }
}
