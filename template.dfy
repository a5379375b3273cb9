/**
 * Merging variable maps and restricting them to a template's keys
 * (src/template.rs). `merge` gives precedence to the first map of the list
 * that defines a key; `build_map` keeps the keys a template asks for.
 */
module Template {
  import opened Wrappers

  type Vars = map<string, string>

  /** Every key defined by some map of the list. */
  function Union(ms: seq<Vars>): set<string> {
    if ms == [] then {} else ms[0].Keys + Union(ms[1..])
  }

  /** The value of `k` in the first map that defines it. */
  function Lookup(ms: seq<Vars>, k: string): (r: Option<string>)
    ensures r.Some? <==> k in Union(ms)
  {
    if ms == [] then None
    else if k in ms[0] then Some(ms[0][k])
    else Lookup(ms[1..], k)
  }

  /** The intended meaning of `merge`: each key of the union, valued by the earliest map that has it. */
  function Merged(ms: seq<Vars>): Vars {
    map k | k in Union(ms) :: Lookup(ms, k).value
  }

  /** A map placed in front of a list overrides every map after it. */
  lemma MergedCons(m: Vars, rest: seq<Vars>)
    ensures Merged([m] + rest) == Merged(rest) + m
  {
    var ms := [m] + rest;
    assert ms[1..] == rest;
    assert Union(ms) == m.Keys + Union(rest);
  }

  /**
   * `merge`: reverse the list and fold it with `extend`, so a map nearer the
   * front overwrites what the maps behind it put in; an empty list gives the
   * empty map.
   */
  method Merge(maps: seq<Vars>) returns (acc: Vars)
    ensures acc == Merged(maps)
  {
    if |maps| == 0 {
      return map[];
    }
    var i := |maps| - 1;
    acc := maps[i];
    MergedCons(maps[i], []);
    assert maps[i..] == [maps[i]] + [];
    while i > 0
      invariant 0 <= i < |maps|
      invariant acc == Merged(maps[i..])
    {
      i := i - 1;
      MergedCons(maps[i], maps[i + 1..]);
      assert maps[i..] == [maps[i]] + maps[i + 1..];
      acc := acc + maps[i];
    }
  }

  /** Merging no maps gives the empty map. */
  lemma MergedEmpty()
    ensures Merged([]) == map[]
  {
  }

  /** Merging a single map gives that map. */
  lemma MergedSingle(m: Vars)
    ensures Merged([m]) == m
  {
    MergedCons(m, []);
  }

  /** The merged map defines exactly the keys some map defines. */
  lemma MergedKeys(ms: seq<Vars>)
    ensures Merged(ms).Keys == Union(ms)
  {
  }

  /** The first map that defines a key decides its value. */
  lemma {:induction false} MergedFirstWins(ms: seq<Vars>, i: nat, k: string)
    requires i < |ms| && k in ms[i]
    requires forall j :: 0 <= j < i ==> k !in ms[j]
    ensures k in Merged(ms) && Merged(ms)[k] == ms[i][k]
  {
    if i > 0 {
      MergedFirstWins(ms[1..], i - 1, k);
      MergedCons(ms[0], ms[1..]);
      assert ms == [ms[0]] + ms[1..];
    } else {
      MergedCons(ms[0], ms[1..]);
      assert ms == [ms[0]] + ms[1..];
    }
  }

  /**
   * `build_map`: the closure's `return Err(key)` only ends the closure, so a
   * missing key yields an `Err` item that `filter_map` drops and the function
   * always returns `Ok`.
   */
  function BuildMap(keys: set<string>, values: Vars): (r: Result<Vars, string>)
    ensures r.Ok?
    ensures r.value.Keys == keys * values.Keys
    ensures forall k :: k in r.value ==> r.value[k] == values[k]
  {
    Ok(map k | k in keys && k in values :: values[k])
  }

  /** Restricting to all of a map's keys gives the map back. */
  lemma BuildMapAllKeys(values: Vars)
    ensures BuildMap(values.Keys, values) == Ok(values)
  {
    var r := BuildMap(values.Keys, values).value;
    assert r.Keys == values.Keys;
    assert r == values;
  }
}
