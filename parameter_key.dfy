/**
 * `ParameterCacheKey` as an object: a name-to-value map that the
 * `addParameter` overloads extend. The key made by
 * `getSitemapSafeInstance` wraps its map read-only, so adding to it
 * throws `UnsupportedOperationException`.
 */
module ParameterKey {
  import opened Wrappers
  import opened JavaLang
  import opened CacheKeys

  /** The parameter names a sitemap passes that must not take part in caching. */
  const SITEMAP_PARAM_NON_CACHABLE_NAMES: set<string> := {
    "cocoon", "com.indoqa.xml.pipeline.sax.configuration.Settings", "javax.servlet.ServletContext",
    "javax.servlet.http.HttpServletRequest", "javax.servlet.http.HttpServletResponse"}

  /**
   * The map of `getSitemapSafeInstance`: every parameter except the
   * reserved names, with its value's `toString`; `null` gives the empty map.
   */
  function SitemapSafe<V>(parameters: Option<map<string, V>>, toString: V -> string): (r: map<string, string>)
    ensures parameters.None? ==> r == map[]
    ensures forall n :: n in r <==> parameters.Some? && n in parameters.value && n !in SITEMAP_PARAM_NON_CACHABLE_NAMES
    ensures forall n :: n in r ==> r[n] == toString(parameters.value[n])
  {
    if parameters.None? then map[]
    else map n | n in parameters.value && n !in SITEMAP_PARAM_NON_CACHABLE_NAMES :: toString(parameters.value[n])
  }

  /** The entries `addParameter(name, map)` adds: `name_key` to each value. */
  function Prefixed(name: string, value: map<string, string>): (r: map<string, string>)
    ensures forall k :: k in value ==> name + "_" + k in r && r[name + "_" + k] == value[k]
    ensures forall n :: n in r ==> exists k :: k in value && n == name + "_" + k
  {
    ConcatInjective(name + "_");
    map k | k in value :: name + "_" + k := value[k]
  }

  /** Adding one map entry adds its one prefixed entry. */
  lemma PrefixedAdd(name: string, m: map<string, string>, k: string, v: string)
    ensures Prefixed(name, m[k := v]) == Prefixed(name, m)[name + "_" + k := v]
  {
    ConcatInjective(name + "_");
    hide *;
    var l := Prefixed(name, m[k := v]);
    var p := Prefixed(name, m);
    var r := p[name + "_" + k := v];
    forall n | n in l
      ensures n in r && l[n] == r[n]
    {
      var k' :| k' in m[k := v] && n == name + "_" + k';
      if k' != k {
        assert k' in m && p[n] == m[k'];
      }
    }
    forall n | n in r
      ensures n in l
    {
      if n != name + "_" + k {
        var k' :| k' in m && n == name + "_" + k';
        assert k' in m[k := v];
      }
    }
    assert l == r;
  }

  lemma UnionUpdate(a: map<string, string>, b: map<string, string>, x: string, v: string)
    ensures (a + b)[x := v] == a + b[x := v]
  {
  }

  lemma ConcatInjective(p: string)
    ensures forall a: string, b: string :: p + a == p + b ==> a == b
  {
    forall a: string, b: string | p + a == p + b
      ensures a == b
    {
      assert a == (p + a)[|p|..];
      assert b == (p + b)[|p|..];
    }
  }

  /**
   * Two parameter maps that agree on every name that is not reserved give
   * equal sitemap-safe keys: the reserved names never influence caching.
   */
  lemma SitemapSafeIgnoresReserved<V>(p: map<string, V>, q: map<string, V>, toString: V -> string)
    requires forall n :: n !in SITEMAP_PARAM_NON_CACHABLE_NAMES ==> (n in p <==> n in q)
    requires forall n :: n !in SITEMAP_PARAM_NON_CACHABLE_NAMES && n in p ==> toString(p[n]) == toString(q[n])
    ensures CacheKeys.Equals(Parameter(SitemapSafe(Some(p), toString)), Some(Parameter(SitemapSafe(Some(q), toString))))
  {
    var a := SitemapSafe(Some(p), toString);
    var b := SitemapSafe(Some(q), toString);
    assert a.Keys == b.Keys;
    assert forall n :: n in a ==> a[n] == b[n];
    assert a == b;
  }

  class ParameterCacheKey {
    var parameters: map<string, string>
    /** Whether `parameters` is wrapped in `Collections.unmodifiableMap`. */
    var readOnly: bool

    /** `new ParameterCacheKey()`: an empty, modifiable map. */
    constructor ()
      ensures parameters == map[] && !readOnly
    {
      parameters := map[];
      readOnly := false;
    }

    constructor Of(parameters: map<string, string>, readOnly: bool)
      ensures this.parameters == parameters && this.readOnly == readOnly
    {
      this.parameters := parameters;
      this.readOnly := readOnly;
    }

    function Key(): CacheKey
      reads this
    {
      Parameter(parameters)
    }

    /** `addParameter(name, String)`: sets `name` to the value, replacing an earlier one. */
    method AddString(name: string, value: string) returns (outcome: Outcome)
      modifies this
      ensures readOnly == old(readOnly)
      ensures old(readOnly) ==> outcome == Fail(UnsupportedOperation) && parameters == old(parameters)
      ensures !old(readOnly) ==> outcome == Pass && parameters == old(parameters)[name := value]
    {
      if readOnly {
        return Fail(UnsupportedOperation);
      }
      parameters := parameters[name := value];
      return Pass;
    }

    /** `addParameter(name, boolean)`: stores `"true"` or `"false"`. */
    method AddBool(name: string, value: bool) returns (outcome: Outcome)
      modifies this
      ensures readOnly == old(readOnly)
      ensures old(readOnly) ==> outcome == Fail(UnsupportedOperation) && parameters == old(parameters)
      ensures !old(readOnly) ==> outcome == Pass && parameters == old(parameters)[name := if value then "true" else "false"]
    {
      outcome := AddString(name, BoolToString(value));
    }

    /** `addParameter(name, int)`: stores the decimal form, which `Long.parseLong` reads back. */
    method AddInt(name: string, value: int) returns (outcome: Outcome)
      requires IsInt(value)
      modifies this
      ensures readOnly == old(readOnly)
      ensures old(readOnly) ==> outcome == Fail(UnsupportedOperation) && parameters == old(parameters)
      ensures !old(readOnly) ==> outcome == Pass && name in parameters && ParseLong(parameters[name]) == Ok(value)
      ensures !old(readOnly) ==> parameters == old(parameters)[name := IntToString(value)]
    {
      ParseLongRoundTrip(value);
      outcome := AddString(name, IntToString(value));
    }

    /** `addParameter(name, Map)`: one entry `name_key` per map entry, keys and values by their `toString`. */
    method AddMap(name: string, value: map<string, string>) returns (outcome: Outcome)
      modifies this
      ensures readOnly == old(readOnly)
      ensures old(readOnly) && value != map[] ==> outcome == Fail(UnsupportedOperation) && parameters == old(parameters)
      ensures !old(readOnly) || value == map[] ==> outcome == Pass && parameters == old(parameters) + Prefixed(name, value)
    {
      if value == map[] {
        assert Prefixed(name, value) == map[];
        return Pass;
      }
      if readOnly {
        return Fail(UnsupportedOperation);
      }
      parameters := PutPrefixed(parameters, name, value);
      return Pass;
    }
  }

  /** One turn of the loop of `addParameter(name, Map)`: putting the entry of `k` adds its prefixed entry. */
  lemma PutPrefixedStep(parameters: map<string, string>, name: string, value: map<string, string>, remaining: set<string>, k: string)
    requires k in remaining && remaining <= value.Keys
    ensures parameters + Prefixed(name, value - (remaining - {k}))
         == (parameters + Prefixed(name, value - remaining))[name + "_" + k := value[k]]
  {
    var done := value - remaining;
    assert value - (remaining - {k}) == done[k := value[k]];
    PrefixedAdd(name, done, k, value[k]);
    hide *;
    UnionUpdate(parameters, Prefixed(name, done), name + "_" + k, value[k]);
  }

  /** The loop of `addParameter(name, Map)`: one `put` of `name_key` per map entry, in any order. */
  method PutPrefixed(parameters: map<string, string>, name: string, value: map<string, string>) returns (r: map<string, string>)
    ensures r == parameters + Prefixed(name, value)
  {
    r := parameters;
    var remaining := value.Keys;
    while remaining != {}
      invariant remaining <= value.Keys
      invariant r == parameters + Prefixed(name, value - remaining)
      decreases remaining
    {
      var k :| k in remaining;
      PutPrefixedStep(parameters, name, value, remaining, k);
      r := r[name + "_" + k := value[k]];
      remaining := remaining - {k};
    }
    assert value - remaining == value;
  }

  /** `new ParameterCacheKey(Map)`: a `null` map is rejected. */
  method NewParameterCacheKey(parameters: Option<map<string, string>>) returns (r: Result<ParameterCacheKey>)
    ensures r.Err? <==> parameters.None?
    ensures r.Err? ==> r.error.IllegalArgument?
    ensures r.Ok? ==> fresh(r.value) && r.value.parameters == parameters.value && !r.value.readOnly
  {
    if parameters.None? {
      return Err(IllegalArgument("A map of parameters has to be passed."));
    }
    var key := new ParameterCacheKey.Of(parameters.value, false);
    return Ok(key);
  }

  /** `new ParameterCacheKey(name, String)`. */
  method NewStringParameterCacheKey(name: string, value: string) returns (key: ParameterCacheKey)
    ensures fresh(key) && key.parameters == map[name := value] && !key.readOnly
  {
    key := new ParameterCacheKey();
    var _ := key.AddString(name, value);
  }

  /** `new ParameterCacheKey(name, Map)`. */
  method NewMapParameterCacheKey(name: string, value: map<string, string>) returns (key: ParameterCacheKey)
    ensures fresh(key) && key.parameters == Prefixed(name, value) && !key.readOnly
  {
    key := new ParameterCacheKey();
    var _ := key.AddMap(name, value);
    assert map[] + Prefixed(name, value) == Prefixed(name, value);
  }

  /** `getSitemapSafeInstance`: a read-only key over the sitemap-safe parameters. */
  method GetSitemapSafeInstance<V>(parameters: Option<map<string, V>>, toString: V -> string) returns (key: ParameterCacheKey)
    ensures fresh(key) && key.readOnly
    ensures key.parameters == SitemapSafe(parameters, toString)
  {
    var safe: map<string, string> := map[];
    if parameters.Some? {
      var all := parameters.value;
      var remaining := all.Keys;
      while remaining != {}
        invariant remaining <= all.Keys
        invariant forall n :: n in safe <==> n in all && n !in remaining && n !in SITEMAP_PARAM_NON_CACHABLE_NAMES
        invariant forall n :: n in safe ==> safe[n] == toString(all[n])
        decreases remaining
      {
        var n :| n in remaining;
        if n !in SITEMAP_PARAM_NON_CACHABLE_NAMES {
          safe := safe[n := toString(all[n])];
        }
        remaining := remaining - {n};
      }
    }
    assert safe == SitemapSafe(parameters, toString);
    key := new ParameterCacheKey.Of(safe, true);
  }
}
