/**
 * The cache-key algebra of the caching pipeline. Every key class of the
 * `caching` package is one constructor of `CacheKey`; its `equals`, its
 * `isValid` and its `getLastModified` are the functions `Equals`, `Valid`
 * and `LastModified`, each a single match over the constructors.
 *
 * Java objects that the keys wrap (the seed of an invalid key, the object
 * of an object key, a `Source`) are compared by `equals`; they are modelled
 * by strings, compared by string equality. A URL is its external form.
 * A `null` key is `None`.
 */
module CacheKeys {
  import opened Wrappers
  import opened JavaLang

  /** One entry of a URL-list key: a timestamped URL key. */
  datatype UrlStamp = UrlStamp(url: string, timestamp: int)

  datatype CacheKey =
    | Simple
    | Invalid(seed: string)
    | ObjectKey(obj: string)
    | Parameter(params: map<string, string>)
    | TimestampURL(url: string, timestamp: int)
    | TimestampSource(source: string, timestamp: int)
    | Expires(inner: CacheKey, created: int, expiration: int)
    | URLList(urls: seq<UrlStamp>)
    | Compound(parts: seq<Option<CacheKey>>)
    | Cached(internal: string, cached: Option<CacheKey>)

  /** `a.equals(other)`; every key class starts with an `instanceof` test, so a `null` argument is never equal. */
  function Equals(a: CacheKey, other: Option<CacheKey>): bool
    decreases a
  {
    other.Some? &&
    var b := other.value;
    match a
    case Simple => b.Simple?
    case Invalid(seed) => b.Invalid? && b.seed == seed
    case ObjectKey(obj) => b.ObjectKey? && b.obj == obj
    case Parameter(params) => b.Parameter? && b.params == params
    case TimestampURL(url, _) => b.TimestampURL? && b.url == url
    case TimestampSource(source, _) => b.TimestampSource? && b.source == source
    case Expires(inner, _, _) => b.Expires? && Equals(inner, Some(b.inner))
    case URLList(urls) =>
      b.URLList? && |urls| == |b.urls| && forall i :: 0 <= i < |urls| ==> urls[i].url == b.urls[i].url
    case Compound(parts) =>
      b.Compound? && |parts| == |b.parts|
      && forall i :: 0 <= i < |parts| ==> parts[i].Some? && Equals(parts[i].value, b.parts[i])
    case Cached(internal, _) => b.Cached? && b.internal == internal
  }

  /** `a.isValid(other)`: may a value stored under `a` be served for a request keyed `other`? */
  function Valid(a: CacheKey, other: Option<CacheKey>): bool
    decreases a
  {
    match a
    case Simple => true
    case Invalid(_) => false
    case ObjectKey(_) => Equals(a, other)
    case Parameter(_) => Equals(a, other)
    case TimestampURL(_, t) => Equals(a, other) && other.value.timestamp == t
    case TimestampSource(_, t) => Equals(a, other) && other.value.timestamp == t
    case Expires(inner, _, expiration) =>
      other.Some? && other.value.Expires?
      && (expiration > other.value.created || Valid(inner, Some(other.value.inner)))
    case URLList(urls) =>
      Equals(a, other) && forall i :: 0 <= i < |urls| ==> urls[i].timestamp == other.value.urls[i].timestamp
    case Compound(parts) =>
      Equals(a, other) && forall i :: 0 <= i < |parts| ==> Valid(parts[i].value, other.value.parts[i])
    case Cached(_, cached) => Equals(a, other) && cached.Some? && Valid(cached.value, other.value.cached)
  }

  /** No `null` anywhere inside: the keys whose `getLastModified` cannot throw a `NullPointerException`. */
  predicate NullFree(k: CacheKey)
    decreases k
  {
    match k
    case Expires(inner, _, _) => NullFree(inner)
    case Compound(parts) => forall i :: 0 <= i < |parts| ==> parts[i].Some? && NullFree(parts[i].value)
    case Cached(_, cached) => cached.Some? ==> NullFree(cached.value)
    case _ => true
  }

  /**
   * The loop that compound and URL-list keys run over their sub-keys'
   * timestamps: start at 0, keep the largest, and stop with -1 as soon as
   * a sub-key reports -1.
   */
  function LatestFrom(acc: int, ts: seq<int>): int
    decreases |ts|
  {
    if ts == [] then acc
    else if ts[0] == -1 then -1
    else LatestFrom(if ts[0] > acc then ts[0] else acc, ts[1..])
  }

  function Latest(ts: seq<int>): int {
    LatestFrom(0, ts)
  }

  /** `k.getLastModified()`; `lastModifiedOf` stands for the URL connection that a URL-list key asks for each URL's current timestamp. */
  function LastModified(k: CacheKey, lastModifiedOf: string -> int): int
    requires NullFree(k)
    decreases k, if k.Compound? then |k.parts| + 1 else 0
  {
    match k
    case Simple => 0
    case Invalid(_) => -1
    case ObjectKey(_) => 0
    case Parameter(_) => -1
    case TimestampURL(_, t) => t
    case TimestampSource(_, t) => t
    case Expires(inner, _, _) => LastModified(inner, lastModifiedOf)
    case URLList(urls) => Latest(UrlTimestamps(urls, lastModifiedOf))
    case Compound(parts) => Latest(PartTimestamps(k, |parts|, lastModifiedOf))
    case Cached(_, cached) => if cached.None? then -1 else LastModified(cached.value, lastModifiedOf)
  }

  /** The current timestamp of every URL of a URL list, in order. */
  function UrlTimestamps(urls: seq<UrlStamp>, lastModifiedOf: string -> int): (r: seq<int>)
    ensures |r| == |urls|
    ensures forall i :: 0 <= i < |urls| ==> r[i] == lastModifiedOf(urls[i].url)
  {
    if urls == [] then [] else [lastModifiedOf(urls[0].url)] + UrlTimestamps(urls[1..], lastModifiedOf)
  }

  /** The last-modified values of the first `n` sub-keys of a compound key, in order. */
  function PartTimestamps(k: CacheKey, n: nat, lastModifiedOf: string -> int): (r: seq<int>)
    requires k.Compound? && n <= |k.parts| && NullFree(k)
    ensures |r| == n
    ensures forall i :: 0 <= i < n ==> r[i] == LastModified(k.parts[i].value, lastModifiedOf)
    decreases k, n
  {
    if n == 0 then [] else PartTimestamps(k, n - 1, lastModifiedOf) + [LastModified(k.parts[n - 1].value, lastModifiedOf)]
  }

  /**
   * `k.getLastModified()` for every key, `null` sub-keys included: the
   * compound loop calls `getLastModified` on each sub-key in turn, so it
   * throws a `NullPointerException` at the first `null` sub-key it reaches
   * before any sub-key reports -1.
   */
  function LastModifiedOutcome(k: CacheKey, lastModifiedOf: string -> int): Result<int>
    decreases k, if k.Compound? then |k.parts| + 1 else 0
  {
    match k
    case Expires(inner, _, _) => LastModifiedOutcome(inner, lastModifiedOf)
    case Compound(parts) => PartsOutcome(k, 0, 0, lastModifiedOf)
    case Cached(_, cached) => if cached.None? then Ok(-1) else LastModifiedOutcome(cached.value, lastModifiedOf)
    case _ => Ok(LastModified(k, lastModifiedOf))
  }

  /** The compound loop from sub-key `i` on, with `acc` the largest timestamp so far. */
  function PartsOutcome(k: CacheKey, i: nat, acc: int, lastModifiedOf: string -> int): Result<int>
    requires k.Compound? && i <= |k.parts|
    decreases k, |k.parts| - i
  {
    if i == |k.parts| then Ok(acc)
    else if k.parts[i].None? then Err(NullPointer)
    else match LastModifiedOutcome(k.parts[i].value, lastModifiedOf)
      case Err(e) => Err(e)
      case Ok(t) => if t == -1 then Ok(-1) else PartsOutcome(k, i + 1, if t > acc then t else acc, lastModifiedOf)
  }

  /** Without a `null` inside, `getLastModified` does not throw and reports `LastModified`. */
  lemma {:induction false} NullFreeLastModified(k: CacheKey, lastModifiedOf: string -> int)
    requires NullFree(k)
    ensures LastModifiedOutcome(k, lastModifiedOf) == Ok(LastModified(k, lastModifiedOf))
    decreases k, if k.Compound? then |k.parts| + 1 else 0
  {
    match k
    case Expires(inner, _, _) => NullFreeLastModified(inner, lastModifiedOf);
    case Compound(parts) =>
      NullFreeParts(k, 0, 0, lastModifiedOf);
      assert PartTimestamps(k, |parts|, lastModifiedOf)[0..] == PartTimestamps(k, |parts|, lastModifiedOf);
    case Cached(_, cached) =>
      if cached.Some? {
        NullFreeLastModified(cached.value, lastModifiedOf);
      }
    case _ =>
  }

  /** The compound loop from sub-key `i` on computes the timestamp loop over the remaining sub-keys' values. */
  lemma {:induction false} NullFreeParts(k: CacheKey, i: nat, acc: int, lastModifiedOf: string -> int)
    requires k.Compound? && i <= |k.parts| && NullFree(k)
    ensures PartsOutcome(k, i, acc, lastModifiedOf) == Ok(LatestFrom(acc, PartTimestamps(k, |k.parts|, lastModifiedOf)[i..]))
    decreases k, |k.parts| - i
  {
    var ts := PartTimestamps(k, |k.parts|, lastModifiedOf);
    if i < |k.parts| {
      NullFreeLastModified(k.parts[i].value, lastModifiedOf);
      assert ts[i..][0] == ts[i] && ts[i..][1..] == ts[i + 1..];
      var t := ts[i];
      if t != -1 {
        NullFreeParts(k, i + 1, if t > acc then t else acc, lastModifiedOf);
      }
    }
  }

  /**
   * A compound key whose sub-key `i` is `null`, and whose earlier sub-keys
   * have no `null` inside and none reports -1, throws a `NullPointerException`.
   */
  lemma NullSubKeyThrows(parts: seq<Option<CacheKey>>, i: nat, lastModifiedOf: string -> int)
    requires i < |parts| && parts[i].None?
    requires forall j :: 0 <= j < i ==> parts[j].Some? && NullFree(parts[j].value) && LastModified(parts[j].value, lastModifiedOf) != -1
    ensures LastModifiedOutcome(Compound(parts), lastModifiedOf) == Err(NullPointer)
  {
    NullSubKeyFrom(Compound(parts), 0, 0, i, lastModifiedOf);
  }

  lemma {:induction false} NullSubKeyFrom(k: CacheKey, j: nat, acc: int, i: nat, lastModifiedOf: string -> int)
    requires k.Compound? && j <= i < |k.parts| && k.parts[i].None?
    requires forall m :: j <= m < i ==> k.parts[m].Some? && NullFree(k.parts[m].value) && LastModified(k.parts[m].value, lastModifiedOf) != -1
    ensures PartsOutcome(k, j, acc, lastModifiedOf) == Err(NullPointer)
    decreases i - j
  {
    if j < i {
      var t := LastModified(k.parts[j].value, lastModifiedOf);
      NullFreeLastModified(k.parts[j].value, lastModifiedOf);
      NullSubKeyFrom(k, j + 1, if t > acc then t else acc, i, lastModifiedOf);
    }
  }

  // ---------------------------------------------------------------------
  // Construction

  /**
   * `new ExpiresCacheKey(key, expires)` at clock time `now`: the expiration
   * is `now + Long.parseLong(expires) * 1000`, computed in 64-bit arithmetic.
   */
  function NewExpires(inner: CacheKey, expires: string, now: int): (r: Result<CacheKey>)
    requires IsLong(now)
    ensures ParseLong(expires).Err? <==> r.Err?
    ensures r.Ok? ==> r.value.Expires? && r.value.inner == inner && r.value.created == now
    ensures r.Ok? ==> (r.value.expiration - (now + ParseLong(expires).value * 1000)) % TWO_64 == 0
    ensures r.Ok? && IsLong(ParseLong(expires).value * 1000) && IsLong(now + ParseLong(expires).value * 1000)
      ==> r.value.expiration == now + ParseLong(expires).value * 1000
  {
    match ParseLong(expires)
    case Err(e) => Err(e)
    case Ok(seconds) =>
      var millis := ToLong(seconds * 1000);
      var expiration := ToLong(now + millis);
      assert (expiration - (now + seconds * 1000)) == (expiration - (now + millis)) + (millis - seconds * 1000);
      Ok(Expires(inner, now, expiration))
  }

  /** `new InvalidCacheKey(seed)`: a `null` seed is an `IllegalArgumentException`. */
  function NewInvalid(seed: Option<string>): (r: Result<CacheKey>)
    ensures r.Err? <==> seed.None?
    ensures r.Err? ==> r.error.IllegalArgument?
    ensures r.Ok? ==> r.value == Invalid(seed.value) && !Valid(r.value, Some(r.value))
  {
    if seed.None? then Err(IllegalArgument("An explicit cache key has to be provided.")) else Ok(Invalid(seed.value))
  }

  // ---------------------------------------------------------------------
  // The rules of each key class

  /** A simple key equals exactly the simple keys, accepts every candidate (even `null` and other kinds), and reports 0. */
  lemma SimpleKeyRules(other: Option<CacheKey>, f: string -> int)
    ensures Equals(Simple, other) <==> other == Some(Simple)
    ensures Valid(Simple, other)
    ensures LastModified(Simple, f) == 0
  {
  }

  /** Invalid keys are equal when their seeds are, never valid, and report -1. */
  lemma InvalidKeyRules(seed: string, other: Option<CacheKey>, f: string -> int)
    ensures Equals(Invalid(seed), other) <==> other == Some(Invalid(seed))
    ensures !Valid(Invalid(seed), other)
    ensures LastModified(Invalid(seed), f) == -1
  {
  }

  /** Object keys: equal when the wrapped objects are, valid exactly when equal, and report 0. */
  lemma ObjectKeyRules(obj: string, other: Option<CacheKey>, f: string -> int)
    ensures Equals(ObjectKey(obj), other) <==> other == Some(ObjectKey(obj))
    ensures Valid(ObjectKey(obj), other) <==> Equals(ObjectKey(obj), other)
    ensures LastModified(ObjectKey(obj), f) == 0
  {
  }

  /** Parameter keys: equal when the maps are, valid exactly when equal, and report -1. */
  lemma ParameterKeyRules(params: map<string, string>, other: Option<CacheKey>, f: string -> int)
    ensures Equals(Parameter(params), other) <==> other == Some(Parameter(params))
    ensures Valid(Parameter(params), other) <==> Equals(Parameter(params), other)
    ensures LastModified(Parameter(params), f) == -1
  {
  }

  /**
   * A timestamped URL key: equality looks at the URL only, validity demands
   * the very same timestamp (a newer one is not enough), and the timestamp is
   * its last-modified value.
   */
  lemma TimestampURLKeyRules(url: string, t: int, other: Option<CacheKey>, f: string -> int)
    ensures forall t' :: Equals(TimestampURL(url, t), Some(TimestampURL(url, t')))
    ensures Equals(TimestampURL(url, t), other) <==> other.Some? && other.value.TimestampURL? && other.value.url == url
    ensures Valid(TimestampURL(url, t), other) <==> other == Some(TimestampURL(url, t))
    ensures LastModified(TimestampURL(url, t), f) == t
  {
  }

  /** A timestamped source key: the same rules over the source object. */
  lemma TimestampSourceKeyRules(source: string, t: int, other: Option<CacheKey>, f: string -> int)
    ensures forall t' :: Equals(TimestampSource(source, t), Some(TimestampSource(source, t')))
    ensures Equals(TimestampSource(source, t), other) <==> other.Some? && other.value.TimestampSource? && other.value.source == source
    ensures Valid(TimestampSource(source, t), other) <==> other == Some(TimestampSource(source, t))
    ensures LastModified(TimestampSource(source, t), f) == t
  {
  }

  /**
   * An expires key: equality compares only the wrapped keys; validity is
   * false for anything but an expires key, true while this key has not
   * expired at the candidate's construction time whatever the wrapped keys
   * are, and otherwise falls back to the wrapped keys.
   */
  lemma ExpiresKeyRules(inner: CacheKey, created: int, expiration: int, other: Option<CacheKey>, f: string -> int)
    ensures var e := Expires(inner, created, expiration);
      (Equals(e, other) <==> other.Some? && other.value.Expires? && Equals(inner, Some(other.value.inner)))
      && (other.None? || !other.value.Expires? ==> !Valid(e, other))
      && (other.Some? && other.value.Expires? && expiration > other.value.created ==> Valid(e, other))
      && (other.Some? && other.value.Expires? && expiration <= other.value.created
          ==> (Valid(e, other) <==> Valid(inner, Some(other.value.inner))))
      && (NullFree(inner) ==> LastModified(e, f) == LastModified(inner, f))
  {
  }

  /** A cached key: equality compares the internal keys; validity needs an equal key and an inner key valid against the other's. */
  lemma CachedKeyRules(internal: string, cached: Option<CacheKey>, other: Option<CacheKey>, f: string -> int)
    ensures var c := Cached(internal, cached);
      (Equals(c, other) <==> other.Some? && other.value.Cached? && other.value.internal == internal)
      && (Valid(c, other) <==> Equals(c, other) && cached.Some? && Valid(cached.value, other.value.cached))
      && (cached.None? ==> LastModified(c, f) == -1)
      && (cached.Some? && NullFree(cached.value) ==> LastModified(c, f) == LastModified(cached.value, f))
  {
  }

  // ---------------------------------------------------------------------
  // Properties of the algebra

  /** Key equality is symmetric. */
  lemma {:induction false} EqualsSymmetric(a: CacheKey, b: CacheKey)
    requires Equals(a, Some(b))
    ensures Equals(b, Some(a))
    decreases a
  {
    match a
    case Expires(inner, _, _) => EqualsSymmetric(inner, b.inner);
    case Compound(parts) =>
      forall i | 0 <= i < |parts| ensures b.parts[i].Some? && Equals(b.parts[i].value, parts[i]) {
        EqualsSymmetric(parts[i].value, b.parts[i].value);
      }
    case _ =>
  }

  /** Key equality is transitive. */
  lemma {:induction false} EqualsTransitive(a: CacheKey, b: CacheKey, c: CacheKey)
    requires Equals(a, Some(b)) && Equals(b, Some(c))
    ensures Equals(a, Some(c))
    decreases a
  {
    match a
    case Expires(inner, _, _) => EqualsTransitive(inner, b.inner, c.inner);
    case Compound(parts) =>
      forall i | 0 <= i < |parts| ensures Equals(parts[i].value, c.parts[i]) {
        EqualsTransitive(parts[i].value, b.parts[i].value, c.parts[i].value);
      }
    case _ =>
  }

  /** Every key without a `null` inside equals itself; a compound key with a `null` sub-key equals nothing, not even itself. */
  lemma {:induction false} EqualsReflexive(a: CacheKey)
    ensures NullFree(a) ==> Equals(a, Some(a))
    ensures a.Compound? && (exists i :: 0 <= i < |a.parts| && a.parts[i].None?) ==> !Equals(a, Some(a))
    decreases a
  {
    match a
    case Expires(inner, _, _) => EqualsReflexive(inner);
    case Compound(parts) =>
      forall i | 0 <= i < |parts| && parts[i].Some? {
        EqualsReflexive(parts[i].value);
      }
    case _ =>
  }

  /**
   * Whether a key accepts a value stored under an identical key: no part of
   * it is an invalid key or a cached key without an inner key, except below
   * an expires key that had not expired when it was built.
   */
  predicate SelfValidating(k: CacheKey)
    decreases k
  {
    match k
    case Invalid(_) => false
    case Expires(inner, created, expiration) => expiration > created || SelfValidating(inner)
    case Compound(parts) => forall i :: 0 <= i < |parts| ==> parts[i].Some? && SelfValidating(parts[i].value)
    case Cached(_, cached) => cached.Some? && SelfValidating(cached.value)
    case _ => true
  }

  /** A key built again from unchanged inputs accepts what was stored under it exactly when it is self-validating. */
  lemma {:induction false} ValidReflexive(k: CacheKey)
    requires NullFree(k)
    ensures Valid(k, Some(k)) <==> SelfValidating(k)
    decreases k
  {
    EqualsReflexive(k);
    match k
    case Expires(inner, _, _) => ValidReflexive(inner);
    case Compound(parts) =>
      forall i | 0 <= i < |parts| ensures Valid(parts[i].value, parts[i]) <==> SelfValidating(parts[i].value) {
        ValidReflexive(parts[i].value);
      }
    case Cached(_, cached) =>
      if cached.Some? {
        ValidReflexive(cached.value);
      }
    case _ =>
  }

  /** The order of the sub-keys is part of a compound key's identity. */
  lemma CompoundOrderMatters(a: CacheKey, b: CacheKey)
    requires !Equals(a, Some(b))
    ensures !Equals(Compound([Some(a), Some(b)]), Some(Compound([Some(b), Some(a)])))
  {
    assert [Some(a), Some(b)][0].value == a && [Some(b), Some(a)][0] == Some(b);
  }

  /** What the timestamp loop computes: -1 when any timestamp is -1, and otherwise the largest timestamp, or 0. */
  lemma {:induction false} LatestFromSpec(acc: int, ts: seq<int>)
    requires acc >= 0
    ensures -1 in ts ==> LatestFrom(acc, ts) == -1
    ensures -1 !in ts ==> (LatestFrom(acc, ts) >= acc
      && (forall i :: 0 <= i < |ts| ==> ts[i] <= LatestFrom(acc, ts))
      && (LatestFrom(acc, ts) == acc || LatestFrom(acc, ts) in ts))
    decreases |ts|
  {
    if ts != [] && ts[0] != -1 {
      var acc' := if ts[0] > acc then ts[0] else acc;
      LatestFromSpec(acc', ts[1..]);
      assert ts == [ts[0]] + ts[1..];
    }
  }

  lemma LatestSpec(ts: seq<int>)
    ensures -1 in ts ==> Latest(ts) == -1
    ensures -1 !in ts ==> (Latest(ts) >= 0
      && (forall i :: 0 <= i < |ts| ==> ts[i] <= Latest(ts))
      && (Latest(ts) == 0 || Latest(ts) in ts))
  {
    LatestFromSpec(0, ts);
  }

  /** An empty compound key reports 0, a compound with a sub-key reporting -1 reports -1. */
  lemma CompoundLastModified(parts: seq<Option<CacheKey>>, f: string -> int)
    requires NullFree(Compound(parts))
    ensures parts == [] ==> LastModified(Compound(parts), f) == 0
    ensures (exists i :: 0 <= i < |parts| && LastModified(parts[i].value, f) == -1) ==> LastModified(Compound(parts), f) == -1
    ensures (forall i :: 0 <= i < |parts| ==> LastModified(parts[i].value, f) != -1) ==>
      (LastModified(Compound(parts), f) >= 0
      && forall i :: 0 <= i < |parts| ==> LastModified(parts[i].value, f) <= LastModified(Compound(parts), f))
  {
    var ts := PartTimestamps(Compound(parts), |parts|, f);
    LatestSpec(ts);
    if exists i :: 0 <= i < |parts| && LastModified(parts[i].value, f) == -1 {
      var i :| 0 <= i < |parts| && LastModified(parts[i].value, f) == -1;
      assert ts[i] == -1;
    }
  }
}
