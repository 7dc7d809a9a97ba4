/**
 * `CachedCacheKey` as an object: a key named by a string whose real key, a
 * URL list, is kept in a side cache from one request to the next. The side
 * cache is the class's static `SimpleCache`; here it is passed in.
 */
module CachedKey {
  import opened Wrappers
  import opened CacheKeys
  import opened CacheValues
  import opened SimpleCaches

  /** The seed of the invalid key a string never seen before gets: the class name. */
  const CLASS_NAME: string := "com.indoqa.xml.pipeline.caching.CachedCacheKey"

  /**
   * What `setKey(key)` makes the inner key, given the side cache: an
   * invalid key when nothing is stored under the string (valid or not),
   * otherwise the key the stored value carries, which must be a URL list
   * (or `null`) for the cast to succeed.
   */
  function SetKeyOutcome(hash: HashCode, side: seq<Entry>, key: string): (r: Result<Option<CacheKey>>)
    ensures Get(hash, side, Some(ObjectKey(key)), true).None? ==> r == Ok(Some(Invalid(CLASS_NAME)))
    ensures r.Err? ==> r.error == ClassCast
    ensures r.Ok? && r.value != Some(Invalid(CLASS_NAME)) ==> r.value.None? || r.value.value.URLList?
    ensures var found := Get(hash, side, Some(ObjectKey(key)), true);
      found.Some? && GetValue(found.value).KeyPayload? && (GetValue(found.value).cacheKey.None? || GetValue(found.value).cacheKey.value.URLList?) ==>
        r == Ok(GetValue(found.value).cacheKey)
    ensures var found := Get(hash, side, Some(ObjectKey(key)), true);
      found.Some? && !(GetValue(found.value).KeyPayload? && (GetValue(found.value).cacheKey.None? || GetValue(found.value).cacheKey.value.URLList?)) ==>
        r == Err(ClassCast)
  {
    match Get(hash, side, Some(ObjectKey(key)), true)
    case None => Ok(Some(Invalid(CLASS_NAME)))
    case Some(stored) =>
      match GetValue(stored)
      case KeyPayload(k) => if k.None? || k.value.URLList? then Ok(k) else Err(ClassCast)
      case _ => Err(ClassCast)
  }

  /** A string seen for the first time gets an invalid inner key, so nothing stored can be served for it. */
  lemma FirstSetKey(hash: HashCode, side: seq<Entry>, key: string, other: Option<CacheKey>)
    requires Find(hash, side, Some(ObjectKey(key))).None?
    ensures SetKeyOutcome(hash, side, key) == Ok(Some(Invalid(CLASS_NAME)))
    ensures !Valid(Cached(key, SetKeyOutcome(hash, side, key).value), other)
  {
  }

  /** After `setValue(v)` under a string, `setKey` with that string yields `v` again. */
  lemma SetValueThenSetKey(hash: HashCode, side: seq<Entry>, key: string, value: Option<CacheKey>)
    requires value.None? || value.value.URLList?
    ensures SetKeyOutcome(hash, Stored(hash, side, Some(ObjectKey(key)), Some(CachedValue(value))), key) == Ok(value)
  {
    StoreThenLookup(hash, side, Some(ObjectKey(key)), Some(CachedValue(value)), Some(ObjectKey(key)));
  }

  class CachedCacheKey {
    /** The string given to `setKey`, wrapped in an `ObjectCacheKey`; `null` before. */
    var internal: Option<string>
    /** The real key: from the side cache, or set by `setValue`. */
    var cached: Option<CacheKey>

    constructor ()
      ensures internal.None? && cached.None?
    {
      internal := None;
      cached := None;
    }

    /** The side-cache key `internalCacheKey`. */
    function InternalKey(): Option<CacheKey>
      reads this
    {
      if internal.None? then None else Some(ObjectKey(internal.value))
    }

    /** `setKey`: looks the string up in the side cache, valid or not. */
    method SetKey(key: string, side: SimpleCache) returns (outcome: Outcome)
      modifies this
      ensures internal == Some(key)
      ensures SetKeyOutcome(side.hash, side.entries, key).Ok? ==> outcome == Pass && cached == SetKeyOutcome(side.hash, side.entries, key).value
      ensures SetKeyOutcome(side.hash, side.entries, key).Err? ==> outcome == Fail(ClassCast) && cached == old(cached)
    {
      internal := Some(key);
      var stored := side.GetValue(InternalKey(), true);
      if stored.None? {
        cached := Some(Invalid(CLASS_NAME));
        return Pass;
      }
      var payload := GetValue(stored.value);
      if !payload.KeyPayload? || !(payload.cacheKey.None? || payload.cacheKey.value.URLList?) {
        return Fail(ClassCast);
      }
      cached := payload.cacheKey;
      return Pass;
    }

    /** `setValue`: the URL list becomes the inner key and is stored in the side cache under the string. */
    method SetValue(value: Option<CacheKey>, side: SimpleCache)
      requires value.None? || value.value.URLList?
      requires side.Valid()
      modifies this, side
      ensures internal == old(internal) && cached == value
      ensures side.Valid()
      ensures side.entries == Stored(side.hash, old(side.entries), InternalKey(), Some(CachedValue(value)))
    {
      cached := value;
      side.Put(InternalKey(), Some(CachedValue(cached)));
    }
  }
}
