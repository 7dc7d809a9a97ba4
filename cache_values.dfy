/**
 * The cache values: every value is bound, for its whole life, to the key
 * it was produced under, and that key judges whether the value may be
 * served for a request (`AbstractCacheValue.isValid`).
 *
 * A `CompleteCacheValue` copies the byte array it is given and hands out
 * copies, so no caller can reach its bytes: it behaves as a value, and it
 * is one here.
 */
module CacheValues {
  import opened Wrappers
  import opened JavaLang
  import opened CacheKeys

  datatype CacheValue =
    | Complete(content: seq<byte>, key: Option<CacheKey>)  // CompleteCacheValue
    | ObjectValue(obj: string, key: Option<CacheKey>)      // ObjectCacheValue
    | CachedValue(key: Option<CacheKey>)                   // CachedCacheValue

  /** What `getValue` returns: a copy of the bytes, the wrapped object, or the bound key. */
  datatype Payload = Bytes(bytes: seq<byte>) | Obj(obj: string) | KeyPayload(cacheKey: Option<CacheKey>)

  /** `isValid(candidate)`: the bound key, when there is one, judges the candidate. */
  function IsValid(v: CacheValue, candidate: Option<CacheKey>): (r: bool)
    ensures v.key.None? ==> !r
    ensures v.key.Some? ==> (r <==> Valid(v.key.value, candidate))
  {
    v.key.Some? && Valid(v.key.value, candidate)
  }

  /** `getCacheKey` returns exactly the key given to the constructor. */
  function GetCacheKey(v: CacheValue): (r: Option<CacheKey>)
    ensures forall c :: IsValid(v, c) ==> r.Some? && Valid(r.value, c)
  {
    v.key
  }

  /** `getValue`. */
  function GetValue(v: CacheValue): (r: Payload)
    ensures v.Complete? ==> r == Bytes(v.content)
    ensures v.ObjectValue? ==> r == Obj(v.obj)
    ensures v.CachedValue? ==> r == KeyPayload(GetCacheKey(v))
  {
    match v
    case Complete(content, _) => Bytes(content)
    case ObjectValue(obj, _) => Obj(obj)
    case CachedValue(key) => KeyPayload(key)
  }

  /** `writeTo`: the stored bytes, in order; the other two kinds throw. */
  function WriteTo(v: CacheValue): (r: Result<seq<byte>>)
    ensures r.Ok? <==> v.Complete?
    ensures r.Ok? ==> r.value == v.content && Bytes(r.value) == GetValue(v)
    ensures r.Err? ==> r.error == UnsupportedOperation
  {
    if v.Complete? then Ok(v.content) else Err(UnsupportedOperation)
  }

  /** `size` of a complete value: the number of bytes `writeTo` writes. */
  function Size(v: CacheValue): (r: nat)
    requires v.Complete?
    ensures WriteTo(v).Ok? && r == |WriteTo(v).value|
  {
    |v.content|
  }

  /**
   * `setValue(String)`: a complete value takes the string's UTF-8 bytes
   * and keeps its key; the other two kinds throw.
   */
  function SetValue(v: CacheValue, s: string): (r: Result<CacheValue>)
    ensures r.Ok? <==> v.Complete?
    ensures r.Err? ==> r.error == UnsupportedOperation
    ensures r.Ok? ==> r.value.Complete? && r.value.key == v.key && |s| <= Size(r.value) <= 4 * |s|
  {
    if v.Complete? then Ok(Complete(Utf8(s), v.key)) else Err(UnsupportedOperation)
  }

  /** What `setValue` stores can be read back: `writeTo` then yields bytes that decode to the string. */
  lemma SetValueRoundTrip(v: CacheValue, s: string)
    requires v.Complete?
    ensures SetValue(v, s).Ok?
    ensures var w := WriteTo(SetValue(v, s).value); w.Ok? && Utf8Decode(w.value) == Some(CodePoints(s))
    ensures forall c :: IsValid(SetValue(v, s).value, c) == IsValid(v, c)
  {
    Utf8RoundTrip(s);
  }
}
