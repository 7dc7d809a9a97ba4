/**
 * `CompoundCacheKey` as an object: an ordered list of sub-keys that grows
 * by `addCacheKey`. Its `equals`, `isValid` and `getLastModified` are the
 * loops of the Java class, each proved to compute the key algebra's
 * `Equals`, `Valid` and `LastModified` of the compound value it holds.
 */
module CompoundKey {
  import opened Wrappers
  import opened CacheKeys

  class CompoundCacheKey {
    /** The sub-keys in insertion order; `getCacheKeys` hands out this list read-only. */
    var keys: seq<Option<CacheKey>>

    constructor ()
      ensures keys == []
    {
      keys := [];
    }

    /** The key value this object currently stands for. */
    function Key(): CacheKey
      reads this
    {
      Compound(keys)
    }

    /** `addCacheKey`: appends at the end, `null` included. */
    method AddCacheKey(cacheKey: Option<CacheKey>)
      modifies this
      ensures keys == old(keys) + [cacheKey]
    {
      keys := keys + [cacheKey];
    }

    /** `equals`: same length, and every sub-key of this side non-null and equal to its partner. */
    method Equals(other: Option<CacheKey>) returns (equal: bool)
      ensures equal == CacheKeys.Equals(Key(), other)
    {
      if other.None? || !other.value.Compound? || |keys| != |other.value.parts| {
        return false;
      }
      var theirs := other.value.parts;
      var i := 0;
      while i < |keys|
        invariant 0 <= i <= |keys|
        invariant forall j :: 0 <= j < i ==> keys[j].Some? && CacheKeys.Equals(keys[j].value, theirs[j])
      {
        if keys[i].None? || !CacheKeys.Equals(keys[i].value, theirs[i]) {
          return false;
        }
        i := i + 1;
      }
      return true;
    }

    /** `isValid`: an equal compound key whose sub-keys are all valid position by position. */
    method IsValid(other: Option<CacheKey>) returns (valid: bool)
      ensures valid == Valid(Key(), other)
    {
      var equal := Equals(other);
      if !equal {
        return false;
      }
      var theirs := other.value.parts;
      var i := 0;
      while i < |keys|
        invariant 0 <= i <= |keys|
        invariant forall j :: 0 <= j < i ==> Valid(keys[j].value, theirs[j])
      {
        if !Valid(keys[i].value, theirs[i]) {
          return false;
        }
        i := i + 1;
      }
      return true;
    }

    /**
     * `getLastModified`: the largest sub-key timestamp, starting from 0,
     * and -1 as soon as one sub-key reports -1. A `null` sub-key reached
     * before that is a `NullPointerException`.
     */
    method GetLastModified(lastModifiedOf: string -> int) returns (r: Result<int>)
      ensures r == LastModifiedOutcome(Key(), lastModifiedOf)
      ensures NullFree(Key()) ==> r == Ok(LastModified(Key(), lastModifiedOf))
    {
      if NullFree(Key()) {
        NullFreeLastModified(Key(), lastModifiedOf);
      }
      var lastModified := 0;
      var i := 0;
      while i < |keys|
        invariant 0 <= i <= |keys|
        invariant PartsOutcome(Key(), i, lastModified, lastModifiedOf) == LastModifiedOutcome(Key(), lastModifiedOf)
      {
        if keys[i].None? {
          return Err(NullPointer);
        }
        var each := LastModifiedOutcome(keys[i].value, lastModifiedOf);
        if each.Err? {
          return Err(each.error);
        }
        if each.value == -1 {
          return Ok(-1);
        }
        if each.value > lastModified {
          lastModified := each.value;
        }
        i := i + 1;
      }
      return Ok(lastModified);
    }
  }
}
