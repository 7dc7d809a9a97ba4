/**
 * `InMemoryLRUResourceCache`: the bounded local cache of compiled
 * stylesheets and schemas. Its `LinkedHashMap` keeps insertion order (it
 * is not created in access order), and after putting a new key it drops
 * the eldest entry once there are more than 255, so despite its name it
 * evicts the earliest inserted key, not the least recently used one.
 *
 * The map is the sequence of its entries in insertion order, eldest first.
 */
module LruCache {
  import opened Wrappers

  /** `CACHE_SIZE`. */
  const CacheSize: nat := 255

  const NullKeyMessage: string := "null keys not supported"

  /** `ValidityValue`: a cached value with the modification time it was compiled for. */
  datatype ValidityValue<V> = ValidityValue(value: V, lastModified: int)

  type Entries<V> = seq<(string, ValidityValue<V>)>

  predicate UniqueKeys<V>(entries: Entries<V>) {
    forall i, j :: 0 <= i < j < |entries| ==> entries[i].0 != entries[j].0
  }

  /** The index of `key`, if it is mapped. */
  function IndexOf<V>(entries: Entries<V>, key: string): (r: Option<nat>)
    ensures r.Some? ==> r.value < |entries| && entries[r.value].0 == key
    ensures r.None? <==> forall i :: 0 <= i < |entries| ==> entries[i].0 != key
    decreases |entries|
  {
    if entries == [] then None
    else if entries[|entries| - 1].0 == key then Some(|entries| - 1)
    else IndexOf(entries[..|entries| - 1], key)
  }

  /** `data.get(key)`. */
  function Find<V>(entries: Entries<V>, key: string): (r: Option<ValidityValue<V>>)
    ensures r.None? <==> IndexOf(entries, key).None?
  {
    var i := IndexOf(entries, key);
    if i.Some? then Some(entries[i.value].1) else None
  }

  /** The `put` of the map itself: an existing key keeps its place and takes the new value, a new key goes last. */
  function Inserted<V>(entries: Entries<V>, key: string, value: ValidityValue<V>): (r: Entries<V>)
    ensures IndexOf(entries, key).Some? ==> |r| == |entries|
    ensures IndexOf(entries, key).None? ==> r == entries + [(key, value)]
  {
    var i := IndexOf(entries, key);
    if i.Some? then entries[i.value := (key, value)] else entries + [(key, value)]
  }

  /** `put` with `removeEldestEntry`: beyond `CACHE_SIZE` entries the eldest goes. */
  function PutEntries<V>(entries: Entries<V>, key: string, value: ValidityValue<V>): Entries<V> {
    var r := Inserted(entries, key, value);
    if |r| > CacheSize then r[1..] else r
  }

  lemma IndexOfUnique<V>(entries: Entries<V>, key: string, i: nat)
    requires UniqueKeys(entries) && i < |entries| && entries[i].0 == key
    ensures IndexOf(entries, key) == Some(i)
  {
  }

  /** A put keeps the keys distinct and the cache within `CACHE_SIZE` entries. */
  lemma PutKeepsInvariant<V>(entries: Entries<V>, key: string, value: ValidityValue<V>)
    requires UniqueKeys(entries) && |entries| <= CacheSize
    ensures UniqueKeys(PutEntries(entries, key, value)) && |PutEntries(entries, key, value)| <= CacheSize
  {
    var r := Inserted(entries, key, value);
    assert UniqueKeys(r);
    if |r| > CacheSize {
      var s := r[1..];
      forall i, j | 0 <= i < j < |s| ensures s[i].0 != s[j].0 {
        assert s[i] == r[i + 1] && s[j] == r[j + 1];
      }
    }
  }

  /** After `put(key, value)`, `get(key)` gives `value`: a put overwrites. */
  lemma PutThenFind<V>(entries: Entries<V>, key: string, value: ValidityValue<V>)
    requires UniqueKeys(entries) && |entries| <= CacheSize
    ensures Find(PutEntries(entries, key, value), key) == Some(value)
  {
    var r := Inserted(entries, key, value);
    var i := IndexOf(entries, key);
    PutKeepsInvariant(entries, key, value);
    var out := PutEntries(entries, key, value);
    if i.Some? {
      assert r[i.value] == (key, value);
      IndexOfUnique(out, key, i.value);
    } else {
      assert r[|r| - 1] == (key, value);
      IndexOfUnique(out, key, |out| - 1);
    }
  }

  /** Replacing or appending the entry of `key` leaves the index of every other key as it was. */
  lemma UpdateKeepsOthers<V>(entries: Entries<V>, out: Entries<V>, key: string, value: ValidityValue<V>, other: string)
    requires UniqueKeys(entries) && UniqueKeys(out) && other != key
    requires (exists k :: 0 <= k < |entries| && entries[k].0 == key && out == entries[k := (key, value)])
      || out == entries + [(key, value)]
    ensures Find(out, other) == Find(entries, other)
  {
    var i := IndexOf(entries, other);
    if i.Some? {
      assert out[i.value] == entries[i.value];
      IndexOfUnique(out, other, i.value);
    } else {
      forall j | 0 <= j < |out| ensures out[j].0 != other {
        if j < |entries| {
          assert out[j] == entries[j] || out[j].0 == key;
        }
      }
    }
  }

  /**
   * Putting a key already present, or a new key into a cache with room,
   * leaves every other key's value as it was.
   */
  lemma PutKeepsOthers<V>(entries: Entries<V>, key: string, value: ValidityValue<V>, other: string)
    requires UniqueKeys(entries) && |entries| <= CacheSize && other != key
    requires IndexOf(entries, key).Some? || |entries| < CacheSize
    ensures Find(PutEntries(entries, key, value), other) == Find(entries, other)
  {
    var out := PutEntries(entries, key, value);
    PutKeepsInvariant(entries, key, value);
    assert out == Inserted(entries, key, value);
    UpdateKeepsOthers(entries, out, key, value, other);
  }

  /**
   * A new key put into a full cache evicts the entry inserted first, and
   * only that one; the order of reads plays no part.
   */
  lemma PutEvictsEldest<V>(entries: Entries<V>, key: string, value: ValidityValue<V>)
    requires |entries| == CacheSize && IndexOf(entries, key).None?
    ensures PutEntries(entries, key, value) == entries[1..] + [(key, value)]
  {
    var out := PutEntries(entries, key, value);
    assert out == entries[1..] + [(key, value)];
  }

  /** The eldest of a full cache with distinct keys is gone after a new key is put. */
  lemma EldestGone<V>(entries: Entries<V>, key: string, value: ValidityValue<V>)
    requires UniqueKeys(entries) && |entries| == CacheSize && IndexOf(entries, key).None?
    ensures Find(PutEntries(entries, key, value), entries[0].0) == None
  {
    var out := PutEntries(entries, key, value);
    assert out == entries[1..] + [(key, value)];
    forall j | 0 <= j < |out| ensures out[j].0 != entries[0].0 {
      if j < |out| - 1 {
        assert out[j] == entries[j + 1];
      }
    }
  }

  class InMemoryLRUResourceCache<V> {
    /** `data`, eldest entry first. */
    var entries: Entries<V>

    ghost predicate Valid()
      reads this
    {
      |entries| <= CacheSize && UniqueKeys(entries)
    }

    constructor ()
      ensures entries == [] && Valid()
    {
      entries := [];
    }

    /** `containsKey`: `true` exactly when the key is mapped; a `null` key is an `IllegalArgumentException`. */
    method ContainsKey(key: Option<string>) returns (r: Result<bool>)
      ensures key.None? ==> r == Err(IllegalArgument(NullKeyMessage))
      ensures key.Some? ==> r.Ok? && (r.value <==> exists i :: 0 <= i < |entries| && entries[i].0 == key.value)
    {
      if key.None? {
        return Err(IllegalArgument(NullKeyMessage));
      }
      var i := IndexOf(entries, key.value);
      return Ok(i.Some?);
    }

    /** `get`: the value mapped to the key, or `null`; a `null` key is an `IllegalArgumentException`. */
    method Get(key: Option<string>) returns (r: Result<Option<ValidityValue<V>>>)
      requires Valid()
      ensures key.None? ==> r == Err(IllegalArgument(NullKeyMessage))
      ensures key.Some? ==> r.Ok?
      ensures key.Some? && r.Ok? && r.value.Some? ==> (key.value, r.value.value) in entries
      ensures key.Some? && r.Ok? && r.value.None? ==> forall i :: 0 <= i < |entries| ==> entries[i].0 != key.value
    {
      if key.None? {
        return Err(IllegalArgument(NullKeyMessage));
      }
      var found := Find(entries, key.value);
      return Ok(found);
    }

    /** `put`: the map's own `put`, then `removeEldestEntry`; a `null` key is an `IllegalArgumentException`. */
    method Put(key: Option<string>, value: ValidityValue<V>) returns (r: Outcome)
      requires Valid()
      modifies this
      ensures Valid()
      ensures key.None? ==> r == Fail(IllegalArgument(NullKeyMessage)) && entries == old(entries)
      ensures key.Some? ==> r == Pass && entries == PutEntries(old(entries), key.value, value)
    {
      if key.None? {
        return Fail(IllegalArgument(NullKeyMessage));
      }
      PutKeepsInvariant(entries, key.value, value);
      entries := Inserted(entries, key.value, value);
      if |entries| > CacheSize {
        entries := entries[1..];
      }
      return Pass;
    }
  }
}
