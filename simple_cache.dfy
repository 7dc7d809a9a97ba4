/**
 * `AbstractCache` and `SimpleCache`: a store of key/value entries with a
 * validity filter on lookup. The store is the `WeakHashMap` of
 * `SimpleCache`: a lookup finds the entry whose key has the argument's
 * hash code and is equal to the argument, `put` on a key that is already
 * present in that sense replaces the value and keeps the stored key, and a
 * new key is appended.
 *
 * The hash codes are an oracle, `hash`: the keys' `hashCode` is a MurmurHash
 * of their contents that this model does not compute. It is not consistent
 * with `equals` for every key class (a timestamped key hashes its timestamp,
 * which `equals` ignores), so an equal key can miss. The map spreads each
 * hash code by a bijection of 32-bit integers before comparing, so comparing
 * the hash codes themselves is the same test.
 */
module SimpleCaches {
  import opened Wrappers
  import opened CacheKeys
  import opened CacheValues

  datatype Entry = Entry(key: Option<CacheKey>, value: Option<CacheValue>)

  /** `hashCode` of a key; `None` stands for the map's stand-in object for a `null` key. */
  type HashCode = Option<CacheKey> -> int

  /** Does a lookup for `arg` hit an entry stored under `stored`? Same hash code, and equal; `null` only finds `null`. */
  predicate Matches(hash: HashCode, arg: Option<CacheKey>, stored: Option<CacheKey>) {
    hash(arg) == hash(stored) && if arg.None? then stored.None? else CacheKeys.Equals(arg.value, stored)
  }

  lemma MatchesSymmetric(hash: HashCode, a: Option<CacheKey>, b: Option<CacheKey>)
    requires Matches(hash, a, b)
    ensures Matches(hash, b, a)
  {
    if a.Some? {
      EqualsSymmetric(a.value, b.value);
    }
  }

  lemma MatchesTransitive(hash: HashCode, a: Option<CacheKey>, b: Option<CacheKey>, c: Option<CacheKey>)
    requires Matches(hash, a, b) && Matches(hash, b, c)
    ensures Matches(hash, a, c)
  {
    if a.Some? {
      EqualsTransitive(a.value, b.value, c.value);
    }
  }

  /** No entry's key matches an earlier entry's key: the map has no duplicate keys. */
  ghost predicate Distinct(hash: HashCode, entries: seq<Entry>) {
    forall i, j :: 0 <= i < j < |entries| ==> !Matches(hash, entries[j].key, entries[i].key)
  }

  /** The position of the entry a lookup for `key` hits, if any. */
  function Find(hash: HashCode, entries: seq<Entry>, key: Option<CacheKey>): (r: Option<nat>)
    ensures r.Some? ==> r.value < |entries| && Matches(hash, key, entries[r.value].key)
    ensures r.Some? ==> forall j :: 0 <= j < r.value ==> !Matches(hash, key, entries[j].key)
    ensures r.None? <==> forall j :: 0 <= j < |entries| ==> !Matches(hash, key, entries[j].key)
  {
    if entries == [] then None
    else if Matches(hash, key, entries[0].key) then Some(0)
    else match Find(hash, entries[1..], key)
      case None => None
      case Some(i) => Some(i + 1)
  }

  /** `retrieve`: the value stored under an equal key, or `null`. */
  function Lookup(hash: HashCode, entries: seq<Entry>, key: Option<CacheKey>): Option<CacheValue> {
    match Find(hash, entries, key)
    case None => None
    case Some(i) => entries[i].value
  }

  /** `store`: replace the value of the matching entry, or append a new entry. */
  function Stored(hash: HashCode, entries: seq<Entry>, key: Option<CacheKey>, value: Option<CacheValue>): seq<Entry> {
    match Find(hash, entries, key)
    case None => entries + [Entry(key, value)]
    case Some(i) => entries[i := Entry(entries[i].key, value)]
  }

  /** `doRemove`: drop the matching entry, if any. */
  function Removed(hash: HashCode, entries: seq<Entry>, key: Option<CacheKey>): seq<Entry> {
    match Find(hash, entries, key)
    case None => entries
    case Some(i) => entries[..i] + entries[i + 1..]
  }

  /** `get(key, includeInvalid)`; `get(key)` is `get(key, false)`. */
  function Get(hash: HashCode, entries: seq<Entry>, key: Option<CacheKey>, includeInvalid: bool): (r: Option<CacheValue>)
    ensures r.Some? ==> r == Lookup(hash, entries, key)
    ensures includeInvalid ==> r == Lookup(hash, entries, key)
    ensures !includeInvalid ==> (r.Some? <==> Lookup(hash, entries, key).Some? && IsValid(Lookup(hash, entries, key).value, key))
  {
    var stored := Lookup(hash, entries, key);
    if includeInvalid || (stored.Some? && IsValid(stored.value, key)) then stored else None
  }

  /** The lookup for `probe` hits entry `i` exactly when it is the first entry `probe` matches. */
  lemma FindIs(hash: HashCode, entries: seq<Entry>, probe: Option<CacheKey>, i: nat)
    requires i < |entries| && Matches(hash, probe, entries[i].key)
    requires forall j :: 0 <= j < i ==> !Matches(hash, probe, entries[j].key)
    ensures Find(hash, entries, probe) == Some(i)
  {
  }

  /** A probe equal to the stored key hits the entry wherever the stored key would. */
  lemma FindEqual(hash: HashCode, entries: seq<Entry>, key: Option<CacheKey>, probe: Option<CacheKey>)
    requires Matches(hash, probe, key)
    ensures Find(hash, entries, probe) == Find(hash, entries, key)
  {
    forall j | 0 <= j < |entries|
      ensures Matches(hash, probe, entries[j].key) <==> Matches(hash, key, entries[j].key)
    {
      if Matches(hash, probe, entries[j].key) {
        MatchesSymmetric(hash, probe, key);
        MatchesTransitive(hash, key, probe, entries[j].key);
      }
      if Matches(hash, key, entries[j].key) {
        MatchesTransitive(hash, probe, key, entries[j].key);
      }
    }
  }

  /** `store` keeps the keys distinct. */
  lemma StoredDistinct(hash: HashCode, entries: seq<Entry>, key: Option<CacheKey>, value: Option<CacheValue>)
    requires Distinct(hash, entries)
    ensures Distinct(hash, Stored(hash, entries, key, value))
  {
    var s := Stored(hash, entries, key, value);
    if Find(hash, entries, key).None? {
      forall i | 0 <= i < |entries|
        ensures !Matches(hash, key, entries[i].key)
      {
      }
      assert s == entries + [Entry(key, value)];
    }
  }

  /** Store, then retrieve with an equal key: the stored value comes back. */
  lemma StoreThenLookup(hash: HashCode, entries: seq<Entry>, key: Option<CacheKey>, value: Option<CacheValue>, probe: Option<CacheKey>)
    requires Matches(hash, probe, key)
    ensures Lookup(hash, Stored(hash, entries, key, value), probe) == value
  {
    var s := Stored(hash, entries, key, value);
    FindEqual(hash, entries, key, probe);
    match Find(hash, entries, key)
    case None =>
      FindIs(hash, s, probe, |entries|);
    case Some(i) =>
      FindIs(hash, s, probe, i);
  }

  /** Store leaves the lookups of unrelated keys untouched. */
  lemma StoreLeavesOthers(hash: HashCode, entries: seq<Entry>, key: Option<CacheKey>, value: Option<CacheValue>, probe: Option<CacheKey>)
    requires !Matches(hash, probe, key)
    ensures Lookup(hash, Stored(hash, entries, key, value), probe) == Lookup(hash, entries, probe)
  {
    var s := Stored(hash, entries, key, value);
    match Find(hash, entries, probe) {
      case None =>
        assert Find(hash, s, probe).None?;
      case Some(i) =>
        if Find(hash, entries, key) == Some(i) {
          MatchesSymmetric(hash, key, entries[i].key);
          MatchesTransitive(hash, probe, entries[i].key, key);
        }
        FindIs(hash, s, probe, i);
    }
  }

  /** The entries left once entry `i` is dropped, position by position. */
  lemma DropAt(entries: seq<Entry>, i: nat)
    requires i < |entries|
    ensures var r := entries[..i] + entries[i + 1..];
      |r| == |entries| - 1 && forall j :: 0 <= j < |r| ==> r[j] == entries[if j < i then j else j + 1]
  {
  }

  /** After `doRemove` the key is absent, provided the keys were distinct. */
  lemma RemovedAbsent(hash: HashCode, entries: seq<Entry>, key: Option<CacheKey>)
    requires Distinct(hash, entries)
    ensures Lookup(hash, Removed(hash, entries, key), key).None?
    ensures Find(hash, Removed(hash, entries, key), key).None?
  {
    match Find(hash, entries, key)
    case None =>
    case Some(i) =>
      var r := Removed(hash, entries, key);
      forall j | 0 <= j < |r|
        ensures !Matches(hash, key, r[j].key)
      {
        if j >= i {
          assert r[j] == entries[j + 1];
          if Matches(hash, key, entries[j + 1].key) {
            MatchesSymmetric(hash, key, entries[j + 1].key);
            MatchesTransitive(hash, entries[j + 1].key, key, entries[i].key);
          }
        }
      }
  }

  /** `doRemove` keeps the keys distinct. */
  lemma RemovedDistinct(hash: HashCode, entries: seq<Entry>, key: Option<CacheKey>)
    requires Distinct(hash, entries)
    ensures Distinct(hash, Removed(hash, entries, key))
  {
    match Find(hash, entries, key)
    case None =>
    case Some(i) =>
      var r := Removed(hash, entries, key);
      DropAt(entries, i);
      forall a, b | 0 <= a < b < |r|
        ensures !Matches(hash, r[b].key, r[a].key)
      {
        var a' := if a < i then a else a + 1;
        var b' := if b < i then b else b + 1;
        assert r[a] == entries[a'] && r[b] == entries[b'] && a' < b';
      }
  }

  /** `doRemove` leaves the lookups of unrelated keys untouched. */
  lemma RemovedLeavesOthers(hash: HashCode, entries: seq<Entry>, key: Option<CacheKey>, probe: Option<CacheKey>)
    requires !Matches(hash, probe, key)
    ensures Lookup(hash, Removed(hash, entries, key), probe) == Lookup(hash, entries, probe)
  {
    match Find(hash, entries, key)
    case None =>
    case Some(i) =>
      var r := Removed(hash, entries, key);
      DropAt(entries, i);
      if Matches(hash, probe, entries[i].key) {
        MatchesSymmetric(hash, key, entries[i].key);
        MatchesTransitive(hash, probe, entries[i].key, key);
      }
      RemovedLookup(hash, entries, i, probe);
  }

  /** Dropping an entry that `probe` does not match leaves the lookup for `probe` as it was. */
  lemma RemovedLookup(hash: HashCode, entries: seq<Entry>, i: nat, probe: Option<CacheKey>)
    requires i < |entries| && !Matches(hash, probe, entries[i].key)
    ensures Lookup(hash, entries[..i] + entries[i + 1..], probe) == Lookup(hash, entries, probe)
  {
    var r := entries[..i] + entries[i + 1..];
    DropAt(entries, i);
    match Find(hash, entries, probe) {
      case None =>
        forall j | 0 <= j < |r|
          ensures !Matches(hash, probe, r[j].key)
        {
          assert r[j] == entries[if j < i then j else j + 1];
        }
      case Some(p) =>
        var p' := if p < i then p else p - 1;
        assert r[p'] == entries[p];
        forall j | 0 <= j < p'
          ensures !Matches(hash, probe, r[j].key)
        {
          assert r[j] == entries[if j < i then j else j + 1];
        }
        FindIs(hash, r, probe, p');
    }
  }

  /**
   * Two equal keys whose hash codes differ, as a timestamped key and the
   * same key with a new timestamp: the second misses what was stored under
   * the first, and storing under it adds a second entry, so the map then
   * holds two equal keys, each with its own value.
   */
  lemma {:induction false} RehashedKeyMisses(hash: HashCode, key: CacheKey, first: CacheValue, probe: CacheKey, second: CacheValue)
    requires CacheKeys.Equals(probe, Some(key)) && hash(Some(probe)) != hash(Some(key))
    ensures var one := Stored(hash, [], Some(key), Some(first));
      Lookup(hash, one, Some(probe)).None? &&
      var two := Stored(hash, one, Some(probe), Some(second));
      two == [Entry(Some(key), Some(first)), Entry(Some(probe), Some(second))] &&
      Lookup(hash, two, Some(probe)) == Some(second) && Lookup(hash, two, Some(key)) == Some(first)
  {
    var one := Stored(hash, [], Some(key), Some(first));
    assert Find(hash, [], Some(key)).None?;
    assert one == [Entry(Some(key), Some(first))];
    assert !Matches(hash, Some(probe), Some(key));
    assert Find(hash, one, Some(probe)).None?;
    var two := Stored(hash, one, Some(probe), Some(second));
    assert two == one + [Entry(Some(probe), Some(second))];
    EqualsSymmetric(probe, key);
    EqualsTransitive(probe, key, probe);
    EqualsTransitive(key, probe, key);
    FindIs(hash, two, Some(probe), 1);
    FindIs(hash, two, Some(key), 0);
  }

  class SimpleCache {
    var entries: seq<Entry>
    /** The hash codes of the keys, which stay the same for the life of the cache. */
    const hash: HashCode

    ghost predicate Valid()
      reads this
    {
      Distinct(hash, entries)
    }

    constructor (hash: HashCode)
      ensures Valid() && entries == [] && this.hash == hash
    {
      entries := [];
      this.hash := hash;
    }

    /** `get(key, includeInvalid)` on this cache's entries. */
    function GetValue(key: Option<CacheKey>, includeInvalid: bool): Option<CacheValue>
      reads this
    {
      Get(hash, entries, key, includeInvalid)
    }

    /** `put`, which is `store`. */
    method Put(key: Option<CacheKey>, value: Option<CacheValue>)
      requires Valid()
      modifies this
      ensures Valid()
      ensures entries == Stored(hash, old(entries), key, value)
      ensures Matches(hash, key, key) ==> Get(hash, entries, key, true) == value
    {
      StoredDistinct(hash, entries, key, value);
      if Matches(hash, key, key) {
        StoreThenLookup(hash, entries, key, value, key);
      }
      entries := Stored(hash, entries, key, value);
    }

    /** `clear`, which is `doClear`. */
    method Clear()
      modifies this
      ensures Valid() && entries == []
    {
      entries := [];
    }

    /**
     * `remove`, which is `doRemove`: it reports `true` whether or not the
     * key was present, since the value it looks up and the value it
     * removes are the same object, or both `null`.
     */
    method Remove(key: Option<CacheKey>) returns (removed: bool)
      requires Valid()
      modifies this
      ensures Valid()
      ensures removed
      ensures entries == Removed(hash, old(entries), key)
      ensures Get(hash, entries, key, true).None?
    {
      RemovedDistinct(hash, entries, key);
      RemovedAbsent(hash, entries, key);
      entries := Removed(hash, entries, key);
      return true;
    }

    /** `keySet`: the stored keys. */
    function KeySet(): (r: set<Option<CacheKey>>)
      reads this
      ensures forall i :: 0 <= i < |entries| ==> entries[i].key in r
      ensures forall k :: k in r ==> exists i :: 0 <= i < |entries| && entries[i].key == k
    {
      set i | 0 <= i < |entries| :: entries[i].key
    }
  }
}
