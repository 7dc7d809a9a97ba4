/**
 * `URLListCacheKey` as an object: a list of timestamped URL keys, each
 * timestamped when it is added and re-timestamped by every
 * `getLastModified`. `lastModifiedOf` stands for the URL connection that
 * reports a URL's current last-modified time.
 */
module URLListKey {
  import opened Wrappers
  import opened CacheKeys

  /** The stored timestamps, in order. */
  function Timestamps(stamps: seq<UrlStamp>): (r: seq<int>)
    ensures |r| == |stamps|
    ensures forall i :: 0 <= i < |stamps| ==> r[i] == stamps[i].timestamp
  {
    if stamps == [] then [] else [stamps[0].timestamp] + Timestamps(stamps[1..])
  }

  class URLListCacheKey {
    var stamps: seq<UrlStamp>

    constructor ()
      ensures stamps == []
    {
      stamps := [];
    }

    function Key(): CacheKey
      reads this
    {
      URLList(stamps)
    }

    /** `addURL`: appends one key for the URL, stamped with its current last-modified time. */
    method AddURL(url: string, lastModifiedOf: string -> int)
      modifies this
      ensures stamps == old(stamps) + [UrlStamp(url, lastModifiedOf(url))]
    {
      stamps := stamps + [UrlStamp(url, lastModifiedOf(url))];
    }

    /** `equals`: same length and the same URLs position by position; timestamps do not matter. */
    method Equals(other: Option<CacheKey>) returns (equal: bool)
      ensures equal == CacheKeys.Equals(Key(), other)
    {
      if other.None? || !other.value.URLList? || |stamps| != |other.value.urls| {
        return false;
      }
      var theirs := other.value.urls;
      var i := 0;
      while i < |stamps|
        invariant 0 <= i <= |stamps|
        invariant forall j :: 0 <= j < i ==> stamps[j].url == theirs[j].url
      {
        if stamps[i].url != theirs[i].url {
          return false;
        }
        i := i + 1;
      }
      return true;
    }

    /** `isValid`: an equal URL list whose timestamps all match position by position. */
    method IsValid(other: Option<CacheKey>) returns (valid: bool)
      ensures valid == Valid(Key(), other)
    {
      var equal := Equals(other);
      if !equal {
        return false;
      }
      var theirs := other.value.urls;
      var i := 0;
      while i < |stamps|
        invariant 0 <= i <= |stamps|
        invariant forall j :: 0 <= j < i ==> stamps[j].timestamp == theirs[j].timestamp
      {
        if stamps[i].timestamp != theirs[i].timestamp {
          return false;
        }
        i := i + 1;
      }
      return true;
    }

    /**
     * `getLastModified`: first re-stamps every URL with its current time,
     * then returns the largest timestamp starting from 0, or -1 as soon as
     * one timestamp is -1.
     */
    method GetLastModified(lastModifiedOf: string -> int) returns (lastModified: int)
      modifies this
      ensures |stamps| == |old(stamps)|
      ensures forall i :: 0 <= i < |stamps| ==> stamps[i] == UrlStamp(old(stamps)[i].url, lastModifiedOf(old(stamps)[i].url))
      ensures lastModified == Latest(Timestamps(stamps))
      ensures lastModified == LastModified(old(Key()), lastModifiedOf)
    {
      var i := 0;
      while i < |stamps|
        invariant 0 <= i <= |stamps| == |old(stamps)|
        invariant forall j :: 0 <= j < i ==> stamps[j] == UrlStamp(old(stamps)[j].url, lastModifiedOf(old(stamps)[j].url))
        invariant forall j :: i <= j < |stamps| ==> stamps[j] == old(stamps)[j]
      {
        stamps := stamps[i := UrlStamp(stamps[i].url, lastModifiedOf(stamps[i].url))];
        i := i + 1;
      }
      ghost var ts := Timestamps(stamps);
      assert ts == UrlTimestamps(old(stamps), lastModifiedOf);
      lastModified := 0;
      i := 0;
      while i < |stamps|
        invariant 0 <= i <= |stamps|
        invariant LatestFrom(lastModified, ts[i..]) == Latest(ts)
      {
        var each := stamps[i].timestamp;
        assert ts[i..][0] == each && ts[i..][1..] == ts[i + 1..];
        if each == -1 {
          return -1;
        }
        if each > lastModified {
          lastModified := each;
        }
        i := i + 1;
      }
      assert ts[i..] == [];
    }
  }

  /**
   * After `getLastModified` a URL list is still equal to what it was, and
   * valid for its earlier self exactly when no URL's timestamp moved.
   */
  lemma RefreshKeepsIdentity(before: seq<UrlStamp>, after: seq<UrlStamp>, lastModifiedOf: string -> int)
    requires |after| == |before|
    requires forall i :: 0 <= i < |after| ==> after[i] == UrlStamp(before[i].url, lastModifiedOf(before[i].url))
    ensures CacheKeys.Equals(URLList(after), Some(URLList(before)))
    ensures Valid(URLList(before), Some(URLList(after))) <==> Timestamps(before) == UrlTimestamps(before, lastModifiedOf)
  {
    var tb, tu := Timestamps(before), UrlTimestamps(before, lastModifiedOf);
    assert forall i :: 0 <= i < |after| ==> after[i].url == before[i].url && after[i].timestamp == tu[i];
    assert CacheKeys.Equals(URLList(before), Some(URLList(after)));
    if Valid(URLList(before), Some(URLList(after))) {
      assert forall i :: 0 <= i < |tb| ==> tb[i] == tu[i];
    }
    if tb == tu {
      assert forall i :: 0 <= i < |before| ==> before[i].timestamp == after[i].timestamp;
    }
  }
}
