/**
 * The two timestamped key classes as objects: the URL or `Source` is fixed
 * at construction, the timestamp can be replaced by `setTimestamp`.
 */
module TimestampKeys {
  import opened Wrappers
  import opened CacheKeys

  class TimestampURLCacheKey {
    const url: string
    var timestamp: int

    constructor (url: string, timestamp: int)
      ensures this.url == url && this.timestamp == timestamp
    {
      this.url := url;
      this.timestamp := timestamp;
    }

    function Key(): CacheKey
      reads this
    {
      TimestampURL(url, timestamp)
    }

    /**
     * `setTimestamp`: only the timestamp changes, so the key stays equal to
     * what it was, reports the new timestamp, and is no longer valid for
     * its old self unless the timestamp is unchanged.
     */
    method SetTimestamp(timestamp: int, lastModifiedOf: string -> int)
      modifies this
      ensures this.timestamp == timestamp
      ensures CacheKeys.Equals(Key(), Some(old(Key()))) && CacheKeys.Equals(old(Key()), Some(Key()))
      ensures LastModified(Key(), lastModifiedOf) == timestamp
      ensures Valid(old(Key()), Some(Key())) <==> old(this.timestamp) == timestamp
    {
      this.timestamp := timestamp;
    }
  }

  class TimestampSourceCacheKey {
    const source: string
    var timestamp: int

    constructor (source: string, timestamp: int)
      ensures this.source == source && this.timestamp == timestamp
    {
      this.source := source;
      this.timestamp := timestamp;
    }

    function Key(): CacheKey
      reads this
    {
      TimestampSource(source, timestamp)
    }

    /** `setTimestamp`, with the same consequences as for the URL key. */
    method SetTimestamp(timestamp: int, lastModifiedOf: string -> int)
      modifies this
      ensures this.timestamp == timestamp
      ensures CacheKeys.Equals(Key(), Some(old(Key()))) && CacheKeys.Equals(old(Key()), Some(Key()))
      ensures LastModified(Key(), lastModifiedOf) == timestamp
      ensures Valid(old(Key()), Some(Key())) <==> old(this.timestamp) == timestamp
    {
      this.timestamp := timestamp;
    }
  }
}
