/**
 * A `java.io.OutputStream` that the pipeline writes to, reduced to what it
 * has received: the bytes in order, how often it was flushed, and whether
 * it was closed.
 */
module Streams {
  import opened JavaLang

  class ByteSink {
    var bytes: seq<byte>
    var flushes: nat
    var closed: bool

    constructor ()
      ensures bytes == [] && flushes == 0 && !closed
    {
      bytes := [];
      flushes := 0;
      closed := false;
    }

    method Write(data: seq<byte>)
      modifies this
      ensures bytes == old(bytes) + data && flushes == old(flushes) && closed == old(closed)
    {
      bytes := bytes + data;
    }

    method Flush()
      modifies this
      ensures bytes == old(bytes) && flushes == old(flushes) + 1 && closed == old(closed)
    {
      flushes := flushes + 1;
    }

    method Close()
      modifies this
      ensures bytes == old(bytes) && flushes == old(flushes) && closed
    {
      closed := true;
    }
  }
}
