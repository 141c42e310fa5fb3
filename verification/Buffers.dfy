/** The byte buffer of the `bytes` crate and the two directions of a connection, as far as the
    HTTP/1 engine uses them. */
module Buffers {
  import opened Text

  class BytesMut {
    var data: Bytes

    constructor ()
      ensures data == ""
    {
      data := "";
    }

    method Clear()
      modifies this
      ensures data == ""
    {
      data := "";
    }

    method Extend(slice: Bytes)
      modifies this
      ensures data == old(data) + slice
    {
      data := data + slice;
    }

    /** Drops the first `n` bytes; the crate panics when there are fewer. */
    method Advance(n: nat)
      requires n <= |data|
      modifies this
      ensures data == old(data)[n..]
    {
      data := data[n..];
    }
  }

  /** The reading side of a connection.  `unread` is everything the peer will ever send that
      has not been read; a read delivers any non-empty piece of it, so that a method that calls
      `Read` is verified for every way of cutting the stream into reads.  A source that is not
      reliable may also fail. */
  class Source {
    const reliable: bool
    var unread: Bytes

    constructor (bytes: Bytes, reliable: bool)
      ensures unread == bytes && this.reliable == reliable
    {
      this.unread := bytes;
      this.reliable := reliable;
    }

    /** An empty slice means end of stream, as `read` returning 0 does. */
    method Read(cap: nat) returns (ok: bool, slice: Bytes)
      requires cap > 0
      modifies this
      ensures slice + unread == old(unread) && |slice| <= cap
      ensures ok && slice == "" ==> unread == ""
      ensures !ok ==> slice == "" && !reliable
    {
      if !reliable {
        var fails: bool := *;
        if fails { return false, ""; }
      }
      if unread == "" { return true, ""; }
      var n :| 1 <= n <= cap && n <= |unread|;
      slice := unread[..n];
      unread := unread[n..];
      ok := true;
    }
  }

  /** The writing side.  A sink that is not reliable may fail after any part of the slice. */
  class Sink {
    const reliable: bool
    var written: Bytes

    constructor (reliable: bool)
      ensures written == "" && this.reliable == reliable
    {
      this.written := "";
      this.reliable := reliable;
    }

    method WriteAll(slice: Bytes) returns (ok: bool)
      modifies this
      ensures ok ==> written == old(written) + slice
      ensures !ok ==> !reliable && exists n :: 0 <= n <= |slice| && written == old(written) + slice[..n]
    {
      if !reliable {
        var fails: bool := *;
        if fails {
          var n :| 0 <= n <= |slice|;
          written := written + slice[..n];
          return false;
        }
      }
      written := written + slice;
      ok := true;
    }
  }
}
