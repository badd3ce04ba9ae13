/** The byte stream every protocol in the library runs on. */
module Transport {
  import opened Bytes

  /** One end of a connection.

      `incoming` holds the bytes this end has still to receive before the stream ends. A read hands
      over any non-empty piece of it that fits the caller's buffer; which piece is left open, so what
      is proved about callers holds for every way the stream can be cut. `written` lists the buffers
      passed to `write`, in order; `accepts` tells which of the writes succeed. */
  class Connection {
    var incoming: seq<byte>
    var written: seq<seq<byte>>
    var open: bool
    const accepts: nat -> bool

    constructor (stream: seq<byte>, accepts: nat -> bool)
      ensures incoming == stream && written == [] && open && this.accepts == accepts
    {
      this.accepts := accepts;
      incoming := stream;
      written := [];
      open := true;
    }

    method Close()
      modifies this`open
      ensures !open
    {
      open := false;
    }

    /** An empty result stands for the return values 0 and -1 (end of stream or failure). */
    method Read(size: nat) returns (data: seq<byte>)
      modifies this`incoming
      ensures data + incoming == old(incoming)
      ensures |data| <= size
      ensures data == [] <==> size == 0 || old(incoming) == []
    {
      if size == 0 || incoming == [] {
        data := [];
      } else {
        var n: nat :| 1 <= n <= size && n <= |incoming|;
        data := incoming[..n];
        incoming := incoming[n..];
      }
    }

    /** Whole buffer or nothing; whether the peer gets it is up to `accepts`. */
    method Write(data: seq<byte>) returns (ok: bool)
      modifies this`written
      ensures written == old(written) + [data] && ok == accepts(|old(written)|)
    {
      ok := accepts(|written|);
      written := written + [data];
    }

    /** `data` is the part of the caller's buffer that was filled. */
    method ReadExact(size: nat) returns (ok: bool, data: seq<byte>)
      modifies this`incoming
      ensures ok <==> size <= |old(incoming)|
      ensures data == old(incoming)[..Min(size, |old(incoming)|)]
      ensures incoming == old(incoming)[Min(size, |old(incoming)|)..]
    {
      data := [];
      while |data| < size
        invariant |data| <= size
        invariant data + incoming == old(incoming)
        decreases size - |data|
      {
        var piece := Read(size - |data|);
        if piece == [] {
          return false, data;
        }
        data := data + piece;
      }
      ok := |data| == size;
    }
  }
}
