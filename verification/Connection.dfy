/** The byte pipe under the multiplexer: a connection that accepts and yields bytes in arbitrary pieces. */
module Connection {
  import opened Bytes

  class Conn {
    var wire: seq<byte>      // bytes accepted for transmission
    var incoming: seq<byte>  // bytes of the peer not read yet, up to its end of file
    /** Whether Write may report an error after taking all the bytes it was given. */
    const lateErrors: bool

    constructor (incoming: seq<byte>, lateErrors: bool)
      ensures wire == [] && this.incoming == incoming && this.lateErrors == lateErrors
    {
      wire, this.incoming, this.lateErrors := [], incoming, lateErrors;
    }

    /** io.Writer: takes some of the bytes, and may take fewer than it was given with or without an error. */
    method Write(p: seq<byte>) returns (n: int, failed: bool)
      modifies this`wire
      ensures n <= |p| && wire == old(wire) + p[..Max(n, 0)]
      ensures failed && !lateErrors ==> n < |p|
    {
      n :| -1 <= n <= |p|;
      failed := *;
      if failed && n == |p| && !lateErrors {
        n := -1;
      }
      wire := wire + p[..Max(n, 0)];
    }

    /** io.Reader: yields at least one byte unless the stream is at its end. */
    method Read(max: nat) returns (data: seq<byte>)
      requires max > 0
      modifies this`incoming
      ensures |data| <= max && old(incoming) == data + incoming
      ensures data == [] <==> old(incoming) == []
    {
      if incoming == [] {
        return [];
      }
      var n: nat :| 1 <= n <= max && n <= |incoming| by {
        assert 1 <= max && 1 <= |incoming|;
      }
      data := incoming[..n];
      incoming := incoming[n..];
    }

    /** io.ReadFull: whatever the pieces, exactly the next n bytes, or all that is left and a failure. */
    method ReadFull(n: nat) returns (data: seq<byte>, ok: bool)
      modifies this`incoming
      ensures ok <==> n <= |old(incoming)|
      ensures data == old(incoming)[..Min(n, |old(incoming)|)]
      ensures incoming == old(incoming)[Min(n, |old(incoming)|)..]
    {
      data := [];
      while |data| < n
        invariant |data| <= n && old(incoming) == data + incoming
        decreases n - |data|
      {
        var piece := Read(n - |data|);
        if piece == [] {
          return data, false;
        }
        Assoc(data, piece, incoming);
        data := data + piece;
      }
      ok := true;
    }

    /** The short-write loop of writeData. On success exactly p is on the wire; on failure a prefix
        of p, and a strict one unless the connection reports errors late. */
    method WriteFull(p: seq<byte>) returns (ok: bool)
      modifies this`wire
      ensures ok ==> wire == old(wire) + p
      ensures exists k :: 0 <= k <= |p| && wire == old(wire) + p[..k]
      ensures !ok && !lateErrors ==> exists k :: 0 <= k < |p| && wire == old(wire) + p[..k]
    {
      var total := 0;
      while total < |p|
        invariant 0 <= total <= |p| && wire == old(wire) + p[..total]
      {
        var n, failed := Write(p[total..]);
        Assoc(old(wire), p[..total], p[total..][..Max(n, 0)]);
        assert p[..total] + p[total..][..Max(n, 0)] == p[..total + Max(n, 0)];
        if failed {
          return false;
        }
        if n <= 0 {
          return false;
        }
        total := total + n;
      }
      assert p[..|p|] == p;
      ok := true;
    }
  }
}
