/**
  The receiving side of the TCP connection, seen as the list of chunks the
  peer's data arrives in. A `recv(n)` call hands back at most `n` bytes of the
  chunk at the front (the rest of that chunk stays queued); once the list is
  exhausted the peer has closed and `recv` returns the empty buffer.
 */
module Stream {
  import opened Wrappers
  import opened Bytes

  /** A non-empty segment of the byte stream; only a closed peer yields `b''`. */
  type Chunk = c: seq<Byte> | |c| > 0 witness [0]

  /** The bytes still to be received, in arrival order. */
  function Flatten(conn: seq<Chunk>): seq<Byte>
  {
    if |conn| == 0 then [] else conn[0] + Flatten(conn[1..])
  }

  /** `conn.recv(n)`: the packet and the connection that remains. */
  function Recv(conn: seq<Chunk>, n: nat): (r: (seq<Byte>, seq<Chunk>))
    ensures |r.0| <= n
    ensures r.0 + Flatten(r.1) == Flatten(conn)
    ensures |r.0| == 0 <==> n == 0 || |conn| == 0
  {
    if n == 0 || |conn| == 0 then ([], conn)
    else if |conn[0]| <= n then (conn[0], conn[1..])
    else (conn[0][..n], [conn[0][n..]] + conn[1..])
  }

  /**
    One pass of `recvall`'s `while len(data) < length` loop and everything after
    it: `data` is what has been accumulated so far.
   */
  function RecvLoop(conn: seq<Chunk>, length: nat, data: seq<Byte>): (r: Option<(seq<Byte>, seq<Chunk>)>)
    requires |data| <= length
    ensures r.Some? <==> |data| + |Flatten(conn)| >= length
    ensures r.Some? ==> r.value.0 == data + Flatten(conn)[..length - |data|]
    ensures r.Some? ==> Flatten(r.value.1) == Flatten(conn)[length - |data|..]
    decreases length - |data|
  {
    if |data| >= length then Some((data, conn))
    else
      var (packet, rest) := Recv(conn, length - |data|);
      if |packet| == 0 then None
      else
        var r := RecvLoop(rest, length, data + packet);
        assert Flatten(conn) == packet + Flatten(rest);
        assert r.Some? ==> Flatten(conn)[..length - |data|] == packet + Flatten(rest)[..length - |data + packet|];
        assert r.Some? ==> Flatten(conn)[length - |data|..] == Flatten(rest)[length - |data + packet|..];
        r
  }

  /**
    `recvall(conn, length)`: exactly `length` bytes, the next ones in the
    stream, or `None` when the peer closes first. Exactly `length` bytes are
    consumed; a short buffer is never returned.
   */
  function RecvAll(conn: seq<Chunk>, length: nat): (r: Option<(seq<Byte>, seq<Chunk>)>)
    ensures r.Some? <==> |Flatten(conn)| >= length
    ensures r.Some? ==> |r.value.0| == length
    ensures r.Some? ==> r.value.0 + Flatten(r.value.1) == Flatten(conn)
  {
    var r := RecvLoop(conn, length, []);
    assert r.Some? ==> Flatten(conn) == Flatten(conn)[..length] + Flatten(conn)[length..];
    r
  }
}
