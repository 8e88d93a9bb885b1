/**
 * What both devices see of a TCP connection.  The bytes the peer sends
 * arrive as a list of segments; `recv` with a buffer of `max` bytes takes
 * up to `max` bytes of the first segment and leaves the rest queued.  A list
 * that runs out reads as an orderly close by the peer.
 */
module Wire {

  /** One unsigned byte (`uchar`). */
  type Byte = x: int | 0 <= x < 256

  /** What arrives next on a connection: data, the peer's close, or a receive error. */
  datatype Segment<T> = Chunk(data: seq<T>) | Fin | Error

  /** The value `recv` returns and the bytes it stored in the buffer. */
  datatype Received<T> = Received(count: int, data: seq<T>)

  function Weight<T>(s: Segment<T>): nat
  {
    if s.Chunk? then |s.data| + 1 else 1
  }

  /** A measure that every successful `recv` makes smaller. */
  function Size<T>(pending: seq<Segment<T>>): nat
    decreases |pending|
  {
    if pending == [] then 0 else Weight(pending[0]) + Size(pending[1..])
  }

  /**
   * One `recv(fd, buffer, max, 0)`: a positive count with that many bytes,
   * 0 once the peer has closed, or -1 once the connection has failed; a
   * close or a failure stays queued, so every later call returns the same.
   * An empty segment carries nothing and reads as a close.
   */
  function Recv<T>(pending: seq<Segment<T>>, max: nat): (r: (Received<T>, seq<Segment<T>>))
    requires max > 0
    ensures r.0.count == |r.0.data| <= max || (r.0.count == -1 && r.0.data == [])
    ensures r.0.count > 0 ==> Size(r.1) < Size(pending)
  {
    if pending == [] then (Received(0, []), [])
    else match pending[0]
      case Chunk(d) =>
        if d == [] then (Received(0, []), pending)
        else if |d| <= max then (Received(|d|, d), pending[1..])
        else (Received(max, d[..max]), [Chunk(d[max..])] + pending[1..])
      case Fin => (Received(0, []), pending)
      case Error => (Received(-1, []), pending)
  }

  /** The bytes the peer delivers before the first `recv` that returns 0 or -1. */
  function Stream<T>(pending: seq<Segment<T>>): seq<T>
    decreases |pending|
  {
    if pending == [] || !pending[0].Chunk? || pending[0].data == [] then []
    else pending[0].data + Stream(pending[1..])
  }

  /** A successful `recv` hands out the front of the stream, in order, and nothing is lost. */
  lemma RecvTakesFront<T>(pending: seq<Segment<T>>, max: nat)
    requires max > 0
    ensures Recv(pending, max).0.count > 0 ==>
      Stream(pending) == Recv(pending, max).0.data + Stream(Recv(pending, max).1)
  {
    if pending != [] && pending[0].Chunk? && pending[0].data != [] {
      var d := pending[0].data;
      var tail := pending[1..];
      assert Stream(pending) == d + Stream(tail);
      if |d| > max {
        SplitChunkStream(d, max, tail);
      }
    }
  }

  /** A chunk split after `max` bytes streams as the unsplit chunk. */
  lemma SplitChunkStream<T>(d: seq<T>, max: nat, tail: seq<Segment<T>>)
    requires 0 < max < |d|
    ensures Stream([Chunk(d[max..])] + tail) == d[max..] + Stream(tail)
    ensures d[..max] + (d[max..] + Stream(tail)) == d + Stream(tail)
  {
    var rest := [Chunk(d[max..])] + tail;
    assert rest[1..] == tail;
    assert d == d[..max] + d[max..];
  }

  /** `recv` returns a count of at most 0 exactly when the stream is empty. */
  lemma RecvEndsWithStream<T>(pending: seq<Segment<T>>, max: nat)
    requires max > 0
    ensures Recv(pending, max).0.count <= 0 <==> Stream(pending) == []
  {
  }

  /** 256 to the power k. */
  function Pow256(k: nat): nat
  {
    if k == 0 then 1 else 256 * Pow256(k - 1)
  }

  /** The k low-order bytes of n, least significant first (the byte order fixed for this model). */
  function LittleEndian(n: nat, k: nat): (b: seq<Byte>)
    ensures |b| == k
  {
    if k == 0 then [] else [n % 256] + LittleEndian(n / 256, k - 1)
  }

  /** The unsigned value of bytes stored least significant first. */
  function Unsigned(b: seq<Byte>): nat
  {
    if b == [] then 0 else b[0] + 256 * Unsigned(b[1..])
  }

  /** Reading back the bytes of a value that fits gives the value. */
  lemma {:induction false} UnsignedOfLittleEndian(n: nat, k: nat)
    requires n < Pow256(k)
    ensures Unsigned(LittleEndian(n, k)) == n
  {
    if k > 0 {
      assert n == n % 256 + 256 * (n / 256);
      assert n / 256 < Pow256(k - 1);
      UnsignedOfLittleEndian(n / 256, k - 1);
      assert LittleEndian(n, k)[1..] == LittleEndian(n / 256, k - 1);
    }
  }

  /** A value of k bytes is below 256^k. */
  lemma {:induction false} UnsignedBound(b: seq<Byte>)
    ensures Unsigned(b) < Pow256(|b|)
  {
    if b != [] {
      UnsignedBound(b[1..]);
    }
  }
}
