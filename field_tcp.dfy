/**
 * The field unit's TCP server (odroid TcpService.cpp): the three lists of
 * ports, listening sockets and accepted connections, the receive loop of
 * WaitUserEntry and the framing of SendImage.  Socket calls are replaced by
 * the values they return.
 */
module FieldTcp {
  import opened Wire

  /** The size of WaitUserEntry's receive buffer. */
  const BufferSize: nat := 1024

  /** What `socket`, `setsockopt`, `bind`, `listen` and `accept` return during one Start. */
  datatype StartResults = StartResults(socket: int, setsockopt: int, bind: int, listen: int, accept: int)

  /** Start returned true, returned false, or called `exit(0)` after a failed setsockopt. */
  datatype StartOutcome = Started | Failed | Exited

  /**
   * The text one WaitUserEntry returns and the connection left behind: the
   * data of successive receives, until a receive shorter than the buffer,
   * a close or an error.
   */
  function UserEntry(connection: seq<Segment<char>>): (string, seq<Segment<char>>)
    decreases Size(connection)
  {
    var r := Recv(connection, BufferSize);
    if r.0.count <= 0 then ("", r.1)
    else if r.0.count < BufferSize then (r.0.data, r.1)
    else
      var more := UserEntry(r.1);
      (r.0.data + more.0, more.1)
  }

  /** All an entry holds came off the connection, in order, and nothing is lost. */
  lemma {:induction false} UserEntryTakesFront(connection: seq<Segment<char>>)
    ensures UserEntry(connection).0 + Stream(UserEntry(connection).1) == Stream(connection)
    decreases Size(connection)
  {
    var (got, rest) := Recv(connection, BufferSize);
    RecvTakesFront(connection, BufferSize);
    RecvEndsWithStream(connection, BufferSize);
    if got.count <= 0 {
      RecvEndsWithStream(rest, BufferSize);
    } else if got.count >= BufferSize {
      UserEntryTakesFront(rest);
    }
  }

  /** A closed or failing connection yields the empty entry and stays closed. */
  lemma ClosedYieldsEmpty(connection: seq<Segment<char>>)
    requires Stream(connection) == []
    ensures UserEntry(connection).0 == ""
    ensures Stream(UserEntry(connection).1) == []
  {
    RecvEndsWithStream(connection, BufferSize);
    UserEntryTakesFront(connection);
  }

  /** A receive shorter than the buffer ends the entry. */
  lemma ShortChunkEndsEntry(data: string, later: seq<Segment<char>>)
    requires 0 < |data| < BufferSize
    ensures UserEntry([Chunk(data)] + later) == (data, later)
  {
    assert ([Chunk(data)] + later)[1..] == later;
  }

  /** A receive that fills the buffer is followed by another one. */
  lemma FullChunkContinues(data: string, later: seq<Segment<char>>)
    requires |data| == BufferSize
    ensures UserEntry([Chunk(data)] + later).0 == data + UserEntry(later).0
  {
    assert ([Chunk(data)] + later)[1..] == later;
  }

  /**
   * A message sent in one piece whose length is not a multiple of the buffer
   * size is returned whole by one WaitUserEntry, however many receives it takes.
   */
  lemma {:induction false} WholeMessage(data: string, later: seq<Segment<char>>)
    requires |data| > 0 && |data| % BufferSize != 0
    ensures UserEntry([Chunk(data)] + later) == (data, later)
    decreases |data|
  {
    var c := [Chunk(data)] + later;
    if |data| < BufferSize {
      ShortChunkEndsEntry(data, later);
    } else {
      var tail := data[BufferSize..];
      assert Recv(c, BufferSize) == (Received(BufferSize, data[..BufferSize]), [Chunk(tail)] + later) by {
        assert c[1..] == later;
      }
      WholeMessage(tail, later);
      assert data == data[..BufferSize] + tail;
    }
  }

  /**
   * A message sent in one piece and followed by a close is returned whole by
   * one WaitUserEntry, whatever its length: a last full receive is followed
   * by the receive of 0 that ends the loop.
   */
  lemma {:induction false} MessageBeforeClose(data: string, later: seq<Segment<char>>)
    requires Stream(later) == []
    ensures UserEntry([Chunk(data)] + later).0 == data
    decreases |data|
  {
    var c := [Chunk(data)] + later;
    if data == [] {
      assert Recv(c, BufferSize).0.count == 0;
    } else if |data| < BufferSize {
      ShortChunkEndsEntry(data, later);
    } else if |data| == BufferSize {
      FullChunkContinues(data, later);
      ClosedYieldsEmpty(later);
    } else {
      var tail := data[BufferSize..];
      assert Recv(c, BufferSize) == (Received(BufferSize, data[..BufferSize]), [Chunk(tail)] + later) by {
        assert c[1..] == later;
      }
      MessageBeforeClose(tail, later);
      assert data == data[..BufferSize] + tail;
    }
  }

  /** `WaitUserEntry`: appends what each receive stored until the loop's exit conditions hold. */
  method WaitUserEntry(connection: seq<Segment<char>>) returns (entry: string, rest: seq<Segment<char>>)
    ensures (entry, rest) == UserEntry(connection)
  {
    entry := "";
    rest := connection;
    assert entry + UserEntry(rest).0 == UserEntry(rest).0;
    while true
      invariant UserEntry(connection) == (entry + UserEntry(rest).0, UserEntry(rest).1)
      decreases Size(rest)
    {
      var (got, next) := Recv(rest, BufferSize);
      if got.count < 0 {
        assert UserEntry(rest) == ("", next);
        assert entry + "" == entry;
        return entry, next;
      } else if got.count == 0 {
        assert UserEntry(rest) == ("", next);
        assert entry + "" == entry;
        return entry, next;
      }
      ghost var before := entry;
      entry := entry + got.data[..got.count];
      assert got.data[..got.count] == got.data;
      if got.count < BufferSize {
        assert UserEntry(rest) == (got.data, next);
        return entry, next;
      }
      assert UserEntry(rest) == (got.data + UserEntry(next).0, UserEntry(next).1);
      assert before + (got.data + UserEntry(next).0) == entry + UserEntry(next).0;
      rest := next;
    }
  }

  /**
   * The bytes SendImage puts on the wire: nothing when the length send
   * fails, the 4-byte length alone when the image send fails, else both.
   */
  function ImageWire(image: seq<Byte>, sizeSend: int, dataSend: int): seq<Byte>
  {
    if sizeSend == -1 then []
    else if dataSend == -1 then LittleEndian(|image|, 4)
    else LittleEndian(|image|, 4) + image
  }

  class TcpService {
    var port: seq<int>
    var serverId: seq<int>
    var clientId: seq<int>

    /** Every accepted connection has its listening socket, and every listening socket its port. */
    predicate Valid()
      reads this
    {
      |serverId| == |clientId| <= |port|
    }

    constructor ()
      ensures port == [] && serverId == [] && clientId == []
      ensures Valid()
    {
      port := [];
      serverId := [];
      clientId := [];
    }

    /** What `fork()` gives the child process: its own copy of the three lists. */
    method Fork() returns (copy: TcpService)
      ensures fresh(copy)
      ensures copy.port == port && copy.serverId == serverId && copy.clientId == clientId
    {
      copy := new TcpService();
      copy.port, copy.serverId, copy.clientId := port, serverId, clientId;
    }

    /** `getClientId`. */
    function GetClientId(index: int): int
      reads this
      requires 0 <= index < |clientId|
    {
      clientId[index]
    }

    /**
     * `Start`: the three lists grow together, and only once a connection
     * has been accepted; every failure leaves them as they were.
     */
    method Start(p: int, results: StartResults) returns (outcome: StartOutcome)
      modifies this
      ensures outcome == Started <==>
        results.socket != -1 && results.setsockopt >= 0 && results.bind >= 0 &&
        results.listen >= 0 && results.accept >= 0
      ensures outcome == Exited <==> results.socket != -1 && results.setsockopt < 0
      ensures outcome == Started ==>
        port == old(port) + [p] && serverId == old(serverId) + [results.socket] &&
        clientId == old(clientId) + [results.accept]
      ensures outcome != Started ==>
        port == old(port) && serverId == old(serverId) && clientId == old(clientId)
      ensures old(Valid()) ==> Valid()
    {
      if results.socket == -1 {
        return Failed;
      }
      if results.setsockopt < 0 {
        return Exited;
      }
      if results.bind < 0 {
        return Failed;
      }
      if results.listen < 0 {
        return Failed;
      }
      if results.accept < 0 {
        return Failed;
      }
      serverId := serverId + [results.socket];
      clientId := clientId + [results.accept];
      port := port + [p];
      outcome := Started;
    }

    /**
     * `closeLastConnection`: drops the newest connection and the newest
     * listening socket, but never the first of either, and keeps the ports.
     * Returns the descriptors it closed, newest connection first.
     */
    method CloseLastConnection() returns (closed: seq<int>)
      modifies this
      ensures clientId == if |old(clientId)| > 1 then old(clientId)[..|old(clientId)| - 1] else old(clientId)
      ensures serverId == if |old(serverId)| > 1 then old(serverId)[..|old(serverId)| - 1] else old(serverId)
      ensures port == old(port)
      ensures closed ==
        (if |old(clientId)| > 1 then [old(clientId)[|old(clientId)| - 1]] else []) +
        (if |old(serverId)| > 1 then [old(serverId)[|old(serverId)| - 1]] else [])
      ensures old(Valid()) ==> Valid()
    {
      closed := [];
      if |clientId| > 1 {
        closed := closed + [clientId[|clientId| - 1]];
        clientId := clientId[..|clientId| - 1];
      }
      if |serverId| > 1 {
        closed := closed + [serverId[|serverId| - 1]];
        serverId := serverId[..|serverId| - 1];
      }
    }

    /**
     * `SendImage` on the first connection: a 4-byte length, then the image
     * bytes, each send given by the value it returns.  Reports success only
     * when neither send returns -1, and stops after the first that does.
     */
    method SendImage(image: seq<Byte>, sizeSend: int, dataSend: int) returns (ok: bool, target: int, wire: seq<Byte>)
      requires |clientId| > 0
      requires |image| < 0x8000_0000
      ensures target == clientId[0]
      ensures ok <==> sizeSend != -1 && dataSend != -1
      ensures wire == ImageWire(image, sizeSend, dataSend)
      ensures sizeSend != -1 ==> wire[..4] == LittleEndian(|image|, 4)
    {
      target := GetClientId(0);
      var size := |image|;
      wire := [];
      if sizeSend == -1 {
        return false, target, wire;
      }
      wire := wire + LittleEndian(size, 4);
      if dataSend == -1 {
        return false, target, wire;
      }
      wire := wire + image;
      ok := true;
    }
  }

  /** The length field SendImage writes reads back as the image length. */
  lemma SizeFieldReadsBack(n: nat)
    requires n < 0x8000_0000
    ensures Unsigned(LittleEndian(n, 4)) == n
  {
    assert Pow256(4) == 0x1_0000_0000;
    UnsignedOfLittleEndian(n, 4);
  }
}
