/**
 * The station's TCP client (poste TcpService.cpp): the resolution tables
 * and menu, the lists of connections, the two receive paths (a text
 * response, an image preceded by its size) and the per-image exchange of
 * ObserveServerResponse.  Socket calls, the keyboard and OpenCV are
 * replaced by the values they return.
 */
module StationTcp {
  import opened Wrappers
  import opened Wire
  import opened Decimal
  import Qr

  /** `widthTable[13]` and `heightTable[13]`: four entries given, the other nine zero. */
  const WidthTable: seq<nat> := [176, 160, 800, 1184, 0, 0, 0, 0, 0, 0, 0, 0, 0]
  const HeightTable: seq<nat> := [144, 120, 600, 656, 0, 0, 0, 0, 0, 0, 0, 0, 0]

  /** `GetVideoResolution`: "WxH" from the two tables; an index outside the arrays is undefined. */
  function GetVideoResolution(index: int): string
    requires 0 <= index < 13
  {
    ToString(WidthTable[index]) + "x" + ToString(HeightTable[index])
  }

  lemma SmallDecimals()
    ensures ToString(176) == "176" && ToString(144) == "144"
    ensures ToString(160) == "160" && ToString(120) == "120"
  {
    assert ToString(17) == "17" && ToString(14) == "14";
    assert ToString(16) == "16" && ToString(12) == "12";
  }

  lemma LargeDecimals()
    ensures ToString(800) == "800" && ToString(600) == "600"
    ensures ToString(1184) == "1184" && ToString(656) == "656"
  {
    assert ToString(80) == "80" && ToString(60) == "60";
    assert ToString(11) == "11" && ToString(118) == "118";
    assert ToString(65) == "65";
  }

  /** The four menu entries, and "0x0" for the unused rest of the tables. */
  lemma VideoResolutions()
    ensures GetVideoResolution(0) == "176x144"
    ensures GetVideoResolution(1) == "160x120"
    ensures GetVideoResolution(2) == "800x600"
    ensures GetVideoResolution(3) == "1184x656"
    ensures forall i :: 4 <= i < 13 ==> GetVideoResolution(i) == "0x0"
  {
    SmallDecimals();
    LargeDecimals();
  }

  /** What `std::cin >> choice` yields: `None` when it fails. */
  predicate ValidChoice(read: Option<int>)
  {
    read.Some? && 1 <= read.value <= 4
  }

  /** The first read the menu accepts. */
  function FirstValidChoice(answers: seq<Option<int>>): (k: Option<nat>)
    ensures k.Some? ==>
      k.value < |answers| && ValidChoice(answers[k.value]) &&
      forall j :: 0 <= j < k.value ==> !ValidChoice(answers[j])
    ensures k.None? ==> forall j :: 0 <= j < |answers| ==> !ValidChoice(answers[j])
  {
    if answers == [] then None
    else if ValidChoice(answers[0]) then Some(0)
    else match FirstValidChoice(answers[1..])
      case None => None
      case Some(k) => Some(k + 1)
  }

  /**
   * `ChooseResolution`: asks until a read is a number in 1..4, then returns
   * that menu entry.  `None` when the reads run out first, where the source
   * goes on asking.  `used` is the number of reads consumed.
   */
  method ChooseResolution(answers: seq<Option<int>>) returns (resolution: Option<string>, used: nat)
    ensures match FirstValidChoice(answers)
      case None => resolution == None && used == |answers|
      case Some(k) => used == k + 1 && resolution == Some(GetVideoResolution(answers[k].value - 1))
  {
    var i := 0;
    while i < |answers|
      invariant 0 <= i <= |answers|
      invariant forall j :: 0 <= j < i ==> !ValidChoice(answers[j])
    {
      var choice := answers[i];
      if choice.None? || choice.value < 1 || choice.value > 4 {
        i := i + 1;
        continue;
      }
      return Some(GetVideoResolution(choice.value - 1)), i + 1;
    }
    return None, |answers|;
  }

  /** Whatever the reads, an accepted choice is one of the four menu resolutions. */
  lemma ChoiceIsListed(answers: seq<Option<int>>)
    requires FirstValidChoice(answers).Some?
    ensures GetVideoResolution(answers[FirstValidChoice(answers).value].value - 1) in
      ["176x144", "160x120", "800x600", "1184x656"]
  {
    var i := answers[FirstValidChoice(answers).value].value - 1;
    var menu := ["176x144", "160x120", "800x600", "1184x656"];
    VideoResolutions();
    assert GetVideoResolution(i) == menu[i];
  }

  /** `WaitServerResponse`: one receive of up to 1024 bytes. */
  method WaitServerResponse(connection: seq<Segment<char>>) returns (response: string, rest: seq<Segment<char>>)
    ensures response == "" <==> Stream(connection) == []
    ensures response + Stream(rest) == Stream(connection)
    ensures |response| <= 1024
    ensures connection != [] && connection[0].Chunk? && 0 < |connection[0].data| <= 1024 ==>
      response == connection[0].data && rest == connection[1..]
  {
    response := "";
    rest := connection;
    RecvTakesFront(connection, 1024);
    RecvEndsWithStream(connection, 1024);
    var done := false;
    while !done
      invariant !done ==> response == "" && rest == connection
      invariant done ==> (response, rest) == (if Recv(connection, 1024).0.count <= 0 then "" else Recv(connection, 1024).0.data, Recv(connection, 1024).1)
      decreases if done then 0 else 1
    {
      var (got, next) := Recv(rest, 1024);
      rest := next;
      if got.count <= 0 {
        done := true;
      } else {
        response := got.data;
        // `buffer != ""` compares the array's address with a literal's, so it always holds
        done := true;
      }
    }
    if response == "" {
      RecvEndsWithStream(rest, 1024);
    }
  }

  /** How the transfer of the image bytes ended. */
  datatype ImageEnding = Complete | Broken | Spinning

  /**
   * What the image step yields: the size receive failed, the size was
   * negative (the vector of that size cannot be built and the process
   * stops), or the buffer as imdecode receives it.
   */
  datatype ImageOutcome = NoSize | BadSize(size: int) | Image(buffer: seq<Byte>, ending: ImageEnding)

  /** A 32-bit pattern read as a two's complement `int`. */
  function AsInt32(u: nat): int
  {
    if u >= 0x8000_0000 then u - 0x1_0000_0000 else u
  }

  /** The receive loop: chunks until `need` bytes have come, a -1, or a 0 (after which the source spins). */
  function ImageData(connection: seq<Segment<Byte>>, need: nat): (r: (seq<Byte>, ImageEnding, seq<Segment<Byte>>))
    ensures |r.0| <= need
    ensures r.1 == Complete <==> |r.0| == need
    decreases Size(connection)
  {
    if need == 0 then ([], Complete, connection)
    else
      var r := Recv(connection, need);
      if r.0.count == -1 then ([], Broken, r.1)
      else if r.0.count == 0 then ([], Spinning, r.1)
      else
        var tail := ImageData(r.1, need - r.0.count);
        (r.0.data + tail.0, tail.1, tail.2)
  }

  function Zeros(n: nat): (z: seq<Byte>)
    ensures |z| == n && forall k :: 0 <= k < n ==> z[k] == 0
  {
    seq(n, _ => 0)
  }

  /** The image step of ObserveServerResponse, on the connection after the button token. */
  function ImageReceive(connection: seq<Segment<Byte>>): (ImageOutcome, seq<Segment<Byte>>)
  {
    var header := Recv(connection, 4);
    if header.0.count == -1 then (NoSize, header.1)
    else
      var size := AsInt32(Unsigned(header.0.data));
      if size < 0 then (BadSize(size), header.1)
      else
        var d := ImageData(header.1, size);
        (Image(d.0 + Zeros(size - |d.0|), d.1), d.2)
  }

  /** Bytes available up front all arrive, in order. */
  lemma {:induction false} ImageDataAvailable(connection: seq<Segment<Byte>>, need: nat)
    requires need <= |Stream(connection)|
    ensures ImageData(connection, need).0 == Stream(connection)[..need]
    ensures ImageData(connection, need).1 == Complete
    decreases Size(connection)
  {
    if need > 0 {
      var (got, rest) := Recv(connection, need);
      RecvEndsWithStream(connection, need);
      RecvTakesFront(connection, need);
      ImageDataAvailable(rest, need - got.count);
      assert Stream(connection)[..need] == got.data + Stream(rest)[..need - got.count];
    }
  }

  /** With too few bytes the transfer ends early, after taking all that came. */
  lemma {:induction false} ImageDataShort(connection: seq<Segment<Byte>>, need: nat)
    requires |Stream(connection)| < need
    ensures ImageData(connection, need).0 == Stream(connection)
    ensures ImageData(connection, need).1 != Complete
    decreases Size(connection)
  {
    var (got, rest) := Recv(connection, need);
    RecvEndsWithStream(connection, need);
    RecvTakesFront(connection, need);
    if got.count > 0 {
      ImageDataShort(rest, need - got.count);
    }
  }

  /**
   * `recv(fd, buffer.data() + offset, size - offset, 0)` over a buffer that
   * holds `received` and zeros after it: the bytes of this receive land at
   * the offset, and the tail stays zero.
   */
  method RecvInto(buffer: array<Byte>, offset: nat, pending: seq<Segment<Byte>>, ghost received: seq<Byte>)
    returns (count: int, rest: seq<Segment<Byte>>)
    requires offset == |received| < buffer.Length
    requires buffer[..] == received + Zeros(buffer.Length - offset)
    modifies buffer
    ensures count == Recv(pending, buffer.Length - offset).0.count && rest == Recv(pending, buffer.Length - offset).1
    ensures var data := Recv(pending, buffer.Length - offset).0.data;
      buffer[..] == (received + data) + Zeros(buffer.Length - |received + data|)
  {
    var r := Recv(pending, buffer.Length - offset);
    var data := r.0.data;
    forall k | 0 <= k < |data| {
      buffer[offset + k] := data[k];
    }
    assert forall k :: 0 <= k < offset ==> buffer[k] == received[k];
    assert forall k :: offset + |data| <= k < buffer.Length ==> buffer[k] == 0;
    assert buffer[..] == (received + data) + Zeros(buffer.Length - |received + data|);
    count, rest := r.0.count, r.1;
  }

  /** What is left to deliver once `received` is in the buffer and `need` bytes are missing. */
  ghost function Resume(received: seq<Byte>, connection: seq<Segment<Byte>>, need: nat): (seq<Byte>, ImageEnding, seq<Segment<Byte>>)
  {
    var tail := ImageData(connection, need);
    (received + tail.0, tail.1, tail.2)
  }

  /** Nothing received yet: what is left is the whole transfer. */
  lemma ResumeStart(connection: seq<Segment<Byte>>, need: nat)
    ensures Resume([], connection, need) == ImageData(connection, need)
  {
    assert [] + ImageData(connection, need).0 == ImageData(connection, need).0;
  }

  /** Nothing missing: the transfer is complete with what is in the buffer. */
  lemma ResumeDone(received: seq<Byte>, connection: seq<Segment<Byte>>)
    ensures Resume(received, connection, 0) == (received, Complete, connection)
  {
    assert received + [] == received;
  }

  /** A receive that returns 0 or -1 ends the transfer with what is already in the buffer. */
  lemma ResumeStops(received: seq<Byte>, connection: seq<Segment<Byte>>, need: nat)
    requires need > 0 && Recv(connection, need).0.count <= 0
    ensures Resume(received, connection, need) ==
      (received, if Recv(connection, need).0.count == -1 then Broken else Spinning, Recv(connection, need).1)
  {
    assert received + [] == received;
  }

  /** A receive that returns data moves that data from the pending part into the buffer. */
  lemma ResumeStep(received: seq<Byte>, connection: seq<Segment<Byte>>, need: nat)
    requires need > 0 && Recv(connection, need).0.count > 0
    ensures Resume(received, connection, need) ==
      Resume(received + Recv(connection, need).0.data, Recv(connection, need).1, need - Recv(connection, need).0.count)
  {
    var got, rest := Recv(connection, need).0, Recv(connection, need).1;
    var after := ImageData(rest, need - got.count);
    assert ImageData(connection, need) == (got.data + after.0, after.1, after.2);
    AppendAssociates(received, got.data, after.0);
  }

  /**
   * One turn of the receive loop: a `recv` into the buffer at the current
   * offset, and what it leaves of the transfer.
   */
  method ReceiveChunk(buffer: array<Byte>, bytesReceived: nat, pending: seq<Segment<Byte>>, ghost received: seq<Byte>)
    returns (count: int, rest: seq<Segment<Byte>>, ghost now: seq<Byte>)
    requires bytesReceived == |received| < buffer.Length
    requires buffer[..] == received + Zeros(buffer.Length - bytesReceived)
    modifies buffer
    ensures count <= 0 ==> now == received
    ensures count <= 0 ==>
      Resume(received, pending, buffer.Length - bytesReceived) == (received, if count == -1 then Broken else Spinning, rest)
    ensures count > 0 ==> bytesReceived + count == |now| <= buffer.Length
    ensures count > 0 ==>
      Resume(received, pending, buffer.Length - bytesReceived) == Resume(now, rest, buffer.Length - (bytesReceived + count))
    ensures Size(rest) < Size(pending) || count <= 0
    ensures buffer[..] == now + Zeros(buffer.Length - |now|)
  {
    var need := buffer.Length - bytesReceived;
    ghost var data := Recv(pending, need).0.data;
    count, rest := RecvInto(buffer, bytesReceived, pending, received);
    now := received + data;
    if count <= 0 {
      ResumeStops(received, pending, need);
      assert received + data == received;
    } else {
      ResumeStep(received, pending, need);
    }
  }

  /**
   * The receive loop of the image step: each chunk lands at the current
   * offset of the buffer, which is zero-filled like the source's vector.
   */
  method FillImage(buffer: array<Byte>, connection: seq<Segment<Byte>>) returns (ending: ImageEnding, rest: seq<Segment<Byte>>)
    requires buffer[..] == Zeros(buffer.Length)
    modifies buffer
    ensures ending == ImageData(connection, buffer.Length).1 && rest == ImageData(connection, buffer.Length).2
    ensures buffer[..] == ImageData(connection, buffer.Length).0 + Zeros(buffer.Length - |ImageData(connection, buffer.Length).0|)
  {
    var imgSize := buffer.Length;
    ghost var spec := ImageData(connection, imgSize);
    ghost var received: seq<Byte> := [];
    var bytesReceived := 0;
    rest := connection;
    ResumeStart(connection, imgSize);
    assert buffer[..] == received + Zeros(imgSize);
    while bytesReceived < imgSize
      invariant bytesReceived == |received| <= imgSize
      invariant buffer[..] == received + Zeros(imgSize - bytesReceived)
      invariant spec == Resume(received, rest, imgSize - bytesReceived)
      decreases Size(rest)
    {
      var count, next;
      count, next, received := ReceiveChunk(buffer, bytesReceived, rest, received);
      rest := next;
      if count <= 0 {
        ending := if count == -1 then Broken else Spinning;
        return;
      }
      bytesReceived := bytesReceived + count;
    }
    ending := Complete;
    ResumeDone(received, rest);
    assert spec == (received, Complete, rest);
  }

  /** The image step as the source performs it. */
  method ReceiveImage(connection: seq<Segment<Byte>>) returns (outcome: ImageOutcome, rest: seq<Segment<Byte>>)
    ensures (outcome, rest) == ImageReceive(connection)
  {
    var (header, afterHeader) := Recv(connection, 4);
    if header.count == -1 {
      return NoSize, afterHeader;
    }
    var imgSize := AsInt32(Unsigned(header.data));
    if imgSize < 0 {
      return BadSize(imgSize), afterHeader;
    }
    var buffer := new Byte[imgSize](_ => 0);
    var ending;
    ending, rest := FillImage(buffer, afterHeader);
    outcome := Image(buffer[..], ending);
  }

  /** The station's connections: `_port` and `_serverId`, pushed and popped together. */
  class TcpService {
    var port: seq<int>
    var serverId: seq<int>

    predicate Valid()
      reads this
    {
      |port| == |serverId|
    }

    /** The server address is fixed and not modelled. */
    constructor ()
      ensures port == [] && serverId == [] && Valid()
    {
      port := [];
      serverId := [];
    }

    /**
     * `ConnectToServer`, given what `socket`, `inet_pton` and `connect`
     * return: records the port and the socket only once connected.
     */
    method ConnectToServer(p: int, socket: int, pton: int, connect: int) returns (ok: bool)
      modifies this
      ensures ok <==> socket != -1 && pton > 0 && connect >= 0
      ensures ok ==> port == old(port) + [p] && serverId == old(serverId) + [socket]
      ensures !ok ==> port == old(port) && serverId == old(serverId)
      ensures old(Valid()) ==> Valid()
    {
      if socket == -1 {
        return false;
      }
      if pton <= 0 {
        return false;
      }
      if connect < 0 {
        return false;
      }
      port := port + [p];
      serverId := serverId + [socket];
      ok := true;
    }

    /** `closeLastConnection`: closes and drops the newest socket and its port. */
    method CloseLastConnection() returns (closed: int)
      requires |serverId| > 0 && |port| > 0
      modifies this
      ensures closed == old(serverId)[|old(serverId)| - 1]
      ensures serverId == old(serverId)[..|old(serverId)| - 1]
      ensures port == old(port)[..|old(port)| - 1]
      ensures old(Valid()) ==> Valid()
    {
      closed := serverId[|serverId| - 1];
      serverId := serverId[..|serverId| - 1];
      port := port[..|port| - 1];
    }

    /**
     * The child forked for a pushed button: reads the QR message, connects
     * to port 4098, sends the message on `_serverId[1]` and closes that
     * connection again.  When the connection fails, `_serverId[1]` does not
     * exist and the source's behaviour is undefined.
     */
    method ForwardDecodedMessage(objects: seq<Qr.DecodedObject>, socket: int, pton: int, connect: int)
      returns (outcome: ForwardOutcome)
      requires Valid() && |serverId| == 1
      requires Qr.IsAscii(Qr.SelectedData(objects))
      modifies this
      ensures outcome.Sent? <==> socket != -1 && pton > 0 && connect >= 0
      ensures outcome.Sent? ==> outcome.to == socket && outcome.message == Qr.Sanitized(Qr.SelectedData(objects))
      ensures port == old(port) && serverId == old(serverId)
    {
      var message := Qr.GetMessage(objects);
      var ok := ConnectToServer(4098, socket, pton, connect);
      if |serverId| < 2 {
        return NoSecondConnection;
      }
      var to := serverId[1];
      var closed := CloseLastConnection();
      outcome := Sent(to, message);
    }
  }

  /** What the forwarding child did: sent the message on a socket, or hit the missing connection. */
  datatype ForwardOutcome = Sent(to: int, message: string) | NoSecondConnection

  /**
   * What one pass of ObserveServerResponse's loop gets from the outside:
   * the state token, the button token and the image (each as received),
   * whether imdecode succeeded, the key `waitKey` returned, the answers to
   * the resolution menu, and the symbols the scanner found in the image.
   */
  datatype StationInputs = StationInputs(
    state: string, button: string, image: ImageOutcome, decoded: bool,
    key: int, answers: seq<Option<int>>, objects: seq<Qr.DecodedObject>)

  /**
   * How a pass ends: on to the next pass; a return (Esc, a failed size
   * receive, a failed decode); or a stop that never returns (the size
   * vector cannot be built, the image transfer spins on a closed
   * connection, the menu never gets a valid answer).
   */
  datatype StationEnding =
    | Continue | UserQuit | SizeFailed | DecodeFailed
    | SizeRejected | ImageStalled | MenuStalled

  /** The tokens one pass sends on the primary connection, the message it forwards, and how it ends. */
  datatype StationStep = StationStep(sent: seq<string>, forward: Option<string>, ending: StationEnding)

  function Last(s: string): char
    requires s != []
  {
    s[|s| - 1]
  }

  /** The image reached the decoding step. */
  predicate ImageArrived(inputs: StationInputs)
  {
    inputs.image.Image? && inputs.image.ending != Spinning
  }

  /** `state.back()` and `buttonState.back()` are only evaluated on tokens that are not empty. */
  predicate Readable(inputs: StationInputs)
  {
    inputs.state != [] &&
    (Last(inputs.state) == 'R' && ImageArrived(inputs) && inputs.decoded ==> inputs.button != [])
  }

  /** One pass of ObserveServerResponse's loop. */
  function StationTurn(inputs: StationInputs): StationStep
    requires Readable(inputs)
  {
    if Last(inputs.state) != 'R' then StationStep(["z"], None, Continue)
    else
      var sent := ["z", "c", "z"];
      match inputs.image
      case NoSize => StationStep(sent, None, SizeFailed)
      case BadSize(_) => StationStep(sent, None, SizeRejected)
      case Image(_, ending) =>
        if ending == Spinning then StationStep(sent, None, ImageStalled)
        else if !inputs.decoded then StationStep(sent, None, DecodeFailed)
        else
          var forward := if Last(inputs.button) == 'B' then Some(Qr.Sanitized(Qr.SelectedData(inputs.objects))) else None;
          var answer := KeyAnswer(inputs.key, inputs.answers);
          StationStep(sent + answer.0, forward, answer.1)
  }

  /** What the station sends once the image is shown, for the key `waitKey` returned, and how the pass ends. */
  function KeyAnswer(key: int, answers: seq<Option<int>>): (seq<string>, StationEnding)
  {
    if key == 27 then (["q"], UserQuit)
    else if key == 114 then
      match FirstValidChoice(answers)
      case None => (["r"], MenuStalled)
      case Some(k) => (["r", GetVideoResolution(answers[k].value - 1)], Continue)
    else (["z"], Continue)
  }

  /** The state token is always acknowledged with "z"; a state not ending in 'R' gets nothing else. */
  lemma StateAcknowledged(inputs: StationInputs)
    requires Readable(inputs)
    ensures StationTurn(inputs).sent != [] && StationTurn(inputs).sent[0] == "z"
    ensures Last(inputs.state) != 'R' <==> StationTurn(inputs).sent == ["z"]
  {
  }

  /**
   * In a READY pass the station asks for the capture ("c"), acknowledges
   * the button token ("z"), and after the image answers the key: "q" for
   * Esc, "r" and a menu resolution for 'r', "z" for anything else.
   */
  lemma ReadyTranscript(inputs: StationInputs)
    requires Readable(inputs) && Last(inputs.state) == 'R'
    ensures StationTurn(inputs).sent[..3] == ["z", "c", "z"]
    ensures ImageArrived(inputs) && inputs.decoded ==>
      (inputs.key == 27 <==> StationTurn(inputs).ending == UserQuit) &&
      (inputs.key == 27 ==> StationTurn(inputs).sent == ["z", "c", "z", "q"]) &&
      (inputs.key != 27 && inputs.key != 114 ==> StationTurn(inputs).sent == ["z", "c", "z", "z"]) &&
      (inputs.key == 114 ==> StationTurn(inputs).sent[3] == "r")
    ensures ImageArrived(inputs) && inputs.decoded && inputs.key == 114 && FirstValidChoice(inputs.answers).Some? ==>
      |StationTurn(inputs).sent| == 5 &&
      StationTurn(inputs).sent[4] in ["176x144", "160x120", "800x600", "1184x656"]
  {
    var step := StationTurn(inputs);
    var asked := ["z", "c", "z"];
    if ImageArrived(inputs) && inputs.decoded {
      var answer := KeyAnswer(inputs.key, inputs.answers);
      assert step.sent == asked + answer.0 && step.ending == answer.1;
      if inputs.key == 114 && FirstValidChoice(inputs.answers).Some? {
        ChoiceIsListed(inputs.answers);
      }
    } else {
      assert step.sent == asked;
    }
  }

  /** A message is forwarded exactly when the image was decoded and the button token ends in 'B'. */
  lemma ForwardOnlyOnButton(inputs: StationInputs)
    requires Readable(inputs)
    ensures StationTurn(inputs).forward.Some? <==>
      Last(inputs.state) == 'R' && ImageArrived(inputs) && inputs.decoded && Last(inputs.button) == 'B'
    ensures StationTurn(inputs).forward.Some? ==>
      StationTurn(inputs).forward.value == Qr.Sanitized(Qr.SelectedData(inputs.objects))
  {
  }

  /** One pass of the loop, as the source performs it. */
  method ExchangeOnce(inputs: StationInputs) returns (sent: seq<string>, forward: Option<string>, ending: StationEnding)
    requires Readable(inputs)
    ensures StationStep(sent, forward, ending) == StationTurn(inputs)
  {
    var state := inputs.state;
    sent := ["z"];
    forward := None;
    ending := Continue;
    if state[|state| - 1] == 'R' {
      sent := sent + ["c"];
      var buttonState := inputs.button;
      sent := sent + ["z"];
      match inputs.image {
        case NoSize =>
          ending := SizeFailed;
        case BadSize(_) =>
          ending := SizeRejected;
        case Image(_, transfer) =>
          if transfer == Spinning {
            ending := ImageStalled;
          } else if !inputs.decoded {
            ending := DecodeFailed;
          } else {
            if buttonState[|buttonState| - 1] == 'B' {
              forward := Some(Qr.Sanitized(Qr.SelectedData(inputs.objects)));
            }
            var reply;
            reply, ending := AnswerKey(inputs.key, inputs.answers);
            sent := sent + reply;
          }
      }
    }
  }

  /** The key handling of ObserveServerResponse: Esc, 'r' and the menu, or anything else. */
  method AnswerKey(key: int, answers: seq<Option<int>>) returns (reply: seq<string>, ending: StationEnding)
    ensures (reply, ending) == KeyAnswer(key, answers)
  {
    ending := Continue;
    if key == 27 {
      reply := ["q"];
      ending := UserQuit;
    } else if key == 114 {
      reply := ["r"];
      var resolution, used := ChooseResolution(answers);
      if resolution.None? {
        ending := MenuStalled;
      } else {
        reply := reply + [resolution.value];
        assert reply == ["r", resolution.value];
      }
    } else {
      reply := ["z"];
    }
  }

  /** What the whole loop sends and forwards, and how it ends (Continue when the inputs run out). */
  datatype StationRun = StationRun(sent: seq<string>, forwarded: seq<string>, ending: StationEnding)

  predicate AllReadable(inputs: seq<StationInputs>)
  {
    forall i :: 0 <= i < |inputs| ==> Readable(inputs[i])
  }

  function Forwarded(step: StationStep): seq<string>
  {
    if step.forward.Some? then [step.forward.value] else []
  }

  /** The passes of ObserveServerResponse, up to the first that does not continue. */
  function ObserveRun(inputs: seq<StationInputs>): StationRun
    requires AllReadable(inputs)
    decreases |inputs|
  {
    if inputs == [] then StationRun([], [], Continue)
    else
      var step := StationTurn(inputs[0]);
      if step.ending != Continue then StationRun(step.sent, Forwarded(step), step.ending)
      else
        var more := ObserveRun(inputs[1..]);
        StationRun(step.sent + more.sent, Forwarded(step) + more.forwarded, more.ending)
  }

  /** The run stops only where some pass stops, and every pass before it continued. */
  lemma {:induction false} RunEndsAtFirstStop(inputs: seq<StationInputs>)
    requires AllReadable(inputs)
    ensures ObserveRun(inputs).ending != Continue <==>
      exists i :: 0 <= i < |inputs| && StationTurn(inputs[i]).ending != Continue
    decreases |inputs|
  {
    if inputs != [] {
      RunEndsAtFirstStop(inputs[1..]);
      if StationTurn(inputs[0]).ending == Continue {
        if exists i :: 0 <= i < |inputs| && StationTurn(inputs[i]).ending != Continue {
          var i :| 0 <= i < |inputs| && StationTurn(inputs[i]).ending != Continue;
          assert inputs[1..][i - 1] == inputs[i];
        }
        if exists i :: 0 <= i < |inputs[1..]| && StationTurn(inputs[1..][i]).ending != Continue {
          var i :| 0 <= i < |inputs[1..]| && StationTurn(inputs[1..][i]).ending != Continue;
          assert inputs[i + 1] == inputs[1..][i];
        }
      }
    }
  }

  /** The value the source returns, when it returns: `true` on every path. */
  function ReturnValue(ending: StationEnding): Option<bool>
  {
    if ending in {UserQuit, SizeFailed, DecodeFailed} then Some(true) else None
  }

  /** The value the comments and the unreachable `return false` statements describe. */
  function IntendedReturnValue(ending: StationEnding): Option<bool>
  {
    if ending in {UserQuit, SizeFailed, DecodeFailed} then Some(ending == UserQuit) else None
  }

  /** A failed receive of the image size ends the loop, and the source still reports success. */
  lemma SizeFailureReportsTrue(inputs: StationInputs)
    requires Readable(inputs) && Last(inputs.state) == 'R' && inputs.image == NoSize
    ensures ObserveRun([inputs]).ending == SizeFailed
    ensures ReturnValue(ObserveRun([inputs]).ending) == Some(true)
  {
  }

  /** Pass i is the first that does not continue. */
  predicate FirstStopAt(inputs: seq<StationInputs>, i: int)
    requires AllReadable(inputs)
  {
    0 <= i < |inputs| && StationTurn(inputs[i]).ending != Continue &&
    forall j :: 0 <= j < i ==> StationTurn(inputs[j]).ending == Continue
  }

  /** A READY pass whose size receive failed, or whose image arrived but held no code. */
  predicate FailedPass(inputs: StationInputs)
    requires inputs.state != []
  {
    Last(inputs.state) == 'R' && (inputs.image == NoSize || (ImageArrived(inputs) && !inputs.decoded))
  }

  /** A READY pass whose image was decoded and shown, after which the user pressed Esc. */
  predicate QuitPass(inputs: StationInputs)
    requires inputs.state != []
  {
    Last(inputs.state) == 'R' && ImageArrived(inputs) && inputs.decoded && inputs.key == 27
  }

  /** The pass endings the two return statements of the loop follow, in terms of what the pass received. */
  lemma PassEnding(inputs: StationInputs)
    requires Readable(inputs)
    ensures StationTurn(inputs).ending in {SizeFailed, DecodeFailed} <==> FailedPass(inputs)
    ensures StationTurn(inputs).ending == UserQuit <==> QuitPass(inputs)
  {
  }

  /** The run ends as its first pass that does not continue. */
  lemma {:induction false} RunStopsAtFirst(inputs: seq<StationInputs>, i: int)
    requires AllReadable(inputs) && FirstStopAt(inputs, i)
    ensures ObserveRun(inputs).ending == StationTurn(inputs[i]).ending
    decreases i
  {
    if i > 0 {
      assert StationTurn(inputs[0]).ending == Continue;
      assert FirstStopAt(inputs[1..], i - 1) by {
        forall j | 0 <= j < i - 1
          ensures StationTurn(inputs[1..][j]).ending == Continue
        {
          assert inputs[1..][j] == inputs[j + 1];
        }
        assert inputs[1..][i - 1] == inputs[i];
      }
      RunStopsAtFirst(inputs[1..], i - 1);
    }
  }

  /** A pass that does not continue has a first such pass at or before it. */
  lemma {:induction false} FirstStationStop(inputs: seq<StationInputs>, k: int) returns (i: int)
    requires AllReadable(inputs) && 0 <= k < |inputs| && StationTurn(inputs[k]).ending != Continue
    ensures FirstStopAt(inputs, i) && i <= k
    decreases k
  {
    if j :| 0 <= j < k && StationTurn(inputs[j]).ending != Continue {
      i := FirstStationStop(inputs, j);
    } else {
      i := k;
    }
  }

  /**
   * With the intended return value, the loop reports failure exactly when
   * its first pass that does not continue lost the size receive or decoded
   * nothing, and success exactly when that pass ended on Esc.
   */
  lemma IntendedReportsFailure(inputs: seq<StationInputs>)
    requires AllReadable(inputs)
    ensures IntendedReturnValue(ObserveRun(inputs).ending) == Some(false) <==>
      exists i :: FirstStopAt(inputs, i) && FailedPass(inputs[i])
    ensures IntendedReturnValue(ObserveRun(inputs).ending) == Some(true) <==>
      exists i :: FirstStopAt(inputs, i) && QuitPass(inputs[i])
  {
    if k :| 0 <= k < |inputs| && StationTurn(inputs[k]).ending != Continue {
      var i := FirstStationStop(inputs, k);
      RunStopsAtFirst(inputs, i);
      PassEnding(inputs[i]);
      forall i' | FirstStopAt(inputs, i')
        ensures i' == i
      {
      }
    } else {
      RunEndsAtFirstStop(inputs);
    }
  }

  lemma RunStep(inputs: seq<StationInputs>, i: nat)
    requires AllReadable(inputs) && i < |inputs|
    ensures var step := StationTurn(inputs[i]);
      ObserveRun(inputs[i..]) ==
        if step.ending != Continue then StationRun(step.sent, Forwarded(step), step.ending)
        else StationRun(step.sent + ObserveRun(inputs[i + 1..]).sent,
          Forwarded(step) + ObserveRun(inputs[i + 1..]).forwarded, ObserveRun(inputs[i + 1..]).ending)
  {
    assert inputs[i..][0] == inputs[i];
    assert inputs[i..][1..] == inputs[i + 1..];
  }

  function Join(sent: seq<string>, forwarded: seq<string>, run: StationRun): StationRun
  {
    StationRun(sent + run.sent, forwarded + run.forwarded, run.ending)
  }

  /** How one pass moves the loop's invariant forward. */
  lemma Advance(inputs: seq<StationInputs>, i: nat, sent: seq<string>, forwarded: seq<string>)
    requires AllReadable(inputs) && i < |inputs|
    requires ObserveRun(inputs) == Join(sent, forwarded, ObserveRun(inputs[i..]))
    ensures var step := StationTurn(inputs[i]);
      if step.ending == Continue
      then ObserveRun(inputs) == Join(sent + step.sent, forwarded + Forwarded(step), ObserveRun(inputs[i + 1..]))
      else ObserveRun(inputs) == StationRun(sent + step.sent, forwarded + Forwarded(step), step.ending)
  {
    var step := StationTurn(inputs[i]);
    RunStep(inputs, i);
    if step.ending == Continue {
      var more := ObserveRun(inputs[i + 1..]);
      AppendAssociates(sent, step.sent, more.sent);
      AppendAssociates(forwarded, Forwarded(step), more.forwarded);
    }
  }

  /**
   * `ObserveServerResponse`: passes until one does not continue; counts the
   * forwarded images in `imagecounter`.  `result` is `None` where the source
   * never returns, or the inputs ran out.
   */
  method ObserveServerResponse(inputs: seq<StationInputs>)
    returns (sent: seq<string>, forwarded: seq<string>, imagecounter: nat, ending: StationEnding, result: Option<bool>)
    requires AllReadable(inputs)
    ensures StationRun(sent, forwarded, ending) == ObserveRun(inputs)
    ensures imagecounter == |forwarded|
    ensures result == ReturnValue(ending)
  {
    sent, forwarded, imagecounter, ending := [], [], 0, Continue;
    var i := 0;
    assert inputs[0..] == inputs;
    while i < |inputs|
      invariant 0 <= i <= |inputs| && imagecounter == |forwarded|
      invariant ObserveRun(inputs) == Join(sent, forwarded, ObserveRun(inputs[i..]))
    {
      ghost var previous := forwarded;
      Advance(inputs, i, sent, forwarded);
      var stepSent, forward, stepEnding := ExchangeOnce(inputs[i]);
      ghost var fwd := Forwarded(StationStep(stepSent, forward, stepEnding));
      sent := sent + stepSent;
      if forward.Some? {
        forwarded := forwarded + [forward.value];
        imagecounter := imagecounter + 1;
      }
      assert forwarded == previous + fwd;
      if stepEnding != Continue {
        ending := stepEnding;
        break;
      }
      i := i + 1;
    }
    if i == |inputs| {
      assert inputs[i..] == [];
    }
    result := ReturnValue(ending);
  }
}
