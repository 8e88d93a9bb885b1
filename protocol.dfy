/**
 * The two programs against each other: what the station answers is what
 * the field unit reads, the image the field unit frames is the image the
 * station rebuilds, the resolutions the station offers are the ones the
 * camera accepts, and a decoded QR message forwarded on port 4098 is the
 * sentence the field unit plays.  Each token is taken to arrive in a
 * segment of its own.
 */
module Protocol {
  import opened Wrappers
  import opened Wire
  import opened Decimal
  import opened Morse
  import opened Camera
  import opened FieldTcp
  import opened FieldMain
  import StationTcp
  import Qr

  /** Tokens sent one `send` each, as they arrive: one segment per token. */
  function Chunks(tokens: seq<string>): (c: seq<Segment<char>>)
    ensures |c| == |tokens|
  {
    if tokens == [] then [] else [Chunk(tokens[0])] + Chunks(tokens[1..])
  }

  /** A token WaitUserEntry can return whole from one receive. */
  predicate Short(tokens: seq<string>)
  {
    forall k :: 0 <= k < |tokens| ==> 0 < |tokens[k]| < BufferSize
  }

  lemma ChunksFrom(tokens: seq<string>, k: nat)
    requires k < |tokens|
    ensures Chunks(tokens[k..]) == [Chunk(tokens[k])] + Chunks(tokens[k + 1..])
  {
    assert tokens[k..][1..] == tokens[k + 1..];
  }

  /** The next WaitUserEntry returns the next token and leaves the ones after it. */
  lemma NextToken(tokens: seq<string>, later: seq<Segment<char>>, k: nat)
    requires Short(tokens) && k < |tokens|
    ensures UserEntry(Chunks(tokens[k..]) + later) == (tokens[k], Chunks(tokens[k + 1..]) + later)
  {
    ChunksFrom(tokens, k);
    AppendAssociates([Chunk(tokens[k])], Chunks(tokens[k + 1..]), later);
    ShortChunkEndsEntry(tokens[k], Chunks(tokens[k + 1..]) + later);
  }

  lemma {:induction false} LaterOfChunks(tokens: seq<string>, later: seq<Segment<char>>, k: nat)
    requires Short(tokens) && k <= |tokens|
    ensures Later(Chunks(tokens) + later, k) == Chunks(tokens[k..]) + later
    decreases k
  {
    if k == 0 {
      assert tokens[0..] == tokens;
    } else {
      var c := Chunks(tokens) + later;
      LaterOfChunks(tokens, later, k - 1);
      var before := Later(c, k - 1);
      assert before == Chunks(tokens[k - 1..]) + later;
      NextToken(tokens, later, k - 1);
      assert Later(c, k) == UserEntry(before).1;
    }
  }

  /** Each WaitUserEntry on the field unit returns the next token, and nothing more. */
  lemma TokensArriveInOrder(tokens: seq<string>, later: seq<Segment<char>>, k: nat)
    requires Short(tokens) && k <= |tokens|
    ensures Later(Chunks(tokens) + later, k) == Chunks(tokens[k..]) + later
    ensures k < |tokens| ==> EntryAt(Chunks(tokens) + later, k) == tokens[k]
  {
    LaterOfChunks(tokens, later, k);
    if k < |tokens| {
      NextToken(tokens, later, k);
    }
  }

  /** A NO_LIGHT pass: the station answers "N" with "z" and nothing else, and the field unit reads exactly that. */
  lemma DarkExchange(gpio: Gpio.GpioState, camera: Resolution, sample: Sample,
                     inputs: StationTcp.StationInputs, later: seq<Segment<char>>)
    requires CurrentLight(gpio, sample) > 1000.0 && inputs.state == NoLight
    ensures StationTcp.Readable(inputs)
    ensures StationTcp.StationTurn(inputs).sent == ["z"]
    ensures var step := FieldTurn(gpio, camera, sample, Chunks(StationTcp.StationTurn(inputs).sent) + later);
      step.sent == [Token(NoLight)] && step.rest == later && step.outcome == Next
  {
    var reply := ["z"];
    assert StationTcp.StationTurn(inputs).sent == reply;
    NoLightTurn(gpio, camera, sample, Chunks(reply) + later);
    TokensArriveInOrder(reply, later, 1);
    assert reply[1..] == [];
  }

  /**
   * A READY pass in which the image reached the station and was decoded:
   * the field unit reads the station's "z", "c", "z" and key token, quits
   * exactly on Esc, and keeps its camera unless 'r' was pressed.
   */
  lemma ReadyExchange(gpio: Gpio.GpioState, camera: Resolution, sample: Sample,
                      inputs: StationTcp.StationInputs, later: seq<Segment<char>>)
    requires CurrentLight(gpio, sample) <= 1000.0 && inputs.state == Ready
    requires StationTcp.ImageArrived(inputs) && inputs.decoded && inputs.button != []
    requires inputs.key != 114
    ensures StationTcp.Readable(inputs)
    ensures var step := FieldTurn(gpio, camera, sample, Chunks(StationTcp.StationTurn(inputs).sent) + later);
      (step.outcome == Quit <==> inputs.key == 27) && step.rest == later && step.camera == camera
  {
    var reply := StationTcp.StationTurn(inputs).sent;
    var command := if inputs.key == 27 then "q" else "z";
    assert reply == ["z", "c", "z", command];
    var c := Chunks(reply) + later;
    TokensArriveInOrder(reply, later, 3);
    TokensArriveInOrder(reply, later, 4);
    assert reply[4..] == [];
    ReadyTurn(gpio, camera, sample, c);
  }

  /** The four menu strings parse back to the table entries they were made from. */
  lemma MenuResolutionsParse(i: int)
    requires 0 <= i < 4
    ensures ParseResolution(StationTcp.GetVideoResolution(i)) ==
      Success(Resolution(StationTcp.WidthTable[i], StationTcp.HeightTable[i]))
  {
    var r := Resolution(StationTcp.WidthTable[i], StationTcp.HeightTable[i]);
    assert StationTcp.GetVideoResolution(i) == Format(r);
    ParseFormat(r);
  }

  /** The camera starts at the first menu entry. */
  lemma InitialIsFirstChoice()
    ensures InitialResolution == Resolution(StationTcp.WidthTable[0], StationTcp.HeightTable[0])
    ensures StationTcp.GetVideoResolution(0) == Format(InitialResolution)
  {
  }

  /** What the station sends on 'r' with an accepted menu choice: the three answers, "r" and the chosen resolution. */
  lemma ResizeReply(inputs: StationTcp.StationInputs)
    requires inputs.state == Ready
    requires StationTcp.ImageArrived(inputs) && inputs.decoded && inputs.button != []
    requires inputs.key == 114 && StationTcp.FirstValidChoice(inputs.answers).Some?
    ensures StationTcp.Readable(inputs)
    ensures var choice := inputs.answers[StationTcp.FirstValidChoice(inputs.answers).value].value - 1;
      var reply := StationTcp.StationTurn(inputs).sent;
      0 <= choice < 4 && reply == ["z", "c", "z", "r", StationTcp.GetVideoResolution(choice)] && Short(reply)
  {
    var choice := inputs.answers[StationTcp.FirstValidChoice(inputs.answers).value].value - 1;
    MenuEntryFits(choice);
    var reply := StationTcp.StationTurn(inputs).sent;
    assert reply == ["z", "c", "z", "r", StationTcp.GetVideoResolution(choice)];
  }

  /** A menu entry fits in one receive of the field unit. */
  lemma MenuEntryFits(i: int)
    requires 0 <= i < 4
    ensures 0 < |StationTcp.GetVideoResolution(i)| < BufferSize
  {
    StationTcp.VideoResolutions();
  }

  /**
   * 'r' with an accepted menu choice: the field unit reads "r" and the
   * resolution, and its camera takes the table entry of that choice.
   */
  lemma ResizeExchange(gpio: Gpio.GpioState, camera: Resolution, sample: Sample,
                       inputs: StationTcp.StationInputs, later: seq<Segment<char>>)
    requires CurrentLight(gpio, sample) <= 1000.0 && inputs.state == Ready
    requires StationTcp.ImageArrived(inputs) && inputs.decoded && inputs.button != []
    requires inputs.key == 114 && StationTcp.FirstValidChoice(inputs.answers).Some?
    ensures StationTcp.Readable(inputs)
    ensures var choice := inputs.answers[StationTcp.FirstValidChoice(inputs.answers).value].value - 1;
      var step := FieldTurn(gpio, camera, sample, Chunks(StationTcp.StationTurn(inputs).sent) + later);
      0 <= choice < 4 && step.outcome == Next && step.rest == later &&
      step.camera == Resolution(StationTcp.WidthTable[choice], StationTcp.HeightTable[choice])
  {
    var choice := inputs.answers[StationTcp.FirstValidChoice(inputs.answers).value].value - 1;
    var reply := StationTcp.StationTurn(inputs).sent;
    ResizeReply(inputs);
    var c := Chunks(reply) + later;
    TokensArriveInOrder(reply, later, 3);
    TokensArriveInOrder(reply, later, 4);
    TokensArriveInOrder(reply, later, 5);
    assert reply[5..] == [];
    ReadyTurn(gpio, camera, sample, c);
    MenuResolutionsParse(choice);
  }

  /** The frame SendImage writes, received by the station in one segment, is rebuilt whole and marked complete. */
  lemma ImageRoundTrip(image: seq<Byte>, sizeSend: int, dataSend: int, later: seq<Segment<Byte>>)
    requires |image| < 0x8000_0000 && sizeSend != -1 && dataSend != -1
    ensures StationTcp.ImageReceive([Chunk(ImageWire(image, sizeSend, dataSend))] + later) ==
      (StationTcp.Image(image, StationTcp.Complete), later)
  {
    var header := LittleEndian(|image|, 4);
    var d := header + image;
    var c := [Chunk(d)] + later;
    assert ImageWire(image, sizeSend, dataSend) == d;
    assert d[..4] == header;
    SizeFieldReadsBack(|image|);
    assert c[1..] == later;
    if image == [] {
      assert d == header;
      assert Recv(c, 4) == (Received(4, header), later);
      assert StationTcp.ImageData(later, 0) == ([], StationTcp.Complete, later);
    } else {
      var afterHeader := [Chunk(image)] + later;
      assert d[4..] == image;
      assert Recv(c, 4) == (Received(4, header), afterHeader);
      assert afterHeader[1..] == later;
      assert Recv(afterHeader, |image|) == (Received(|image|, image), later);
      assert StationTcp.ImageData(later, 0) == ([], StationTcp.Complete, later);
      assert StationTcp.ImageData(afterHeader, |image|) == (image + [], StationTcp.Complete, later);
      assert image + [] == image;
    }
    assert StationTcp.Zeros(0) == [];
    assert image + [] == image;
  }

  /** A kept character has exactly one code: "" for a space, its table entry otherwise. */
  lemma CleanCharCode(c: char)
    requires Qr.IsClean(c)
    ensures |CodesOf(c)| == 1 && (c == ' ' || c in MorseTable)
    ensures CodesOf(c)[0] == if c == ' ' then "" else MorseTable[c]
  {
    TableDomain(c);
  }

  /**
   * Every character the sanitizer keeps becomes exactly one code, in order:
   * the k-th code is the one code of the k-th character (see CleanCharCode).
   */
  lemma CleanTextCodes(s: string)
    requires forall k :: 0 <= k < |s| ==> Qr.IsClean(s[k])
    ensures |Codes(s)| == |s|
    ensures forall k :: 0 <= k < |s| ==> [Codes(s)[k]] == CodesOf(s[k])
  {
    forall k | 0 <= k < |s|
      ensures |CodesOf(s[k])| == 1
    {
      CleanCharCode(s[k]);
    }
    OneCodePerChar(s);
  }

  /**
   * A decoded message the station forwards in one segment and then closes
   * is the sentence the field unit's child plays, one code per character;
   * an empty message (nothing located, or nothing kept) plays nothing.
   */
  lemma ForwardedMessagePlayed(objects: seq<Qr.DecodedObject>, start: StartResults)
    requires Accepted(start)
    ensures var message := Qr.Sanitized(Qr.SelectedData(objects));
      var result := ChildRun(ChildInputs(start, [Chunk(message), Fin], true));
      (message == "" ==> result == ChildResult(None, [], EmptySentence)) &&
      (message != "" ==>
        result == ChildResult(Some(Frequency), PlaybackTrace(Codes(message)), Played) &&
        |Codes(message)| == |message|)
  {
    var message := Qr.Sanitized(Qr.SelectedData(objects));
    var secondary := [Chunk(message), Fin];
    assert secondary == [Chunk(message)] + [Fin];
    MessageBeforeClose(message, [Fin]);
    if message != "" {
      Qr.SanitizedIsClean(Qr.SelectedData(objects));
      CleanTextCodes(message);
    }
  }
}
