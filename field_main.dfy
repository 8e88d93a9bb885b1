/**
 * The field unit's main program (odroid main.cpp, `main`): the server on
 * port 4099, the light-dependent state token, the button token, the image,
 * the quit and resolution commands, and the child process that plays a
 * sentence received on port 4098 in Morse code.  Each pass of the loop gets
 * its sensor readings, the captured frame and the results of its sends as a
 * `Sample`; the primary connection is a list of segments as in Wire.
 */
module FieldMain {
  import opened Wrappers
  import opened Wire
  import opened Decimal
  import opened Gpio
  import opened Camera
  import opened Morse
  import opened FieldTcp

  const Ready: string := "R"
  const NoLight: string := "N"
  const ButtonPushed: string := "B"

  /** The port of the primary connection and the port of the child's connection. */
  const PrimaryPort: int := 4099
  const SecondaryPort: int := 4098

  /** The state token for a light reading: "N" above 1000, "R" otherwise. */
  function StateToken(luminosity: real): string
  {
    if luminosity > 1000.0 then NoLight else Ready
  }

  // ---------------------------------------------------------------------
  // The child process

  /** What the child process is given: its Start's socket results, the connection on 4098, whether freq0 opens. */
  datatype ChildInputs = ChildInputs(start: StartResults, secondary: seq<Segment<char>>, freqOpens: bool)

  /**
   * Where the child stops: its Start failed (and it falls back into the
   * parent's loop) or called `exit(0)`; the sentence was empty; freq0 did
   * not open; or the sentence was played.
   */
  datatype ChildEnding = StartFailed | StartExited | EmptySentence | NoFrequencyFile | Played

  /** The frequency written to freq0, if any, and the events of the enable0 pin. */
  datatype ChildResult = ChildResult(frequency: Option<nat>, trace: seq<Event>, ending: ChildEnding)

  predicate Accepted(start: StartResults)
  {
    start.socket != -1 && start.setsockopt >= 0 && start.bind >= 0 && start.listen >= 0 && start.accept >= 0
  }

  /** What the child does: the sentence of its connection, translated and played, if it gets that far. */
  function ChildRun(inputs: ChildInputs): ChildResult
  {
    if !Accepted(inputs.start) then
      ChildResult(None, [], if inputs.start.socket != -1 && inputs.start.setsockopt < 0 then StartExited else StartFailed)
    else
      var sentence := UserEntry(inputs.secondary).0;
      if sentence == "" then ChildResult(None, [], EmptySentence)
      else if !inputs.freqOpens then ChildResult(None, [], NoFrequencyFile)
      else ChildResult(Some(Frequency), PlaybackTrace(Codes(sentence)), Played)
  }

  /**
   * The pin is driven only once a non-empty sentence has arrived and the
   * frequency has been written; an empty sentence touches neither freq0 nor
   * enable0.
   */
  lemma ChildPlaysOnlyASentence(inputs: ChildInputs)
    ensures ChildRun(inputs).trace != [] <==> ChildRun(inputs).ending == Played
    ensures ChildRun(inputs).frequency.Some? <==> ChildRun(inputs).ending == Played
    ensures ChildRun(inputs).ending == EmptySentence <==> Accepted(inputs.start) && UserEntry(inputs.secondary).0 == ""
    ensures ChildRun(inputs).ending == Played ==>
      ChildRun(inputs).frequency == Some(660) &&
      ChildRun(inputs).trace == PlaybackTrace(Codes(UserEntry(inputs.secondary).0)) &&
      Duration(ChildRun(inputs).trace) == CodesTime(Codes(UserEntry(inputs.secondary).0)) + 1000000
  {
    if ChildRun(inputs).ending == Played {
      PlaybackDuration(Codes(UserEntry(inputs.secondary).0));
    }
  }

  /**
   * The child after `fork()`: starts the server on 4098, reads a sentence
   * from the new connection (the second client id), closes it again, sets
   * the buzzer frequency and plays the sentence.
   */
  method SecondaryFlow(server: TcpService, inputs: ChildInputs) returns (result: ChildResult)
    requires server.Valid() && |server.clientId| == 1
    modifies server
    ensures result == ChildRun(inputs)
    ensures Accepted(inputs.start) <==> server.port == old(server.port) + [SecondaryPort]
    ensures !Accepted(inputs.start) || result.ending != EmptySentence ==>
      server.serverId == old(server.serverId) && server.clientId == old(server.clientId)
    ensures result.ending == EmptySentence ==>
      server.serverId == old(server.serverId) + [inputs.start.socket] &&
      server.clientId == old(server.clientId) + [inputs.start.accept]
  {
    var outcome := server.Start(SecondaryPort, inputs.start);
    if outcome != Started {
      return ChildResult(None, [], if outcome == Exited then StartExited else StartFailed);
    }
    var target := server.GetClientId(1);
    assert target == inputs.start.accept;
    var sentence, _ := WaitUserEntry(inputs.secondary);
    if sentence == "" {
      return ChildResult(None, [], EmptySentence);
    }
    var closed := server.CloseLastConnection();
    if !inputs.freqOpens {
      return ChildResult(None, [], NoFrequencyFile);
    }
    var written := Frequency;
    var morseSentence := StrToMorse(sentence, []);
    assert morseSentence == Codes(sentence);
    var trace := PlayMorseCode(morseSentence);
    result := ChildResult(Some(written), trace, Played);
  }

  // ---------------------------------------------------------------------
  // One pass of the loop

  /** What a pass sends on the primary connection: a token, or the bytes of an image. */
  datatype Outgoing = Token(text: string) | Frame(wire: seq<Byte>)

  /**
   * What one pass is given: the ADC and button reads (None when the sysfs
   * value does not parse), the captured frame, what its two sends return,
   * and what its child process would be given.
   */
  datatype Sample = Sample(
    luminosity: Option<real>, button: Option<int>,
    frame: seq<Byte>, sizeSend: int, dataSend: int, child: ChildInputs)

  /** A frame whose length the 4-byte size field can carry. */
  predicate Sendable(sample: Sample)
  {
    |sample.frame| < 0x8000_0000
  }

  /** A pass is followed by the next, ends the loop on "q", or terminates on an exception of `std::stoi`. */
  datatype FieldOutcome = Next | Quit | Crashed(error: StoiError)

  /** The sensor state, the camera's resolution, what was sent, the child spawned, and the connection left. */
  datatype FieldStep = FieldStep(
    gpio: GpioState, camera: Resolution, sent: seq<Outgoing>,
    child: Option<ChildResult>, outcome: FieldOutcome, rest: seq<Segment<char>>)

  /** One pass of main's `while (true)`: the state token and its acknowledgement, then a READY pass if it is light enough. */
  function FieldTurn(gpio: GpioState, camera: Resolution, sample: Sample, connection: seq<Segment<char>>): FieldStep
  {
    var lit := LuminosityRead(gpio, sample.luminosity);
    var ack2 := UserEntry(connection);
    if StateToken(lit.luminosity) != Ready then FieldStep(lit, camera, [Token(NoLight)], None, Next, ack2.1)
    else ReadyPass(lit, camera, sample, ack2.1)
  }

  /**
   * The rest of a READY pass: an entry, the button token (and the child on
   * a press), an acknowledgement, the image, and the command.
   */
  function ReadyPass(lit: GpioState, camera: Resolution, sample: Sample, connection: seq<Segment<char>>): FieldStep
  {
    var pressed := ButtonRead(lit, sample.button);
    var pushed := pressed.buttonValue == 1;
    var sent := [Token(Ready), Token(if pushed then ButtonPushed else "z"),
                 Frame(ImageWire(sample.frame, sample.sizeSend, sample.dataSend))];
    var child := if pushed then Some(ChildRun(sample.child)) else None;
    var entry := UserEntry(connection);
    var ack := UserEntry(entry.1);
    Command(pressed, camera, sent, child, ack.1)
  }

  /** The last entry of a READY pass: "q" ends the loop, "r" is followed by a resolution. */
  function Command(gpio: GpioState, camera: Resolution, sent: seq<Outgoing>, child: Option<ChildResult>,
                   connection: seq<Segment<char>>): (step: FieldStep)
    ensures step.gpio == gpio && step.sent == sent && step.child == child
  {
    var command := UserEntry(connection);
    if command.0 == "q" then FieldStep(gpio, camera, sent, child, Quit, command.1)
    else if command.0 == "r" then
      var resolution := UserEntry(command.1);
      match ParseResolution(resolution.0)
      case Success(r) => FieldStep(gpio, r, sent, child, Next, resolution.1)
      case Failure(NoSeparator) => FieldStep(gpio, camera, sent, child, Next, resolution.1)
      case Failure(BadNumber(e)) => FieldStep(gpio, camera, sent, child, Crashed(e), resolution.1)
    else FieldStep(gpio, camera, sent, child, Next, command.1)
  }

  /** The light value getLuminosity returns in a pass: the new reading, or the previous value. */
  function CurrentLight(gpio: GpioState, sample: Sample): real
  {
    if sample.luminosity.Some? then sample.luminosity.value else gpio.luminosity
  }

  /** The connection left after n successive WaitUserEntry calls. */
  function Later(connection: seq<Segment<char>>, n: nat): seq<Segment<char>>
    decreases n
  {
    if n == 0 then connection else UserEntry(Later(connection, n - 1)).1
  }

  /** The entry the (n+1)-th successive WaitUserEntry returns. */
  function EntryAt(connection: seq<Segment<char>>, n: nat): string
  {
    UserEntry(Later(connection, n)).0
  }

  /**
   * The first token of every pass is the state of the light reading of that
   * pass: nothing from earlier passes enters it except the stored value a
   * failed read falls back on.
   */
  lemma StateFromCurrentReading(gpio: GpioState, camera: Resolution, sample: Sample, connection: seq<Segment<char>>)
    ensures FieldTurn(gpio, camera, sample, connection).sent[0] == Token(NoLight) <==> CurrentLight(gpio, sample) > 1000.0
    ensures FieldTurn(gpio, camera, sample, connection).sent[0] == Token(Ready) <==> CurrentLight(gpio, sample) <= 1000.0
    ensures FieldTurn(gpio, camera, sample, connection).gpio.luminosity == CurrentLight(gpio, sample)
  {
  }

  /**
   * A NO_LIGHT pass sends the state token alone and reads one entry; the
   * button is not read, no image is sent, the camera is untouched.
   */
  lemma NoLightTurn(gpio: GpioState, camera: Resolution, sample: Sample, connection: seq<Segment<char>>)
    requires CurrentLight(gpio, sample) > 1000.0
    ensures var step := FieldTurn(gpio, camera, sample, connection);
      step.sent == [Token(NoLight)] && step.rest == Later(connection, 1) &&
      step.gpio == LuminosityRead(gpio, sample.luminosity) && step.camera == camera &&
      step.child == None && step.outcome == Next
  {
    assert Later(connection, 1) == UserEntry(connection).1;
  }

  /** The connections after one to five entries, spelled out one WaitUserEntry after another. */
  lemma FiveEntries(connection: seq<Segment<char>>)
    ensures Later(connection, 1) == UserEntry(connection).1
    ensures Later(connection, 2) == UserEntry(Later(connection, 1)).1
    ensures Later(connection, 3) == UserEntry(Later(connection, 2)).1
    ensures Later(connection, 4) == UserEntry(Later(connection, 3)).1
    ensures Later(connection, 5) == UserEntry(Later(connection, 4)).1
  {
  }

  /**
   * A READY pass sends the state, the button token ("B" exactly when the
   * edge detector reports a press, which is also when a child is spawned)
   * and the image; it reads four entries, stops the loop exactly when the
   * fourth is "q", and on "r" reads a fifth and hands it to UpdateResolution.
   */
  lemma ReadyTurn(gpio: GpioState, camera: Resolution, sample: Sample, connection: seq<Segment<char>>)
    requires CurrentLight(gpio, sample) <= 1000.0
    ensures var step := FieldTurn(gpio, camera, sample, connection);
      var pressed := ButtonRead(LuminosityRead(gpio, sample.luminosity), sample.button);
      step.sent == [Token(Ready), Token(if pressed.buttonValue == 1 then ButtonPushed else "z"),
                    Frame(ImageWire(sample.frame, sample.sizeSend, sample.dataSend))] &&
      step.gpio == pressed &&
      (step.child.Some? <==> pressed.buttonValue == 1) &&
      (step.child.Some? ==> step.child.value == ChildRun(sample.child))
    ensures var step := FieldTurn(gpio, camera, sample, connection);
      (step.outcome == Quit <==> EntryAt(connection, 3) == "q") &&
      (EntryAt(connection, 3) != "r" ==> step.rest == Later(connection, 4) && step.camera == camera)
    ensures var step := FieldTurn(gpio, camera, sample, connection);
      EntryAt(connection, 3) == "r" ==>
        step.rest == Later(connection, 5) &&
        match ParseResolution(EntryAt(connection, 4))
        case Success(r) => step.camera == r && step.outcome == Next
        case Failure(NoSeparator) => step.camera == camera && step.outcome == Next
        case Failure(BadNumber(e)) => step.camera == camera && step.outcome == Crashed(e)
  {
    FiveEntries(connection);
    var pressed := ButtonRead(LuminosityRead(gpio, sample.luminosity), sample.button);
    var sent := [Token(Ready), Token(if pressed.buttonValue == 1 then ButtonPushed else "z"),
                 Frame(ImageWire(sample.frame, sample.sizeSend, sample.dataSend))];
    var child := if pressed.buttonValue == 1 then Some(ChildRun(sample.child)) else None;
    assert FieldTurn(gpio, camera, sample, connection) == Command(pressed, camera, sent, child, Later(connection, 3));
    CommandRules(pressed, camera, sent, child, Later(connection, 3));
  }

  /** "q" ends the loop; "r" takes one more entry, which UpdateResolution parses; anything else goes on. */
  lemma CommandRules(gpio: GpioState, camera: Resolution, sent: seq<Outgoing>, child: Option<ChildResult>,
                     connection: seq<Segment<char>>)
    ensures var step := Command(gpio, camera, sent, child, connection);
      (step.outcome == Quit <==> UserEntry(connection).0 == "q") &&
      (UserEntry(connection).0 != "r" ==> step.rest == UserEntry(connection).1 && step.camera == camera)
    ensures var step := Command(gpio, camera, sent, child, connection);
      var resolution := UserEntry(UserEntry(connection).1);
      UserEntry(connection).0 == "r" ==>
        step.rest == resolution.1 &&
        match ParseResolution(resolution.0)
        case Success(r) => step.camera == r && step.outcome == Next
        case Failure(NoSeparator) => step.camera == camera && step.outcome == Next
        case Failure(BadNumber(e)) => step.camera == camera && step.outcome == Crashed(e)
  {
  }

  /** The camera changes only on an "r" command whose resolution parses. */
  lemma CameraChangesOnlyOnResize(gpio: GpioState, camera: Resolution, sample: Sample, connection: seq<Segment<char>>)
    ensures FieldTurn(gpio, camera, sample, connection).camera != camera ==>
      CurrentLight(gpio, sample) <= 1000.0 && EntryAt(connection, 3) == "r" &&
      ParseResolution(EntryAt(connection, 4)) == Success(FieldTurn(gpio, camera, sample, connection).camera)
  {
    if CurrentLight(gpio, sample) > 1000.0 {
      NoLightTurn(gpio, camera, sample, connection);
    } else {
      ReadyTurn(gpio, camera, sample, connection);
    }
  }

  /** The command entry as main handles it: "q" quits, "r" reads a resolution and applies it. */
  method CommandOnce(camera: Camera, ghost gpio: GpioState, ghost sent: seq<Outgoing>, ghost child: Option<ChildResult>,
                     connection: seq<Segment<char>>)
    returns (outcome: FieldOutcome, rest: seq<Segment<char>>)
    modifies camera
    ensures FieldStep(gpio, Resolution(camera.width, camera.height), sent, child, outcome, rest) ==
      Command(gpio, Resolution(old(camera.width), old(camera.height)), sent, child, connection)
  {
    var ack;
    ack, rest := WaitUserEntry(connection);
    outcome := Next;
    if ack == "q" {
      outcome := Quit;
    } else if ack == "r" {
      var resolution;
      resolution, rest := WaitUserEntry(rest);
      var updated := camera.UpdateResolution(resolution);
      if updated.Threw? {
        outcome := Crashed(updated.error);
      }
    }
  }

  /** The READY part of a pass, from the entry after the state token's acknowledgement. */
  method ReadyOnce(gpios: GpioService, camera: Camera, server: TcpService, sample: Sample, connection: seq<Segment<char>>)
    returns (sent: seq<Outgoing>, child: Option<ChildResult>, outcome: FieldOutcome, rest: seq<Segment<char>>)
    requires server.Valid() && |server.clientId| == 1 && Sendable(sample)
    modifies gpios, camera
    ensures gpios.luminosity == old(gpios.luminosity)
    ensures FieldStep(gpios.State(), Resolution(camera.width, camera.height), sent, child, outcome, rest) ==
      ReadyPass(old(gpios.State()), Resolution(old(camera.width), old(camera.height)), sample, connection)
  {
    ghost var pressed := ButtonRead(gpios.State(), sample.button);
    ghost var camera0 := Resolution(camera.width, camera.height);
    ghost var spec := ReadyPass(gpios.State(), camera0, sample, connection);
    var entry;
    entry, rest := WaitUserEntry(connection);
    var value := gpios.GetButtonValue(sample.button);
    assert gpios.State() == pressed && (value == 1 <==> pressed.buttonValue == 1);
    sent := [Token(Ready)];
    child := None;
    if value == 1 {
      sent := sent + [Token(ButtonPushed)];
      var copy := server.Fork();
      var result := SecondaryFlow(copy, sample.child);
      child := Some(result);
    } else {
      sent := sent + [Token("z")];
    }
    var ack;
    ack, rest := WaitUserEntry(rest);
    var ok, target, wire := server.SendImage(sample.frame, sample.sizeSend, sample.dataSend);
    sent := sent + [Frame(wire)];
    assert sent == [Token(Ready), Token(if pressed.buttonValue == 1 then ButtonPushed else "z"),
                    Frame(ImageWire(sample.frame, sample.sizeSend, sample.dataSend))];
    assert child == if pressed.buttonValue == 1 then Some(ChildRun(sample.child)) else None;
    assert spec == Command(pressed, camera0, sent, child, rest);
    outcome, rest := CommandOnce(camera, gpios.State(), sent, child, rest);
  }

  /**
   * One pass as main performs it.  `serverState` is the variable that keeps
   * its value from the previous pass; the pass overwrites it before using it,
   * and the reassignment in the NO_LIGHT branch can never fire, so it does
   * not enter the result.
   */
  method FieldOnce(gpios: GpioService, camera: Camera, server: TcpService, serverState: string,
                   sample: Sample, connection: seq<Segment<char>>)
    returns (sent: seq<Outgoing>, child: Option<ChildResult>, outcome: FieldOutcome,
             rest: seq<Segment<char>>, state: string)
    requires server.Valid() && |server.clientId| == 1 && Sendable(sample)
    modifies gpios, camera
    ensures FieldStep(gpios.State(), Resolution(camera.width, camera.height), sent, child, outcome, rest) ==
      FieldTurn(old(gpios.State()), Resolution(old(camera.width), old(camera.height)), sample, connection)
    ensures state == StateToken(gpios.luminosity)
  {
    var luminosity := gpios.GetLuminosity(sample.luminosity);
    state := serverState;
    if luminosity > 1000.0 {
      state := NoLight;
    } else {
      state := Ready;
    }
    var ack2;
    ack2, rest := WaitUserEntry(connection);
    if state == Ready {
      sent, child, outcome, rest := ReadyOnce(gpios, camera, server, sample, rest);
    } else {
      sent, child, outcome := [Token(state)], None, Next;
      if luminosity < 1000.0 && luminosity > 0.0 {
        state := Ready;
      }
    }
  }

  // ---------------------------------------------------------------------
  // The whole program

  /**
   * How main ends: its Start failed (it prints and returns 0) or exited;
   * the loop broke on "q"; stoi's exception terminated it; or the supplied
   * passes ran out while the loop was still going.
   */
  datatype FieldEnding = NotStarted | StartExit | QuitReceived | Terminated(error: StoiError) | Running

  /** Everything sent on the primary connection, the children spawned, and how the program ends. */
  datatype FieldRun = FieldRun(sent: seq<Outgoing>, children: seq<ChildResult>, ending: FieldEnding)

  predicate AllSendable(samples: seq<Sample>)
  {
    forall i :: 0 <= i < |samples| ==> Sendable(samples[i])
  }

  function Spawned(step: FieldStep): seq<ChildResult>
  {
    if step.child.Some? then [step.child.value] else []
  }

  /** The passes of the loop from a given sensor state and resolution, up to the first that does not go on. */
  function FieldLoop(gpio: GpioState, camera: Resolution, samples: seq<Sample>, connection: seq<Segment<char>>): FieldRun
    decreases |samples|
  {
    if samples == [] then FieldRun([], [], Running)
    else
      var step := FieldTurn(gpio, camera, samples[0], connection);
      match step.outcome
      case Quit => FieldRun(step.sent, Spawned(step), QuitReceived)
      case Crashed(e) => FieldRun(step.sent, Spawned(step), Terminated(e))
      case Next =>
        var more := FieldLoop(step.gpio, step.camera, samples[1..], step.rest);
        FieldRun(step.sent + more.sent, Spawned(step) + more.children, more.ending)
  }

  /** main: start on 4099, then the loop from the initial sensor state and the initial resolution. */
  function FieldProgram(start: StartResults, samples: seq<Sample>, connection: seq<Segment<char>>): FieldRun
  {
    if !Accepted(start) then
      FieldRun([], [], if start.socket != -1 && start.setsockopt < 0 then StartExit else NotStarted)
    else FieldLoop(InitialState, InitialResolution, samples, connection)
  }

  /**
   * The passes one after another, each from the sensor state, resolution and
   * connection the one before left, as though every pass went on.
   */
  function Passes(gpio: GpioState, camera: Resolution, samples: seq<Sample>, connection: seq<Segment<char>>)
    : (steps: seq<FieldStep>)
    ensures |steps| == |samples|
    decreases |samples|
  {
    if samples == [] then []
    else
      var step := FieldTurn(gpio, camera, samples[0], connection);
      [step] + Passes(step.gpio, step.camera, samples[1..], step.rest)
  }

  /** The run a sequence of passes makes: all of them up to the first that does not go on. */
  function RunOf(steps: seq<FieldStep>): FieldRun
  {
    if steps == [] then FieldRun([], [], Running)
    else if steps[0].outcome == Next then Join(steps[0].sent, Spawned(steps[0]), RunOf(steps[1..]))
    else FieldRun(steps[0].sent, Spawned(steps[0]),
                  if steps[0].outcome == Quit then QuitReceived else Terminated(steps[0].outcome.error))
  }

  /** The loop is the run of its passes. */
  lemma {:induction false} LoopIsRunOfPasses(gpio: GpioState, camera: Resolution, samples: seq<Sample>,
                                             connection: seq<Segment<char>>)
    ensures FieldLoop(gpio, camera, samples, connection) == RunOf(Passes(gpio, camera, samples, connection))
    decreases |samples|
  {
    if samples != [] {
      var step := FieldTurn(gpio, camera, samples[0], connection);
      var later := Passes(step.gpio, step.camera, samples[1..], step.rest);
      PassesHead(gpio, camera, samples, connection);
      LoopHead(gpio, camera, samples, connection);
      LoopIsRunOfPasses(step.gpio, step.camera, samples[1..], step.rest);
      assert ([step] + later)[0] == step && ([step] + later)[1..] == later;
    }
  }

  /** The first pass, then the passes from where it left off. */
  lemma PassesHead(gpio: GpioState, camera: Resolution, samples: seq<Sample>, connection: seq<Segment<char>>)
    requires samples != []
    ensures var step := FieldTurn(gpio, camera, samples[0], connection);
      Passes(gpio, camera, samples, connection) == [step] + Passes(step.gpio, step.camera, samples[1..], step.rest)
  {
  }

  /** One pass, then the rest of the loop from where it left off. */
  lemma LoopHead(gpio: GpioState, camera: Resolution, samples: seq<Sample>, connection: seq<Segment<char>>)
    requires samples != []
    ensures var step := FieldTurn(gpio, camera, samples[0], connection);
      FieldLoop(gpio, camera, samples, connection) ==
        if step.outcome == Next then Join(step.sent, Spawned(step), FieldLoop(step.gpio, step.camera, samples[1..], step.rest))
        else FieldRun(step.sent, Spawned(step), if step.outcome == Quit then QuitReceived else Terminated(step.outcome.error))
  {
  }

  /** Pass i is the first that does not go on. */
  predicate StopsAt(steps: seq<FieldStep>, i: int)
  {
    0 <= i < |steps| && steps[i].outcome != Next &&
    forall j :: 0 <= j < i ==> steps[j].outcome == Next
  }

  /** What a run of passes sends, one pass after another. */
  function SentOf(steps: seq<FieldStep>): seq<Outgoing>
  {
    if steps == [] then [] else steps[0].sent + SentOf(steps[1..])
  }

  /** The children a run of passes spawns, one pass after another. */
  function ChildrenOf(steps: seq<FieldStep>): seq<ChildResult>
  {
    if steps == [] then [] else Spawned(steps[0]) + ChildrenOf(steps[1..])
  }

  /**
   * When pass i is the first that does not go on, the run is passes 0 to i
   * and ends as that pass says: on "q", or on stoi's exception.
   */
  lemma {:induction false} RunStopsAt(steps: seq<FieldStep>, i: int)
    requires StopsAt(steps, i)
    ensures RunOf(steps) ==
      FieldRun(SentOf(steps[..i + 1]), ChildrenOf(steps[..i + 1]),
               if steps[i].outcome == Quit then QuitReceived else Terminated(steps[i].outcome.error))
    decreases i
  {
    var prefix := steps[..i + 1];
    assert prefix[0] == steps[0];
    if i == 0 {
      assert prefix[1..] == [];
    } else {
      assert StopsAt(steps[1..], i - 1) by {
        forall j | 0 <= j < i - 1
          ensures steps[1..][j].outcome == Next
        {
          assert steps[1..][j] == steps[j + 1];
        }
      }
      RunStopsAt(steps[1..], i - 1);
      assert prefix[1..] == steps[1..][..i];
      assert steps[1..][i - 1] == steps[i];
    }
  }

  /** When every pass goes on, the run is all of them and is still going when they run out. */
  lemma {:induction false} RunRunsOn(steps: seq<FieldStep>)
    requires forall i :: 0 <= i < |steps| ==> steps[i].outcome == Next
    ensures RunOf(steps) == FieldRun(SentOf(steps), ChildrenOf(steps), Running)
    decreases |steps|
  {
    if steps != [] {
      assert steps[0].outcome == Next;
      forall j | 0 <= j < |steps| - 1
        ensures steps[1..][j].outcome == Next
      {
        assert steps[1..][j] == steps[j + 1];
      }
      RunRunsOn(steps[1..]);
    }
  }

  /** A pass that does not go on has a first such pass at or before it. */
  lemma {:induction false} FirstStop(steps: seq<FieldStep>, k: int) returns (i: int)
    requires 0 <= k < |steps| && steps[k].outcome != Next
    ensures StopsAt(steps, i) && i <= k
    decreases k
  {
    if j :| 0 <= j < k && steps[j].outcome != Next {
      i := FirstStop(steps, j);
    } else {
      i := k;
    }
  }

  /**
   * The loop is its passes up to the first that does not go on: it sends
   * what they send, spawns what they spawn, and ends as that pass says.
   */
  lemma LoopStopsAt(gpio: GpioState, camera: Resolution, samples: seq<Sample>,
                    connection: seq<Segment<char>>, i: int)
    requires StopsAt(Passes(gpio, camera, samples, connection), i)
    ensures var steps := Passes(gpio, camera, samples, connection);
      FieldLoop(gpio, camera, samples, connection) ==
        FieldRun(SentOf(steps[..i + 1]), ChildrenOf(steps[..i + 1]),
                 if steps[i].outcome == Quit then QuitReceived else Terminated(steps[i].outcome.error))
  {
    LoopIsRunOfPasses(gpio, camera, samples, connection);
    RunStopsAt(Passes(gpio, camera, samples, connection), i);
  }

  /**
   * The loop ends on "q" exactly when the first pass that does not go on
   * read "q", ends on stoi's exception exactly when that pass threw, and is
   * still running exactly when every pass went on, having sent and spawned
   * what all of them did.
   */
  lemma FieldEndsAtFirstStop(gpio: GpioState, camera: Resolution, samples: seq<Sample>, connection: seq<Segment<char>>)
    ensures var steps := Passes(gpio, camera, samples, connection);
      FieldLoop(gpio, camera, samples, connection).ending == QuitReceived <==>
        exists i :: StopsAt(steps, i) && steps[i].outcome == Quit
    ensures var steps := Passes(gpio, camera, samples, connection);
      FieldLoop(gpio, camera, samples, connection).ending.Terminated? <==>
        exists i :: StopsAt(steps, i) && steps[i].outcome.Crashed?
    ensures var steps := Passes(gpio, camera, samples, connection);
      FieldLoop(gpio, camera, samples, connection).ending == Running <==>
        forall i :: 0 <= i < |steps| ==> steps[i].outcome == Next
    ensures var steps := Passes(gpio, camera, samples, connection);
      FieldLoop(gpio, camera, samples, connection).ending == Running ==>
        FieldLoop(gpio, camera, samples, connection) == FieldRun(SentOf(steps), ChildrenOf(steps), Running)
  {
    var steps := Passes(gpio, camera, samples, connection);
    LoopIsRunOfPasses(gpio, camera, samples, connection);
    if k :| 0 <= k < |steps| && steps[k].outcome != Next {
      var i := FirstStop(steps, k);
      RunStopsAt(steps, i);
      forall i' | StopsAt(steps, i')
        ensures i' == i
      {
      }
    } else {
      RunRunsOn(steps);
    }
  }

  /**
   * A pass spawns a child exactly when it was a READY pass (its light value
   * at most 1000) whose getButtonValue reported a press, and the child is
   * the one that pass's Morse flow describes.
   */
  predicate SpawnsOnPress(step: FieldStep, sample: Sample)
  {
    (step.child.Some? <==> step.gpio.luminosity <= 1000.0 && step.gpio.buttonValue == 1) &&
    (step.child.Some? ==> step.child.value == ChildRun(sample.child))
  }

  lemma TurnSpawnsOnPress(gpio: GpioState, camera: Resolution, sample: Sample, connection: seq<Segment<char>>)
    ensures SpawnsOnPress(FieldTurn(gpio, camera, sample, connection), sample)
  {
    StateFromCurrentReading(gpio, camera, sample, connection);
    if CurrentLight(gpio, sample) > 1000.0 {
      NoLightTurn(gpio, camera, sample, connection);
    } else {
      ReadyTurn(gpio, camera, sample, connection);
    }
  }

  predicate AllSpawnOnPress(steps: seq<FieldStep>, samples: seq<Sample>)
    requires |steps| == |samples|
  {
    forall i :: 0 <= i < |steps| ==> SpawnsOnPress(steps[i], samples[i])
  }

  lemma SpawnOnPressCons(step: FieldStep, later: seq<FieldStep>, samples: seq<Sample>)
    requires |samples| == |later| + 1
    requires SpawnsOnPress(step, samples[0]) && AllSpawnOnPress(later, samples[1..])
    ensures AllSpawnOnPress([step] + later, samples)
  {
    forall i | 1 <= i < |samples|
      ensures SpawnsOnPress(([step] + later)[i], samples[i])
    {
      assert ([step] + later)[i] == later[i - 1] && samples[i] == samples[1..][i - 1];
    }
  }

  /** Every pass of the loop spawns exactly on a press; the loop's children are those of its passes, in order. */
  lemma {:induction false} EveryPassSpawnsOnPress(gpio: GpioState, camera: Resolution, samples: seq<Sample>,
                                                  connection: seq<Segment<char>>)
    ensures AllSpawnOnPress(Passes(gpio, camera, samples, connection), samples)
    decreases |samples|
  {
    if samples != [] {
      var step := FieldTurn(gpio, camera, samples[0], connection);
      PassesHead(gpio, camera, samples, connection);
      TurnSpawnsOnPress(gpio, camera, samples[0], connection);
      EveryPassSpawnsOnPress(step.gpio, step.camera, samples[1..], step.rest);
      SpawnOnPressCons(step, Passes(step.gpio, step.camera, samples[1..], step.rest), samples);
    }
  }

  /** Once the connection is closed, every later WaitUserEntry meets the close again. */
  lemma {:induction false} ClosedStaysClosed(connection: seq<Segment<char>>, n: nat)
    requires Stream(connection) == []
    ensures Stream(Later(connection, n)) == [] && EntryAt(connection, n) == ""
    decreases n
  {
    if n > 0 {
      ClosedStaysClosed(connection, n - 1);
    }
    ClosedYieldsEmpty(Later(connection, n));
  }

  /** On a closed connection a pass reads only empty entries and goes on. */
  lemma ClosedPass(gpio: GpioState, camera: Resolution, sample: Sample, connection: seq<Segment<char>>)
    requires Stream(connection) == []
    ensures FieldTurn(gpio, camera, sample, connection).outcome == Next
    ensures Stream(FieldTurn(gpio, camera, sample, connection).rest) == []
  {
    if CurrentLight(gpio, sample) > 1000.0 {
      NoLightTurn(gpio, camera, sample, connection);
      ClosedStaysClosed(connection, 1);
    } else {
      ReadyTurn(gpio, camera, sample, connection);
      ClosedStaysClosed(connection, 3);
      ClosedStaysClosed(connection, 4);
    }
  }

  predicate AllNext(steps: seq<FieldStep>)
  {
    forall i :: 0 <= i < |steps| ==> steps[i].outcome == Next
  }

  lemma AllNextCons(step: FieldStep, later: seq<FieldStep>)
    requires step.outcome == Next && AllNext(later)
    ensures AllNext([step] + later)
  {
    forall i | 1 <= i < |later| + 1
      ensures ([step] + later)[i].outcome == Next
    {
      assert ([step] + later)[i] == later[i - 1];
    }
  }

  /** On a closed connection every pass goes on. */
  lemma {:induction false} ClosedPassesGoOn(gpio: GpioState, camera: Resolution, samples: seq<Sample>,
                                            connection: seq<Segment<char>>)
    requires Stream(connection) == []
    ensures AllNext(Passes(gpio, camera, samples, connection))
    decreases |samples|
  {
    if samples != [] {
      var step := FieldTurn(gpio, camera, samples[0], connection);
      PassesHead(gpio, camera, samples, connection);
      ClosedPass(gpio, camera, samples[0], connection);
      ClosedPassesGoOn(step.gpio, step.camera, samples[1..], step.rest);
      AllNextCons(step, Passes(step.gpio, step.camera, samples[1..], step.rest));
    }
  }

  /**
   * A closed primary connection never ends the loop: every entry is empty,
   * which is neither "q" nor "r", so every pass goes on.
   */
  lemma ClosedConnectionRunsOn(gpio: GpioState, camera: Resolution, samples: seq<Sample>,
                               connection: seq<Segment<char>>)
    requires Stream(connection) == []
    ensures forall n: nat :: EntryAt(connection, n) == ""
    ensures forall i :: 0 <= i < |samples| ==> Passes(gpio, camera, samples, connection)[i].outcome == Next
    ensures FieldLoop(gpio, camera, samples, connection).ending == Running
  {
    forall n: nat
      ensures EntryAt(connection, n) == ""
    {
      ClosedStaysClosed(connection, n);
    }
    ClosedPassesGoOn(gpio, camera, samples, connection);
    FieldEndsAtFirstStop(gpio, camera, samples, connection);
  }

  /** Every NO_LIGHT pass before the end contributes exactly its "N" token to the transcript. */
  lemma DarkPassesSendOnlyState(gpio: GpioState, camera: Resolution, samples: seq<Sample>, connection: seq<Segment<char>>)
    requires samples != [] && CurrentLight(gpio, samples[0]) > 1000.0
    ensures var step := FieldTurn(gpio, camera, samples[0], connection);
      FieldLoop(gpio, camera, samples, connection) ==
        var more := FieldLoop(step.gpio, camera, samples[1..], Later(connection, 1));
        FieldRun([Token(NoLight)] + more.sent, more.children, more.ending)
  {
    NoLightTurn(gpio, camera, samples[0], connection);
  }

  function Join(sent: seq<Outgoing>, children: seq<ChildResult>, run: FieldRun): FieldRun
  {
    FieldRun(sent + run.sent, children + run.children, run.ending)
  }

  /** How one pass moves the loop's invariant forward. */
  lemma Advance(whole: FieldRun, step: FieldStep, samples: seq<Sample>, i: nat,
                sent: seq<Outgoing>, children: seq<ChildResult>,
                gpio: GpioState, camera: Resolution, connection: seq<Segment<char>>)
    requires i < |samples|
    requires whole == Join(sent, children, FieldLoop(gpio, camera, samples[i..], connection))
    requires step == FieldTurn(gpio, camera, samples[i], connection)
    ensures step.outcome == Next ==>
      whole == Join(sent + step.sent, children + Spawned(step), FieldLoop(step.gpio, step.camera, samples[i + 1..], step.rest))
    ensures step.outcome == Quit ==> whole == FieldRun(sent + step.sent, children + Spawned(step), QuitReceived)
    ensures step.outcome.Crashed? ==> whole == FieldRun(sent + step.sent, children + Spawned(step), Terminated(step.outcome.error))
  {
    assert samples[i..][0] == samples[i];
    assert samples[i..][1..] == samples[i + 1..];
    if step.outcome == Next {
      var more := FieldLoop(step.gpio, step.camera, samples[i + 1..], step.rest);
      AppendAssociates(sent, step.sent, more.sent);
      AppendAssociates(children, Spawned(step), more.children);
    }
  }

  /**
   * main, over a finite supply of passes: the objects it creates, Start on
   * 4099, and the loop.  `run` is what the program sends and spawns; the
   * loop of the source never ends on its own, so the run is cut where
   * the passes run out.
   */
  method FieldUnit(start: StartResults, samples: seq<Sample>, connection: seq<Segment<char>>) returns (run: FieldRun)
    requires AllSendable(samples)
    ensures run == FieldProgram(start, samples, connection)
  {
    var server := new TcpService();
    var cameraService := new Camera();
    var gpios := new GpioService();
    var serverState := Ready;
    var started := server.Start(PrimaryPort, start);
    if started != Started {
      return FieldRun([], [], if started == Exited then StartExit else NotStarted);
    }
    ghost var whole := FieldProgram(start, samples, connection);
    var sent: seq<Outgoing> := [];
    var children: seq<ChildResult> := [];
    var rest := connection;
    var i := 0;
    assert samples[0..] == samples;
    while i < |samples|
      invariant 0 <= i <= |samples|
      invariant server.Valid() && |server.clientId| == 1
      invariant whole == Join(sent, children, FieldLoop(gpios.State(), Resolution(cameraService.width, cameraService.height), samples[i..], rest))
      decreases |samples| - i
    {
      ghost var gpio, camera := gpios.State(), Resolution(cameraService.width, cameraService.height);
      ghost var step := FieldTurn(gpio, camera, samples[i], rest);
      Advance(whole, step, samples, i, sent, children, gpio, camera, rest);
      var stepSent, child, outcome, next;
      stepSent, child, outcome, next, serverState := FieldOnce(gpios, cameraService, server, serverState, samples[i], rest);
      assert FieldStep(gpios.State(), Resolution(cameraService.width, cameraService.height), stepSent, child, outcome, next) == step;
      sent := sent + stepSent;
      children := children + if child.Some? then [child.value] else [];
      rest := next;
      match outcome {
        case Quit =>
          return FieldRun(sent, children, QuitReceived);
        case Crashed(e) =>
          return FieldRun(sent, children, Terminated(e));
        case Next =>
      }
      i := i + 1;
    }
    assert samples[i..] == [];
    run := FieldRun(sent, children, Running);
  }
}
