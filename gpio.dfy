/**
 * The field unit's sensors (odroid GpioService.cpp): the push button on
 * GPIO 228, read through a press-edge detector, and the light sensor on the
 * ADC.  Each read of a sysfs file is supplied as an input: `Some(v)` when
 * `>>` parsed a value, `None` when it failed.
 */
module Gpio {
  import opened Wrappers

  /**
   * What the service remembers: `_buttonValue`, the function-static
   * `lastButtonState` of readButtonValue, and `_luminosity`.
   */
  datatype GpioState = GpioState(buttonValue: int, lastButtonState: int, luminosity: real)

  /** `_buttonValue{0}`, `lastButtonState = 1` (released), `_luminosity{0.0}`. */
  const InitialState: GpioState := GpioState(0, 1, 0.0)

  /** readButtonValue: reports a press when the pin goes from 1 to 0 (it is active low). */
  function ButtonRead(s: GpioState, reading: Option<int>): GpioState
  {
    match reading
    case None => s
    case Some(current) =>
      s.(buttonValue := if s.lastButtonState == 1 && current == 0 then 1 else 0,
         lastButtonState := current)
  }

  /** readLuminosityValue: keeps the previous value when the ADC file cannot be parsed. */
  function LuminosityRead(s: GpioState, reading: Option<real>): GpioState
  {
    match reading
    case None => s
    case Some(value) => s.(luminosity := value)
  }

  /** The state after a run of getButtonValue calls. */
  function AfterButtonReads(s: GpioState, readings: seq<Option<int>>): GpioState
    decreases |readings|
  {
    if readings == [] then s else ButtonRead(AfterButtonReads(s, readings[..|readings| - 1]), readings[|readings| - 1])
  }

  /** The values a run of getButtonValue calls returns. */
  function ButtonValues(s: GpioState, readings: seq<Option<int>>): (values: seq<int>)
    ensures |values| == |readings|
    decreases |readings|
  {
    if readings == [] then []
    else ButtonValues(s, readings[..|readings| - 1]) + [AfterButtonReads(s, readings).buttonValue]
  }

  /** The level of the most recent successful read, or the stored one if there was none. */
  function LastLevel(s: GpioState, readings: seq<Option<int>>): int
    decreases |readings|
  {
    if readings == [] then s.lastButtonState
    else if readings[|readings| - 1].Some? then readings[|readings| - 1].value
    else LastLevel(s, readings[..|readings| - 1])
  }

  /** The remembered previous level is always the level of the latest successful read. */
  lemma {:induction false} LastButtonStateIsLastLevel(s: GpioState, readings: seq<Option<int>>)
    ensures AfterButtonReads(s, readings).lastButtonState == LastLevel(s, readings)
    decreases |readings|
  {
    if readings != [] {
      LastButtonStateIsLastLevel(s, readings[..|readings| - 1]);
    }
  }

  /**
   * The i-th call reports 1 exactly when its read succeeded with 0 and the
   * latest successful read before it (or the initial level) was 1; a failed
   * read repeats the previous report.
   */
  lemma ButtonValueAt(s: GpioState, readings: seq<Option<int>>, i: nat)
    requires i < |readings|
    ensures readings[i].Some? ==>
      (ButtonValues(s, readings)[i] == 1 <==> LastLevel(s, readings[..i]) == 1 && readings[i].value == 0)
    ensures readings[i].Some? ==> ButtonValues(s, readings)[i] in {0, 1}
    ensures readings[i].None? ==>
      ButtonValues(s, readings)[i] == (if i == 0 then s.buttonValue else ButtonValues(s, readings)[i - 1])
  {
    ValuesPrefix(s, readings, i + 1);
    ValuesPrefix(s, readings, i);
    assert readings[..i + 1][..i] == readings[..i];
    LastButtonStateIsLastLevel(s, readings[..i]);
    if i > 0 {
      ValuesPrefix(s, readings[..i], i);
    }
  }

  /** The values of a prefix of the reads are a prefix of the values. */
  lemma {:induction false} ValuesPrefix(s: GpioState, readings: seq<Option<int>>, n: nat)
    requires n <= |readings|
    ensures ButtonValues(s, readings[..n]) == ButtonValues(s, readings)[..n]
    ensures n > 0 ==> ButtonValues(s, readings)[n - 1] == AfterButtonReads(s, readings[..n]).buttonValue
    decreases |readings|
  {
    if n < |readings| {
      var init := readings[..|readings| - 1];
      assert init[..n] == readings[..n];
      ValuesPrefix(s, init, n);
    } else {
      assert readings[..n] == readings;
    }
  }

  /** Holding the button down reports the press once: a 0 read right after a 0 read reports 0. */
  lemma SustainedPressReportsOnce(s: GpioState, readings: seq<Option<int>>, i: nat)
    requires 0 < i < |readings|
    requires readings[i - 1] == Some(0) && readings[i] == Some(0)
    ensures ButtonValues(s, readings)[i] == 0
  {
    ButtonValueAt(s, readings, i);
    assert readings[..i][i - 1] == readings[i - 1];
  }

  /** Releasing and pressing again reports a new press: a 0 read right after a 1 read reports 1. */
  lemma NewPressReported(s: GpioState, readings: seq<Option<int>>, i: nat)
    requires 0 < i < |readings|
    requires readings[i - 1] == Some(1) && readings[i] == Some(0)
    ensures ButtonValues(s, readings)[i] == 1
  {
    ButtonValueAt(s, readings, i);
    assert readings[..i][i - 1] == readings[i - 1];
  }

  /** The button starts released, so a first read of 0 after start-up reports a press. */
  lemma FirstPressReported(readings: seq<Option<int>>)
    requires |readings| > 0 && readings[0] == Some(0)
    ensures ButtonValues(InitialState, readings)[0] == 1
  {
    ButtonValueAt(InitialState, readings, 0);
  }

  /** The sensor service; its three fields are the state above. */
  class GpioService {
    var buttonValue: int
    var lastButtonState: int
    var luminosity: real

    function State(): GpioState
      reads this
    {
      GpioState(buttonValue, lastButtonState, luminosity)
    }

    /** The pin export and direction writes of the constructor are not modelled. */
    constructor ()
      ensures State() == InitialState
    {
      buttonValue, lastButtonState, luminosity := 0, 1, 0.0;
    }

    method ReadButtonValue(reading: Option<int>)
      modifies this
      ensures State() == ButtonRead(old(State()), reading)
    {
      match reading {
        case None =>
        case Some(currentButtonState) =>
          if lastButtonState == 1 && currentButtonState == 0 {
            buttonValue := 1;
          } else {
            buttonValue := 0;
          }
          lastButtonState := currentButtonState;
      }
    }

    /** getButtonValue: reads the pin, then returns `_buttonValue`. */
    method GetButtonValue(reading: Option<int>) returns (value: int)
      modifies this
      ensures State() == ButtonRead(old(State()), reading)
      ensures value == buttonValue
      ensures reading.None? ==> value == old(buttonValue)
    {
      ReadButtonValue(reading);
      value := buttonValue;
    }

    method ReadLuminosityValue(reading: Option<real>)
      modifies this
      ensures State() == LuminosityRead(old(State()), reading)
    {
      if reading.Some? {
        luminosity := reading.value;
      }
    }

    /** getLuminosity: the value just read, or the previous one when the read failed. */
    method GetLuminosity(reading: Option<real>) returns (value: real)
      modifies this
      ensures State() == LuminosityRead(old(State()), reading)
      ensures value == (if reading.Some? then reading.value else old(luminosity))
    {
      ReadLuminosityValue(reading);
      value := luminosity;
    }
  }
}
