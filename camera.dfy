/**
 * The field unit's camera settings (odroid Camera.cpp): the resolution set
 * by the constructor and the "WxH" parser of UpdateResolution.  The
 * OpenCV capture object is reduced to the two properties set on it.
 */
module Camera {
  import opened Wrappers
  import opened Decimal

  datatype Resolution = Resolution(width: int, height: int)

  /** The resolution the constructor sets on the capture. */
  const InitialResolution: Resolution := Resolution(176, 144)

  /**
   * Why UpdateResolution does not apply a string: no 'x' at all (logged and
   * ignored), or a side that std::stoi rejects (an exception that leaves
   * UpdateResolution).
   */
  datatype ResolutionError = NoSeparator | BadNumber(error: StoiError)

  /** `std::string::find`: the position of the first occurrence of c. */
  function Find(s: string, c: char): (r: Option<nat>)
    ensures r.Some? ==> r.value < |s| && s[r.value] == c && forall k :: 0 <= k < r.value ==> s[k] != c
    ensures r.None? ==> forall k :: 0 <= k < |s| ==> s[k] != c
  {
    if s == [] then None
    else if s[0] == c then Some(0)
    else match Find(s[1..], c)
      case None => None
      case Some(k) => Some(k + 1)
  }

  /** The parse UpdateResolution performs: split at the first 'x', stoi on each side. */
  function ParseResolution(resolution: string): Result<Resolution, ResolutionError>
  {
    match Find(resolution, 'x')
    case None => Failure(NoSeparator)
    case Some(pos) =>
      match Stoi(resolution[..pos])
      case Failure(e) => Failure(BadNumber(e))
      case Success(width) =>
        match Stoi(resolution[pos + 1..])
        case Failure(e) => Failure(BadNumber(e))
        case Success(height) => Success(Resolution(width, height))
  }

  /** A string without 'x' is rejected as badly formatted, and only such a string is. */
  lemma NoSeparatorIffNoX(resolution: string)
    ensures ParseResolution(resolution) == Failure(NoSeparator) <==>
      forall k :: 0 <= k < |resolution| ==> resolution[k] != 'x'
  {
  }

  /** "WxH" as the station writes it. */
  function Format(r: Resolution): string
    requires r.width >= 0 && r.height >= 0
  {
    ToString(r.width) + "x" + ToString(r.height)
  }

  lemma {:induction false} FindInDigits(s: string, rest: string)
    requires AllDigits(s)
    ensures Find(s + "x" + rest, 'x') == Some(|s|)
    decreases |s|
  {
    if s == [] {
      assert (s + "x" + rest)[0] == 'x';
    } else {
      assert (s + "x" + rest)[1..] == s[1..] + "x" + rest;
      FindInDigits(s[1..], rest);
    }
  }

  /** After a run of digits, the first 'x' splits the string into those digits and what follows. */
  lemma SplitAfterDigits(a: string, tail: string)
    requires AllDigits(a)
    ensures var s := a + "x" + tail;
      Find(s, 'x') == Some(|a|) && s[..|a|] == a && s[|a| + 1..] == tail
  {
    FindInDigits(a, tail);
    var s := a + "x" + tail;
    assert s[..|a|] == a;
    assert s[|a| + 1..] == tail;
  }

  /** Parsing what Format writes gives back the resolution, for every pair of `int` sizes. */
  lemma ParseFormat(r: Resolution)
    requires 0 <= r.width <= IntMax && 0 <= r.height <= IntMax
    ensures ParseResolution(Format(r)) == Success(r)
  {
    var w, h := ToString(r.width), ToString(r.height);
    ToStringDigits(r.width);
    SplitAfterDigits(w, h);
    StoiOfToString(r.width);
    StoiOfToString(r.height);
  }

  /**
   * Only the first 'x' splits: "WxHx..." sets W by H, since stoi stops at
   * the second 'x' (so "800x600x5" sets 800 by 600).
   */
  lemma SplitsAtFirstX(w: nat, h: nat, rest: string)
    requires w <= IntMax && h <= IntMax
    ensures ParseResolution(ToString(w) + "x" + ToString(h) + "x" + rest) == Success(Resolution(w, h))
  {
    var a, b := ToString(w), ToString(h);
    var tail := b + ("x" + rest);
    assert ToString(w) + "x" + ToString(h) + "x" + rest == a + "x" + tail;
    ToStringDigits(w);
    SplitAfterDigits(a, tail);
    assert Stoi(a) == Success(w) by {
      StoiOfToString(w);
    }
    assert Stoi(tail) == Success(h) by {
      ToStringDigits(h);
      StoiOfDigitsThen(b, "x" + rest);
    }
  }

  /** A width with no digits makes stoi throw: "x600" is an error, not an update. */
  lemma MissingWidthThrows(rest: string)
    ensures ParseResolution("x" + rest) == Failure(BadNumber(InvalidArgument))
  {
    var s := "x" + rest;
    assert s[0] == 'x';
    assert Find(s, 'x') == Some(0);
    assert s[..0] == [];
  }

  /** A height with no digits makes stoi throw: "800x" is an error, not an update. */
  lemma MissingHeightThrows(w: nat)
    requires w <= IntMax
    ensures ParseResolution(ToString(w) + "x") == Failure(BadNumber(InvalidArgument))
  {
    var d := ToString(w);
    assert d + "x" == d + "x" + "";
    ToStringDigits(w);
    SplitAfterDigits(d, "");
    assert Stoi(d) == Success(w) by {
      StoiOfToString(w);
    }
  }

  /** What UpdateResolution did with its argument. */
  datatype UpdateOutcome = Applied | FormatRejected | Threw(error: StoiError)

  /** The capture's frame width and height, as set through `_capture.set`. */
  class Camera {
    var width: int
    var height: int

    /** Opening the device and its failure are not modelled. */
    constructor ()
      ensures width == InitialResolution.width && height == InitialResolution.height
    {
      width := 176;
      height := 144;
    }

    /**
     * Applies "WxH".  Without an 'x' nothing changes; a side stoi rejects
     * throws before anything is set; otherwise both sizes are set.
     */
    method UpdateResolution(resolution: string) returns (outcome: UpdateOutcome)
      modifies this
      ensures match ParseResolution(resolution)
        case Success(r) => outcome == Applied && width == r.width && height == r.height
        case Failure(NoSeparator) => outcome == FormatRejected && width == old(width) && height == old(height)
        case Failure(BadNumber(e)) => outcome == Threw(e) && width == old(width) && height == old(height)
    {
      var pos := Find(resolution, 'x');
      if pos.Some? {
        var w := Stoi(resolution[..pos.value]);
        if w.Failure? {
          assert ParseResolution(resolution) == Failure(BadNumber(w.error));
          return Threw(w.error);
        }
        var h := Stoi(resolution[pos.value + 1..]);
        if h.Failure? {
          assert ParseResolution(resolution) == Failure(BadNumber(h.error));
          return Threw(h.error);
        }
        assert ParseResolution(resolution) == Success(Resolution(w.value, h.value));
        width := w.value;
        height := h.value;
        outcome := Applied;
      } else {
        assert ParseResolution(resolution) == Failure(NoSeparator);
        outcome := FormatRejected;
      }
    }
  }
}
