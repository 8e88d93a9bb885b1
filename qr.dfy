/**
 * The station's choice of the message to play (poste QrManager.cpp): the
 * data of the last located QR code, reduced to lower-case letters, digits
 * and spaces.  Scanning with zbar is not modelled; its output is the input.
 */
module Qr {
  datatype Point = Point(x: int, y: int)

  /** One symbol found by the scanner: its type name, its payload and its corners. */
  datatype DecodedObject = DecodedObject(kind: string, data: string, location: seq<Point>)

  predicate Located(obj: DecodedObject) { obj.location != [] }

  /** The value `result` holds after the selection loop: the data of the last located object, or "". */
  function SelectedData(objects: seq<DecodedObject>): string
    decreases |objects|
  {
    if objects == [] then ""
    else if Located(objects[|objects| - 1]) then objects[|objects| - 1].data
    else SelectedData(objects[..|objects| - 1])
  }

  /** With no located object the selection is empty. */
  lemma {:induction false} NothingLocatedSelectsEmpty(objects: seq<DecodedObject>)
    requires forall k :: 0 <= k < |objects| ==> !Located(objects[k])
    ensures SelectedData(objects) == ""
    decreases |objects|
  {
    if objects != [] {
      NothingLocatedSelectsEmpty(objects[..|objects| - 1]);
    }
  }

  /** The last located object wins, whatever comes before it and whatever unlocated objects follow it. */
  lemma {:induction false} LastLocatedWins(objects: seq<DecodedObject>, i: nat)
    requires i < |objects| && Located(objects[i])
    requires forall j :: i < j < |objects| ==> !Located(objects[j])
    ensures SelectedData(objects) == objects[i].data
    decreases |objects|
  {
    if i < |objects| - 1 {
      LastLocatedWins(objects[..|objects| - 1], i);
    }
  }

  /** The characters `isalnum` accepts in the C locale. */
  predicate IsAlnum(c: char)
  {
    'a' <= c <= 'z' || 'A' <= c <= 'Z' || '0' <= c <= '9'
  }

  /** `tolower` in the C locale. */
  function ToLower(c: char): char
  {
    if 'A' <= c <= 'Z' then (c as int + 32) as char else c
  }

  predicate Kept(c: char) { IsAlnum(c) || c == ' ' }

  /** What the sanitizer may return: lower-case letters, digits and spaces. */
  predicate IsClean(c: char) { 'a' <= c <= 'z' || '0' <= c <= '9' || c == ' ' }

  predicate IsAscii(s: string)
  {
    forall k :: 0 <= k < |s| ==> s[k] < 128 as char
  }

  /** The string the sanitizing loop builds from the first |s| characters. */
  function Sanitized(s: string): string
    decreases |s|
  {
    if s == [] then ""
    else
      var c := s[|s| - 1];
      Sanitized(s[..|s| - 1]) + (if Kept(c) then [ToLower(c)] else [])
  }

  /** Only lower-case letters, digits and spaces come out. */
  lemma {:induction false} SanitizedIsClean(s: string)
    ensures forall k :: 0 <= k < |Sanitized(s)| ==> IsClean(Sanitized(s)[k])
    decreases |s|
  {
    if s != [] {
      SanitizedIsClean(s[..|s| - 1]);
    }
  }

  /** Sanitizing works character by character, so it distributes over concatenation. */
  lemma {:induction false} SanitizedAppend(a: string, b: string)
    ensures Sanitized(a + b) == Sanitized(a) + Sanitized(b)
    decreases |b|
  {
    if b == [] {
      assert a + b == a;
    } else {
      var c := b[|b| - 1];
      assert (a + b)[..|a + b| - 1] == a + b[..|b| - 1];
      assert (a + b)[|a + b| - 1] == c;
      SanitizedAppend(a, b[..|b| - 1]);
      var tail := if Kept(c) then [ToLower(c)] else [];
      assert Sanitized(a + b) == Sanitized(a + b[..|b| - 1]) + tail;
      assert Sanitized(b) == Sanitized(b[..|b| - 1]) + tail;
    }
  }

  /** The output is never longer, and it is as long as the input exactly when every character is kept. */
  lemma {:induction false} SanitizedLength(s: string)
    ensures |Sanitized(s)| <= |s|
    ensures |Sanitized(s)| == |s| <==> forall k :: 0 <= k < |s| ==> Kept(s[k])
    decreases |s|
  {
    if s != [] {
      var p := s[..|s| - 1];
      SanitizedLength(p);
      if forall k :: 0 <= k < |s| ==> Kept(s[k]) {
        assert forall k :: 0 <= k < |p| ==> Kept(p[k]) by {
          forall k | 0 <= k < |p| ensures Kept(p[k]) { assert p[k] == s[k]; }
        }
      }
      if forall k :: 0 <= k < |p| ==> Kept(p[k]) {
        if Kept(s[|s| - 1]) {
          forall k | 0 <= k < |s| ensures Kept(s[k]) {
            if k < |p| { assert s[k] == p[k]; }
          }
        }
      }
    }
  }

  /** A kept character comes out lower-cased, in its place: the sanitizer only drops and lower-cases. */
  lemma {:induction false} SanitizedKeptString(s: string)
    requires forall k :: 0 <= k < |s| ==> Kept(s[k])
    ensures |Sanitized(s)| == |s|
    ensures forall k :: 0 <= k < |s| ==> Sanitized(s)[k] == ToLower(s[k])
    decreases |s|
  {
    if s != [] {
      var p := s[..|s| - 1];
      SanitizedKeptString(p);
    }
  }

  /** A string that is already clean is left as it is. */
  lemma {:induction false} SanitizedOfClean(s: string)
    requires forall k :: 0 <= k < |s| ==> IsClean(s[k])
    ensures Sanitized(s) == s
    decreases |s|
  {
    if s != [] {
      var p := s[..|s| - 1];
      SanitizedOfClean(p);
      assert s == p + [s[|s| - 1]];
    }
  }

  /** Sanitizing twice is sanitizing once. */
  lemma SanitizeIdempotent(s: string)
    ensures Sanitized(Sanitized(s)) == Sanitized(s)
  {
    SanitizedIsClean(s);
    SanitizedOfClean(Sanitized(s));
  }

  /** `sanitizeSentence`: appends each kept character, lower-cased, to the result. */
  method SanitizeSentence(sentence: string) returns (result: string)
    requires IsAscii(sentence)
    ensures result == Sanitized(sentence)
  {
    result := "";
    for i := 0 to |sentence|
      invariant result == Sanitized(sentence[..i])
    {
      var c := sentence[i];
      assert sentence[..i + 1][..i] == sentence[..i];
      if IsAlnum(c) || c == ' ' {
        result := result + [ToLower(c)];
      }
    }
    assert sentence[..|sentence|] == sentence;
  }

  /** `getMessage`: the sanitized data of the last located object; the objects are only read. */
  method GetMessage(decodedObjects: seq<DecodedObject>) returns (message: string)
    requires IsAscii(SelectedData(decodedObjects))
    ensures message == Sanitized(SelectedData(decodedObjects))
  {
    var result := "";
    for i := 0 to |decodedObjects|
      invariant result == SelectedData(decodedObjects[..i])
    {
      assert decodedObjects[..i + 1][..i] == decodedObjects[..i];
      if decodedObjects[i].location == [] {
        continue;
      }
      result := decodedObjects[i].data;
    }
    assert decodedObjects[..|decodedObjects|] == decodedObjects;
    message := SanitizeSentence(result);
  }
}
