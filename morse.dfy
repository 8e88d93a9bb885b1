/**
 * The field unit's Morse encoder (odroid main.cpp, lines 17-93): the
 * character table, strToMorse and playMorseCode.  The writes to the
 * `enable0` pin file and the calls to usleep/sleep are recorded as a trace
 * of events instead of being performed.
 */
module Morse {
  import opened Wrappers

  /** One dit, in microseconds. */
  const DitLength: nat := 60 * 1000
  /** The PWM frequency written to `freq0` before playback. */
  const Frequency: nat := 660
  /** The end-of-transmission pulse: `sleep(1)`, in microseconds. */
  const EndPulse: nat := 1000000

  /** The fixed character-to-code table. */
  const MorseTable: map<char, string> := map[
    'a' := ".-",    'b' := "-...",  'c' := "-.-.",  'd' := "-..",
    'e' := ".",     'f' := "..-.",  'g' := "--.",   'h' := "....",
    'i' := "..",    'j' := ".---",  'k' := "-.-",   'l' := ".-..",
    'm' := "--",    'n' := "-.",    'o' := "---",   'p' := ".--.",
    'q' := "--.-",  'r' := ".-.",   's' := "...",   't' := "-",
    'u' := "..-",   'v' := "...-",  'w' := ".--",   'x' := "-..-",
    'y' := "-.--",  'z' := "--..",
    '0' := "-----", '1' := ".----", '2' := "..---", '3' := "...--",
    '4' := "....-", '5' := ".....", '6' := "-....", '7' := "--...",
    '8' := "---..", '9' := "----."
  ]

  predicate IsLowerLetter(c: char) { 'a' <= c <= 'z' }
  predicate IsDigit(c: char) { '0' <= c <= '9' }

  /** A code made only of dots and dashes, one to five symbols long. */
  predicate WellFormedCode(code: string)
  {
    1 <= |code| <= 5 && forall k :: 0 <= k < |code| ==> code[k] == '.' || code[k] == '-'
  }

  /** The table maps exactly the 26 lower-case letters and the 10 digits, each to a well-formed code. */
  lemma TableDomain(c: char)
    ensures c in MorseTable <==> IsLowerLetter(c) || IsDigit(c)
  {
  }

  lemma TableCodes(c: char)
    requires c in MorseTable
    ensures WellFormedCode(MorseTable[c])
  {
  }

  /** What strToMorse appends for one character: "" for a space, the table code for a mapped character, nothing otherwise. */
  function CodesOf(c: char): seq<string>
  {
    if c == ' ' then [""] else if c in MorseTable then [MorseTable[c]] else []
  }

  /** The codes strToMorse appends for a whole sentence, in input order. */
  function Codes(sentence: string): seq<string>
    decreases |sentence|
  {
    if sentence == [] then [] else Codes(sentence[..|sentence| - 1]) + CodesOf(sentence[|sentence| - 1])
  }

  /**
   * strToMorse: pushes the codes of `sentence` onto the caller's vector.
   * The vector is passed in as `morseResult` and its new value returned.
   */
  method StrToMorse(sentence: string, morseResult: seq<string>) returns (result: seq<string>)
    ensures result == morseResult + Codes(sentence)
  {
    result := morseResult;
    for i := 0 to |sentence|
      invariant result == morseResult + Codes(sentence[..i])
    {
      var c := sentence[i];
      if c == ' ' {
        result := result + [""];
      } else {
        if c in MorseTable {
          result := result + [MorseTable[c]];
        }
      }
      assert sentence[..i + 1][..i] == sentence[..i];
    }
    assert sentence[..|sentence|] == sentence;
  }

  /** Translation respects concatenation: the codes of a + b are those of a followed by those of b. */
  lemma {:induction false} CodesAppend(a: string, b: string)
    ensures Codes(a + b) == Codes(a) + Codes(b)
    decreases |b|
  {
    if b == [] {
      assert a + b == a;
    } else {
      var b' := b[..|b| - 1];
      assert (a + b)[..|a + b| - 1] == a + b';
      CodesAppend(a, b');
    }
  }

  /**
   * Every code produced is either "" (for a space) or the table code of a
   * letter or digit, and there is never more than one code per input character.
   */
  lemma {:induction false} CodesShape(sentence: string)
    ensures |Codes(sentence)| <= |sentence|
    ensures forall k :: 0 <= k < |Codes(sentence)| ==>
      Codes(sentence)[k] == "" || WellFormedCode(Codes(sentence)[k])
    decreases |sentence|
  {
    if sentence != [] {
      var c := sentence[|sentence| - 1];
      CodesShape(sentence[..|sentence| - 1]);
      if c != ' ' && c in MorseTable {
        TableCodes(c);
      }
    }
  }

  /** One code per character, in order. */
  predicate OneCodeEach(s: string, codes: seq<string>)
  {
    |codes| == |s| && forall k :: 0 <= k < |s| ==> [codes[k]] == CodesOf(s[k])
  }

  lemma OneCodeStep(init: string, c: char)
    requires OneCodeEach(init, Codes(init)) && |CodesOf(c)| == 1
    ensures OneCodeEach(init + [c], Codes(init + [c]))
  {
    var s := init + [c];
    CodesSnoc(init, c);
    var codes := Codes(s);
    forall k | 0 <= k < |s|
      ensures [codes[k]] == CodesOf(s[k])
    {
      if k < |init| {
        assert s[k] == init[k] && codes[k] == Codes(init)[k];
      } else {
        assert k == |Codes(init)|;
      }
    }
  }

  /** When every character has exactly one code, the k-th code is the code of the k-th character. */
  lemma {:induction false} OneCodePerChar(s: string)
    requires forall k :: 0 <= k < |s| ==> |CodesOf(s[k])| == 1
    ensures OneCodeEach(s, Codes(s))
    decreases |s|
  {
    if s != [] {
      var n := |s| - 1;
      var init := s[..n];
      assert forall k :: 0 <= k < n ==> init[k] == s[k];
      OneCodePerChar(init);
      OneCodeStep(init, s[n]);
      assert s == init + [s[n]];
    }
  }

  /** Without spaces or unmapped characters, every character yields exactly one code. */
  lemma CodesOfMappedText(sentence: string)
    requires forall k :: 0 <= k < |sentence| ==> IsLowerLetter(sentence[k]) || IsDigit(sentence[k])
    ensures |Codes(sentence)| == |sentence|
    ensures forall k :: 0 <= k < |sentence| ==>
      sentence[k] in MorseTable && Codes(sentence)[k] == MorseTable[sentence[k]]
  {
    forall k | 0 <= k < |sentence|
      ensures sentence[k] in MorseTable && |CodesOf(sentence[k])| == 1
    {
      TableDomain(sentence[k]);
    }
    OneCodePerChar(sentence);
    forall k | 0 <= k < |sentence|
      ensures sentence[k] in MorseTable && Codes(sentence)[k] == MorseTable[sentence[k]]
    {
      assert [Codes(sentence)[k]] == CodesOf(sentence[k]);
    }
  }

  /** One event of playback: a write of a level to `enable0`, or a sleep of some microseconds. */
  datatype Event = Write(level: int) | Sleep(micros: nat)

  /** The events of one symbol of a code, including the 2-dit gap that follows every symbol. */
  function SymbolTrace(c: char): seq<Event>
  {
    match c
    case '.' => [Write(1), Sleep(DitLength), Write(0), Sleep(2 * DitLength)]
    case '-' => [Write(1), Sleep(3 * DitLength), Write(0), Sleep(2 * DitLength)]
    case _ => [Sleep(6 * DitLength), Sleep(2 * DitLength)]
  }

  /** The events of one code, symbol after symbol; the empty code (a space) has none. */
  function CodeTrace(code: string): seq<Event>
    decreases |code|
  {
    if code == [] then [] else CodeTrace(code[..|code| - 1]) + SymbolTrace(code[|code| - 1])
  }

  /** The events of a list of codes, code after code. */
  function CodesTrace(codes: seq<string>): seq<Event>
    decreases |codes|
  {
    if codes == [] then [] else CodesTrace(codes[..|codes| - 1]) + CodeTrace(codes[|codes| - 1])
  }

  /** The final HIGH for one second, then LOW. */
  const EndTrace: seq<Event> := [Write(1), Sleep(EndPulse), Write(0)]

  /** Everything playMorseCode does to the pin for a list of codes. */
  function PlaybackTrace(codes: seq<string>): seq<Event>
  {
    CodesTrace(codes) + EndTrace
  }

  /** The inner loop of playMorseCode: the events of one code, symbol by symbol. */
  method PlayCode(code: string) returns (events: seq<Event>)
    ensures events == CodeTrace(code)
  {
    events := [];
    for j := 0 to |code|
      invariant events == CodeTrace(code[..j])
    {
      ghost var mid := events;
      match code[j] {
        case '.' =>
          events := events + [Write(1), Sleep(DitLength), Write(0)];
        case '-' =>
          events := events + [Write(1), Sleep(3 * DitLength), Write(0)];
        case _ =>
          events := events + [Sleep(6 * DitLength)];
      }
      events := events + [Sleep(2 * DitLength)];
      assert events == mid + SymbolTrace(code[j]);
      assert code[..j + 1] == code[..j] + [code[j]];
      CodeTraceSnoc(code[..j], code[j]);
    }
    assert code[..|code|] == code;
  }

  /** playMorseCode, with the writes and sleeps recorded in `trace`. */
  method PlayMorseCode(morseStr: seq<string>) returns (trace: seq<Event>)
    ensures trace == PlaybackTrace(morseStr)
  {
    trace := [];
    for i := 0 to |morseStr|
      invariant trace == CodesTrace(morseStr[..i])
    {
      var events := PlayCode(morseStr[i]);
      trace := trace + events;
      assert morseStr[..i + 1] == morseStr[..i] + [morseStr[i]];
      CodesTraceSnoc(morseStr[..i], morseStr[i]);
    }
    assert morseStr[..|morseStr|] == morseStr;
    trace := trace + [Write(1), Sleep(EndPulse), Write(0)];
  }

  /** The levels written to the pin, in order. */
  function Levels(trace: seq<Event>): seq<int>
    decreases |trace|
  {
    if trace == [] then [] else LevelOf(trace[0]) + Levels(trace[1..])
  }

  function LevelOf(e: Event): seq<int>
  {
    if e.Write? then [e.level] else []
  }

  function TimeOf(e: Event): nat
  {
    if e.Sleep? then e.micros else 0
  }

  /** The total time spent sleeping, in microseconds. */
  function Duration(trace: seq<Event>): nat
    decreases |trace|
  {
    if trace == [] then 0 else TimeOf(trace[0]) + Duration(trace[1..])
  }

  /**
   * Proof helpers, not properties of the source: the levels and duration of
   * short literal traces, unfolded element by element.
   */
  lemma Measures4(a: Event, b: Event, c: Event, d: Event)
    ensures Levels([a, b, c, d]) == LevelOf(a) + LevelOf(b) + LevelOf(c) + LevelOf(d)
    ensures Duration([a, b, c, d]) == TimeOf(a) + TimeOf(b) + TimeOf(c) + TimeOf(d)
  {
    assert [a, b, c, d][1..] == [b, c, d];
    Measures3(b, c, d);
  }

  lemma Measures3(b: Event, c: Event, d: Event)
    ensures Levels([b, c, d]) == LevelOf(b) + LevelOf(c) + LevelOf(d)
    ensures Duration([b, c, d]) == TimeOf(b) + TimeOf(c) + TimeOf(d)
  {
    assert [b, c, d][1..] == [c, d];
    Measures2(c, d);
  }

  lemma Measures2(c: Event, d: Event)
    ensures Levels([c, d]) == LevelOf(c) + LevelOf(d)
    ensures Duration([c, d]) == TimeOf(c) + TimeOf(d)
  {
    assert [c, d][1..] == [d];
    assert [d][1..] == [];
    assert Levels([d]) == LevelOf(d) + Levels([]);
    assert Duration([d]) == TimeOf(d) + Duration([]);
  }

  /** Writes of 1 and 0 that strictly alternate, starting with 1 (so an even count ending in 0). */
  predicate Alternating(levels: seq<int>)
  {
    |levels| % 2 == 0 && forall k :: 0 <= k < |levels| ==> levels[k] == (if k % 2 == 0 then 1 else 0)
  }

  lemma {:induction false} LevelsAppend(a: seq<Event>, b: seq<Event>)
    ensures Levels(a + b) == Levels(a) + Levels(b)
    decreases |a|
  {
    if a == [] {
      assert a + b == b;
    } else {
      assert (a + b)[1..] == a[1..] + b;
      LevelsAppend(a[1..], b);
    }
  }

  lemma {:induction false} DurationAppend(a: seq<Event>, b: seq<Event>)
    ensures Duration(a + b) == Duration(a) + Duration(b)
    decreases |a|
  {
    if a == [] {
      assert a + b == b;
    } else {
      assert (a + b)[1..] == a[1..] + b;
      DurationAppend(a[1..], b);
    }
  }

  lemma AlternatingAppend(a: seq<int>, b: seq<int>)
    requires Alternating(a) && Alternating(b)
    ensures Alternating(a + b)
  {
    forall k | |a| <= k < |a + b|
      ensures (a + b)[k] == (if k % 2 == 0 then 1 else 0)
    {
      assert (a + b)[k] == b[k - |a|];
      assert (k - |a|) % 2 == k % 2;
    }
  }

  lemma SymbolLevels(c: char)
    ensures Levels(SymbolTrace(c)) == (if c == '.' || c == '-' then [1, 0] else [])
  {
    SymbolMeasures(c);
  }

  lemma SymbolMeasures(c: char)
    ensures Levels(SymbolTrace(c)) == (if c == '.' || c == '-' then [1, 0] else [])
    ensures Duration(SymbolTrace(c)) == SymbolTime(c)
  {
    match c
    case '.' => Measures4(Write(1), Sleep(DitLength), Write(0), Sleep(2 * DitLength));
    case '-' => Measures4(Write(1), Sleep(3 * DitLength), Write(0), Sleep(2 * DitLength));
    case _ => Measures2(Sleep(6 * DitLength), Sleep(2 * DitLength));
  }

  lemma {:induction false} CodeLevels(code: string)
    ensures Alternating(Levels(CodeTrace(code)))
    decreases |code|
  {
    if code != [] {
      var c := code[|code| - 1];
      CodeLevels(code[..|code| - 1]);
      LevelsAppend(CodeTrace(code[..|code| - 1]), SymbolTrace(c));
      SymbolLevels(c);
      AlternatingAppend(Levels(CodeTrace(code[..|code| - 1])), Levels(SymbolTrace(c)));
    }
  }

  lemma {:induction false} CodesLevels(codes: seq<string>)
    ensures Alternating(Levels(CodesTrace(codes)))
    decreases |codes|
  {
    if codes != [] {
      var code := codes[|codes| - 1];
      CodesLevels(codes[..|codes| - 1]);
      LevelsAppend(CodesTrace(codes[..|codes| - 1]), CodeTrace(code));
      CodeLevels(code);
      AlternatingAppend(Levels(CodesTrace(codes[..|codes| - 1])), Levels(CodeTrace(code)));
    }
  }

  /**
   * Whatever the codes, the writes to the pin strictly alternate 1, 0, 1, 0, ...,
   * there is at least the final pulse, and the last write is 0.
   */
  lemma PlaybackLevels(codes: seq<string>)
    ensures Alternating(Levels(PlaybackTrace(codes)))
    ensures |Levels(PlaybackTrace(codes))| >= 2
    ensures Levels(PlaybackTrace(codes))[|Levels(PlaybackTrace(codes))| - 1] == 0
  {
    var body := Levels(CodesTrace(codes));
    CodesLevels(codes);
    LevelsAppend(CodesTrace(codes), EndTrace);
    Measures3(Write(1), Sleep(EndPulse), Write(0));
    assert Levels(EndTrace) == [1, 0];
    AlternatingAppend(body, [1, 0]);
    var all := body + [1, 0];
    assert Levels(PlaybackTrace(codes)) == all;
    assert all[|all| - 1] == 0;
  }

  /** Time of one symbol in dits: HIGH for 1 ('.') or 3 ('-'), or 6 silent dits otherwise, plus the 2-dit gap. */
  function SymbolDits(c: char): nat
  {
    (if c == '.' then 1 else if c == '-' then 3 else 6) + 2
  }

  /** The time one symbol takes, in microseconds. */
  function SymbolTime(c: char): nat
  {
    SymbolDits(c) * DitLength
  }

  /** The time the symbols of one code take. */
  function CodeTime(code: string): nat
    decreases |code|
  {
    if code == [] then 0 else CodeTime(code[..|code| - 1]) + SymbolTime(code[|code| - 1])
  }

  /** The time the symbols of all codes take. */
  function CodesTime(codes: seq<string>): nat
    decreases |codes|
  {
    if codes == [] then 0 else CodesTime(codes[..|codes| - 1]) + CodeTime(codes[|codes| - 1])
  }

  lemma {:induction false} CodeDuration(code: string)
    ensures Duration(CodeTrace(code)) == CodeTime(code)
    decreases |code|
  {
    if code != [] {
      var c := code[|code| - 1];
      CodeDuration(code[..|code| - 1]);
      DurationAppend(CodeTrace(code[..|code| - 1]), SymbolTrace(c));
      SymbolMeasures(c);
    }
  }

  lemma {:induction false} CodesDuration(codes: seq<string>)
    ensures Duration(CodesTrace(codes)) == CodesTime(codes)
    decreases |codes|
  {
    if codes != [] {
      var code := codes[|codes| - 1];
      CodesDuration(codes[..|codes| - 1]);
      DurationAppend(CodesTrace(codes[..|codes| - 1]), CodeTrace(code));
      CodeDuration(code);
    }
  }

  /** Total playback time: (1 or 3, plus 2) dits for every symbol, plus the one-second end pulse. */
  lemma PlaybackDuration(codes: seq<string>)
    ensures Duration(PlaybackTrace(codes)) == CodesTime(codes) + EndPulse
  {
    CodesDuration(codes);
    DurationAppend(CodesTrace(codes), EndTrace);
    Measures3(Write(1), Sleep(EndPulse), Write(0));
  }

  /** The 6-dit silence (the `default:` branch) occurs in a code's events exactly when the code holds a symbol other than '.' and '-'. */
  lemma {:induction false} LongGapIffForeignSymbol(code: string)
    ensures Sleep(6 * DitLength) in CodeTrace(code) <==> exists k :: 0 <= k < |code| && code[k] != '.' && code[k] != '-'
    decreases |code|
  {
    if code != [] {
      var n := |code| - 1;
      LongGapIffForeignSymbol(code[..n]);
      assert forall k :: 0 <= k < n ==> code[..n][k] == code[k];
      if code[n] != '.' && code[n] != '-' {
        assert SymbolTrace(code[n])[0] == Sleep(6 * DitLength);
      }
    }
  }

  lemma {:induction false} CodesWithoutLongGap(codes: seq<string>)
    requires forall k :: 0 <= k < |codes| ==> codes[k] == "" || WellFormedCode(codes[k])
    ensures Sleep(6 * DitLength) !in CodesTrace(codes)
    decreases |codes|
  {
    if codes != [] {
      CodesWithoutLongGap(codes[..|codes| - 1]);
      LongGapIffForeignSymbol(codes[|codes| - 1]);
    }
  }

  /** Text translated through the table never reaches the `default:` branch of playMorseCode. */
  lemma TextPlaybackHasNoLongGap(sentence: string)
    ensures Sleep(6 * DitLength) !in PlaybackTrace(Codes(sentence))
  {
    CodesShape(sentence);
    CodesWithoutLongGap(Codes(sentence));
  }

  lemma CodeTraceSnoc(code: string, symbol: char)
    ensures CodeTrace(code + [symbol]) == CodeTrace(code) + SymbolTrace(symbol)
  {
    assert (code + [symbol])[..|code|] == code;
  }

  lemma CodesTraceSnoc(codes: seq<string>, code: string)
    ensures CodesTrace(codes + [code]) == CodesTrace(codes) + CodeTrace(code)
  {
    assert (codes + [code])[..|codes|] == codes;
  }

  lemma {:induction false} CodesTraceAppend(a: seq<string>, b: seq<string>)
    ensures CodesTrace(a + b) == CodesTrace(a) + CodesTrace(b)
    decreases |b|
  {
    if b == [] {
      assert a + b == a;
    } else {
      var init, last := b[..|b| - 1], b[|b| - 1];
      assert b == init + [last];
      assert a + b == (a + init) + [last];
      CodesTraceAppend(a, init);
      CodesTraceSnoc(a + init, last);
      CodesTraceSnoc(init, last);
      AppendAssociates(CodesTrace(a), CodesTrace(init), CodeTrace(last));
    }
  }

  /**
   * A space in the sentence changes nothing in what is played: it becomes the
   * empty code, which adds no write and no delay.
   */
  lemma SpaceIsSilent(a: string, b: string)
    ensures PlaybackTrace(Codes(a + " " + b)) == PlaybackTrace(Codes(a + b))
  {
    var ca, cb := Codes(a), Codes(b);
    assert Codes(a + " ") == ca + [""] by {
      assert (a + " ")[..|a|] == a;
    }
    CodesAppend(a + " ", b);
    CodesAppend(a, b);
    assert CodesTrace(ca + [""]) == CodesTrace(ca) by {
      assert (ca + [""])[..|ca|] == ca;
    }
    CodesTraceAppend(ca + [""], cb);
    CodesTraceAppend(ca, cb);
  }

  lemma CodesSnoc(a: string, c: char)
    ensures Codes(a + [c]) == Codes(a) + CodesOf(c)
  {
    assert (a + [c])[..|a|] == a;
  }

  lemma SosLetters()
    ensures CodesOf('s') == ["..."] && CodesOf('o') == ["---"]
  {
  }

  lemma SosCodes()
    ensures Codes("sos") == ["...", "---", "..."]
  {
    SosLetters();
    CodesSnoc([], 's');
    CodesSnoc(['s'], 'o');
    CodesSnoc(['s', 'o'], 's');
    assert [] + ['s'] == "s" && ['s'] + ['o'] == "so" && ['s', 'o'] + ['s'] == "sos";
  }

  lemma TripleTrace(c: char)
    ensures CodeTrace([c, c, c]) == SymbolTrace(c) + SymbolTrace(c) + SymbolTrace(c)
  {
    assert [c][..0] == [] && [c, c][..1] == [c] && [c, c, c][..2] == [c, c];
    assert CodeTrace([c]) == SymbolTrace(c);
    assert CodeTrace([c, c]) == SymbolTrace(c) + SymbolTrace(c);
  }

  lemma TripleTime(c: char)
    ensures CodeTime([c, c, c]) == 3 * SymbolTime(c)
  {
    assert [c][..0] == [] && [c, c][..1] == [c] && [c, c, c][..2] == [c, c];
    assert CodeTime([c]) == SymbolTime(c);
    assert CodeTime([c, c]) == 2 * SymbolTime(c);
  }

  lemma SosCodesTrace()
    ensures CodesTrace(["...", "---", "..."]) == CodeTrace("...") + CodeTrace("---") + CodeTrace("...")
    ensures CodesTime(["...", "---", "..."]) == CodeTime("...") + CodeTime("---") + CodeTime("...")
  {
    var codes := ["...", "---", "..."];
    assert codes[..2] == ["...", "---"] && codes[..2][..1] == ["..."] && codes[..1][..0] == [];
    assert CodesTrace(["..."]) == CodeTrace("...");
    assert CodesTrace(["...", "---"]) == CodeTrace("...") + CodeTrace("---");
  }

  /** Proof helper: regrouping ten pieces of a trace, three codes of three symbols and the end. */
  lemma Regroup<T>(a: seq<T>, b: seq<T>, c: seq<T>, d: seq<T>, e: seq<T>, f: seq<T>,
                   g: seq<T>, h: seq<T>, i: seq<T>, end: seq<T>)
    ensures ((a + b + c) + (d + e + f)) + (g + h + i) + end == a + b + c + d + e + f + g + h + i + end
  {
  }

  /** "sos" plays dot, dot, dot, dash, dash, dash, dot, dot, dot and the end pulse. */
  lemma SosPlayback()
    ensures Codes("sos") == ["...", "---", "..."]
    ensures PlaybackTrace(Codes("sos")) ==
      SymbolTrace('.') + SymbolTrace('.') + SymbolTrace('.') +
      SymbolTrace('-') + SymbolTrace('-') + SymbolTrace('-') +
      SymbolTrace('.') + SymbolTrace('.') + SymbolTrace('.') + EndTrace
  {
    SosCodes();
    var dot, dash := SymbolTrace('.'), SymbolTrace('-');
    assert "..." == ['.', '.', '.'] && "---" == ['-', '-', '-'];
    TripleTrace('.');
    TripleTrace('-');
    SosCodesTrace();
    assert PlaybackTrace(Codes("sos")) == ((dot + dot + dot) + (dash + dash + dash)) + (dot + dot + dot) + EndTrace;
    Regroup(dot, dot, dot, dash, dash, dash, dot, dot, dot, EndTrace);
  }

  lemma SosTime()
    ensures CodesTime(["...", "---", "..."]) == 1980000
  {
    SosCodesTrace();
    assert "..." == ['.', '.', '.'] && "---" == ['-', '-', '-'];
    TripleTime('.');
    TripleTime('-');
    assert SymbolTime('.') == 180000 && SymbolTime('-') == 300000;
  }

  /** Playing "sos" takes 2.98 seconds: 33 dits of symbols and gaps plus the one-second end pulse. */
  lemma SosDuration()
    ensures Duration(PlaybackTrace(Codes("sos"))) == 2980000
  {
    SosCodes();
    SosTime();
    PlaybackDuration(["...", "---", "..."]);
  }
}
