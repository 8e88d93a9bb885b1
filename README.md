# Camera-odroid: a Dafny model of the field unit and the station

The system is made of two programs that talk over TCP.

- The **field unit** (an ODROID board) runs a server on port 4099. In each
  pass of its loop it reads a light sensor and sends a state token: "N"
  (no light) or "R" (ready). When it is ready it also sends:
  - a button token: "B" when the push button was just pressed, "z" otherwise;
  - a camera frame, as a 4-byte length followed by the bytes.

  It then obeys the station's command: "q" quits, and "r" is followed by a
  new "WxH" resolution for the camera. Each button press forks a child.
  The child serves port 4098, receives one sentence and plays it in Morse
  code on a buzzer pin.
- The **station** connects to port 4099 and acknowledges every token
  with "z". On an "R" state it asks for a capture with "c" and reads the
  image. When the button token ends in 'B', it forks a child that sends the
  detected QR message to port 4098. The child sends the data of the last
  located symbol, reduced to lower-case letters, digits and spaces. The
  station then answers a key: Esc quits, 'r' asks the user for one of four
  resolutions, and anything else sends "z".

The model gives every socket call, sysfs read, keyboard read and image
operation as an input value. What remains is deterministic, and it is what
is modelled and proved:

- `Wire`: a connection as a list of segments. `recv` takes up to its buffer
  size from the first segment. A close or an error stays queued, so every
  later `recv` returns the same. 4-byte little-endian framing.
- `Decimal`: `std::to_string` and `std::stoi`. `std::stoi` skips white
  space, takes an optional sign and the longest run of digits, and throws
  `invalid_argument` or `out_of_range`.
- `Morse`: the table, `strToMorse` and `playMorseCode`. The pin writes and
  sleeps of `playMorseCode` become a trace of events.
- `Gpio`: the button edge detector and the light reading, with their
  fallbacks on a failed read. `GpioService` is a class.
- `Camera`: the initial resolution and `UpdateResolution`'s parse. `Camera`
  is a class.
- `Qr`: `getMessage` and `sanitizeSentence`.
- `FieldTcp`: the field unit's `TcpService`, covering the three handle lists,
  `WaitUserEntry` and `SendImage`.
- `StationTcp`: the station's `TcpService`, covering:
  - the resolution tables and the menu;
  - the two handle lists;
  - `WaitServerResponse` and the in-place image receive loop over an `array`;
  - one pass of `ObserveServerResponse`, and the whole loop.
- `FieldMain`: `main` of the field unit (one pass, the child, the loop).
- `Protocol`: the two sides together. It covers:
  - the tokens the station sends are the entries the field unit reads;
  - the framed image is rebuilt whole;
  - the menu resolutions are the ones the camera applies;
  - a forwarded QR message is the sentence the child plays.

Where the design description and the code disagree, the model follows the
code:

- The state token is decided anew in every pass: "N" above 1000, "R"
  otherwise, 1000 and non-positive readings included. The reassignment in
  the NO_LIGHT branch (`g1-vlsi407-odroid/src/main.cpp` lines 184-187) never
  takes effect. `FieldMain.FieldOnce` carries the variable and proves this.
- A space becomes the empty code, which plays nothing. It does not become a
  6-dit gap. The `default:` branch of `playMorseCode` is unreachable from
  table output (`Morse.TextPlaybackHasNoLongGap`).
- When no QR symbol is located, the station's child still connects and
  sends the empty message, then closes. The field unit's child reads the
  empty sentence and stops (`Protocol.ForwardedMessagePlayed`).
- `ObserveServerResponse` returns `true` on every path that returns (see
  Findings).
- The design says a zero-length read, that is a closed peer, ends the field
  loop. In the code, `WaitUserEntry` breaks out of its receive loop and
  returns the empty entry (`g1-vlsi407-odroid/src/TcpService.cpp` lines
  110-116), and `main` simply goes on with the next pass (`main.cpp` lines
  121-182): the empty entry is neither "q" nor "r". A closed primary
  connection therefore never ends the loop (`FieldTcp.ClosedYieldsEmpty`,
  `FieldMain.ClosedConnectionRunsOn`).

Loops that never return in the source are modelled as endings:
- the field loop when the passes run out;
- the station's image loop spinning on a closed connection (`Spinning`);
- a resolution menu that never gets a valid answer (`MenuStalled`);
- the station loop when its inputs run out.

## Model

| member | source | states |
|---|---|---|
| Wire.Recv | g1-vlsi407-odroid/src/TcpService.cpp:108-116 | a receive stores as many bytes as it reports, never more than the buffer size, or reports -1 with nothing stored; a receive with data leaves strictly less pending |
| Wire.RecvTakesFront | g1-vlsi407-odroid/src/TcpService.cpp:108-119 | the bytes of a successful receive are the front of the byte stream, and the rest of the stream is still pending, in order |
| Wire.RecvEndsWithStream | g1-vlsi407-odroid/src/TcpService.cpp:110-116 | a receive returns 0 or -1 exactly when no more bytes will arrive |
| Wire.UnsignedOfLittleEndian | g1-vlsi407-odroid/src/TcpService.cpp:142-143 | the k low-order bytes of a value below 256^k read back as that value |
| Decimal.ToStringDigits | g1-vlsi407-poste/src/TcpService.cpp:256 | `to_string` of n is a non-empty string of digits whose decimal value is n |
| Decimal.Convert | g1-vlsi407-odroid/src/Camera.cpp:31-32 | a conversion that succeeds lies in the `int` range, and `invalid_argument` is thrown exactly when there are no digits |
| Decimal.Stoi | g1-vlsi407-odroid/src/Camera.cpp:31-32 | `stoi` yields an `int`-range value, and it throws `invalid_argument` exactly when no digit follows the white space and the optional sign |
| Decimal.StoiOfDigitsThen | g1-vlsi407-odroid/src/Camera.cpp:32 | `stoi` of digits followed by a non-digit is the value of the digits: it ignores what follows |
| Decimal.StoiOfToString | g1-vlsi407-odroid/src/Camera.cpp:31-32 | `stoi` reads back what `to_string` wrote, for every value up to INT_MAX |
| Camera.Find | g1-vlsi407-odroid/src/Camera.cpp:28 | the position found holds 'x' and no earlier position does; no position is found exactly when no 'x' occurs |
| Camera.NoSeparatorIffNoX | g1-vlsi407-odroid/src/Camera.cpp:28-38 | the argument is rejected as badly formatted exactly when it contains no 'x' |
| Camera.ParseFormat | g1-vlsi407-odroid/src/Camera.cpp:27-35 | parsing "WxH" written by `to_string` gives back W and H, for all sizes up to INT_MAX |
| Camera.SplitsAtFirstX | g1-vlsi407-odroid/src/Camera.cpp:28-32 | only the first 'x' splits: "WxHx..." sets W by H |
| Camera.MissingWidthThrows | g1-vlsi407-odroid/src/Camera.cpp:31 | a string starting with 'x' makes `stoi` throw `invalid_argument`, an error and not an update |
| Camera.MissingHeightThrows | g1-vlsi407-odroid/src/Camera.cpp:32 | "Wx" makes `stoi` throw `invalid_argument` on the empty height |
| Camera.Camera.constructor | g1-vlsi407-odroid/src/Camera.cpp:13-15 | the camera starts at 176 by 144 |
| Camera.Camera.UpdateResolution | g1-vlsi407-odroid/src/Camera.cpp:27-40 | a parsed "WxH" sets width and height; without an 'x' nothing changes; a side `stoi` rejects throws before anything is set |
| Gpio.LastButtonStateIsLastLevel | g1-vlsi407-odroid/src/gpio/GpioService.cpp:57-69 | after any run of reads, `lastButtonState` is the level of the latest successful read, or the initial level |
| Gpio.ButtonValueAt | g1-vlsi407-odroid/src/gpio/GpioService.cpp:57-77 | after a successful read, the value is 1 exactly when the previous level was 1 and the new reading is 0, and it is 0 or 1; a failed read returns the previous value again |
| Gpio.SustainedPressReportsOnce | g1-vlsi407-odroid/src/gpio/GpioService.cpp:59-66 | a 0 read right after a 0 read reports no press: holding the button fires once |
| Gpio.NewPressReported | g1-vlsi407-odroid/src/gpio/GpioService.cpp:59-63 | a 0 read right after a 1 read reports a press |
| Gpio.FirstPressReported | g1-vlsi407-odroid/src/gpio/GpioService.cpp:47 | the remembered level starts at 1, so a first read of 0 reports a press |
| Gpio.GpioService.constructor | g1-vlsi407-odroid/include/GpioService.h:32-35 | the button value starts at 0, the remembered level at 1 (released) and the luminosity at 0.0 |
| Gpio.GpioService.ReadButtonValue | g1-vlsi407-odroid/src/gpio/GpioService.cpp:46-70 | the new state is the edge detector applied to the old state and the reading; a failed read changes nothing |
| Gpio.GpioService.GetButtonValue | g1-vlsi407-odroid/src/gpio/GpioService.cpp:74-77 | it returns the value just computed, and the previous one after a failed read |
| Gpio.GpioService.ReadLuminosityValue | g1-vlsi407-odroid/src/gpio/GpioService.cpp:85-99 | a parsed reading replaces the stored luminosity; a failed one keeps it |
| Gpio.GpioService.GetLuminosity | g1-vlsi407-odroid/src/gpio/GpioService.cpp:102-105 | it returns the value just read, or the previous value when the read failed |
| Morse.TableDomain | g1-vlsi407-odroid/src/main.cpp:20-31 | the table maps exactly the letters a-z and the digits 0-9 |
| Morse.TableCodes | g1-vlsi407-odroid/src/main.cpp:20-31 | every code in the table is one to five dots and dashes |
| Morse.StrToMorse | g1-vlsi407-odroid/src/main.cpp:38-48 | the vector keeps its prior contents, followed by the codes of the sentence in input order |
| Morse.CodesAppend | g1-vlsi407-odroid/src/main.cpp:38-48 | the codes of a + b are the codes of a followed by those of b |
| Morse.CodesShape | g1-vlsi407-odroid/src/main.cpp:38-48 | there is at most one code per character, and each is "" (a space) or a well-formed table code |
| Morse.OneCodePerChar | g1-vlsi407-odroid/src/main.cpp:39-46 | when every character yields one code, the k-th code is that of the k-th character |
| Morse.CodesOfMappedText | g1-vlsi407-odroid/src/main.cpp:43-45 | a sentence of letters and digits gets exactly its table codes, in order |
| Morse.PlayCode | g1-vlsi407-odroid/src/main.cpp:65-85 | the inner loop plays one code symbol by symbol, each followed by the 2-dit gap |
| Morse.PlayMorseCode | g1-vlsi407-odroid/src/main.cpp:55-93 | the events written are the codes' symbols in order, then HIGH for one second and LOW |
| Morse.SymbolMeasures | g1-vlsi407-odroid/src/main.cpp:66-84 | '.' is HIGH 1 dit, '-' HIGH 3 dits, anything else 6 silent dits; each is followed by 2 dits LOW |
| Morse.PlaybackLevels | g1-vlsi407-odroid/src/main.cpp:64-90 | the writes to the pin strictly alternate 1, 0; there are at least two, and the last is 0 |
| Morse.PlaybackDuration | g1-vlsi407-odroid/src/main.cpp:64-90 | playback takes the sum over symbols of (1 or 3, plus 2) dits, plus one second |
| Morse.LongGapIffForeignSymbol | g1-vlsi407-odroid/src/main.cpp:80-82 | the 6-dit silence occurs in a code's events exactly when the code holds a symbol other than '.' and '-' |
| Morse.CodesWithoutLongGap | g1-vlsi407-odroid/src/main.cpp:80-82 | codes that are empty or well formed never reach the 6-dit branch |
| Morse.TextPlaybackHasNoLongGap | g1-vlsi407-odroid/src/main.cpp:38-82 | no sentence, whatever its characters, ever plays the 6-dit silence |
| Morse.CodesTraceAppend | g1-vlsi407-odroid/src/main.cpp:64-86 | the events of two lists of codes are those of the first followed by those of the second |
| Morse.SpaceIsSilent | g1-vlsi407-odroid/src/main.cpp:40-41 | a space adds no event and no delay: a + " " + b plays exactly as a + b |
| Morse.SosPlayback | g1-vlsi407-odroid/src/main.cpp:64-90 | "sos" is coded "...", "---", "..." and plays dot x3, dash x3, dot x3, then the end pulse |
| Morse.SosDuration | g1-vlsi407-odroid/src/main.cpp:17-90 | playing "sos" takes 2 980 000 microseconds |
| Qr.NothingLocatedSelectsEmpty | g1-vlsi407-poste/src/QrManager.cpp:84-95 | with no located object the selected data is "" |
| Qr.LastLocatedWins | g1-vlsi407-poste/src/QrManager.cpp:87-93 | the data of the last located object is selected, whatever precedes it and whatever unlocated objects follow |
| Qr.SanitizedIsClean | g1-vlsi407-poste/src/QrManager.cpp:102-106 | the output holds only lower-case letters, digits and spaces |
| Qr.SanitizedAppend | g1-vlsi407-poste/src/QrManager.cpp:102-106 | sanitizing a + b is sanitizing a followed by sanitizing b: order is kept |
| Qr.SanitizedLength | g1-vlsi407-poste/src/QrManager.cpp:102-106 | the output is never longer, and it is equally long exactly when every character is kept |
| Qr.SanitizedKeptString | g1-vlsi407-poste/src/QrManager.cpp:102-106 | a string of kept characters comes out lower-cased, character by character |
| Qr.SanitizedOfClean | g1-vlsi407-poste/src/QrManager.cpp:102-106 | an already clean string is unchanged |
| Qr.SanitizeIdempotent | g1-vlsi407-poste/src/QrManager.cpp:99-108 | sanitizing twice equals sanitizing once |
| Qr.SanitizeSentence | g1-vlsi407-poste/src/QrManager.cpp:99-108 | the loop builds the sanitized string |
| Qr.GetMessage | g1-vlsi407-poste/src/QrManager.cpp:83-96 | the message is the sanitized data of the last located object ("" if none); the objects are only read |
| FieldTcp.UserEntryTakesFront | g1-vlsi407-odroid/src/TcpService.cpp:106-128 | an entry is the front of the byte stream; it is followed by what stays pending, and nothing is lost or reordered |
| FieldTcp.ClosedYieldsEmpty | g1-vlsi407-odroid/src/TcpService.cpp:110-116 | a closed or failed connection yields the empty entry and stays closed |
| FieldTcp.ShortChunkEndsEntry | g1-vlsi407-odroid/src/TcpService.cpp:122-125 | a receive shorter than 1024 bytes ends the entry, leaving the rest pending |
| FieldTcp.FullChunkContinues | g1-vlsi407-odroid/src/TcpService.cpp:119-125 | a receive of exactly 1024 bytes is followed by another receive |
| FieldTcp.WholeMessage | g1-vlsi407-odroid/src/TcpService.cpp:106-126 | a message sent in one piece, its length not a multiple of 1024, is returned whole and nothing after it is consumed |
| FieldTcp.MessageBeforeClose | g1-vlsi407-odroid/src/TcpService.cpp:106-126 | a message sent in one piece and followed by a close is returned whole, whatever its length; a last full receive is followed by the receive of 0 that ends the loop |
| FieldTcp.WaitUserEntry | g1-vlsi407-odroid/src/TcpService.cpp:102-129 | the loop returns the concatenated receives up to the first short one, close or error |
| FieldTcp.TcpService.constructor | g1-vlsi407-odroid/include/TcpService.h:49-55 | the three lists start empty |
| FieldTcp.TcpService.Fork | g1-vlsi407-odroid/src/main.cpp:131 | the child process gets its own copy of the three lists |
| FieldTcp.TcpService.Start | g1-vlsi407-odroid/src/TcpService.cpp:48-96 | the three lists grow together, by one each, exactly when every call succeeds; a failed setsockopt exits; every failure leaves them unchanged |
| FieldTcp.TcpService.CloseLastConnection | g1-vlsi407-odroid/src/TcpService.cpp:31-41 | it pops the last client and the last server handle only when there are at least two, and it never touches the ports |
| FieldTcp.TcpService.SendImage | g1-vlsi407-odroid/src/TcpService.cpp:137-154 | on the first connection it sends the 4-byte length, then the bytes; it stops at the first failed send, and it succeeds exactly when neither fails |
| FieldTcp.SizeFieldReadsBack | g1-vlsi407-odroid/src/TcpService.cpp:142-143 | the 4-byte length field reads back as the image length |
| StationTcp.VideoResolutions | g1-vlsi407-poste/src/TcpService.cpp:252-256 | the menu entries are "176x144", "160x120", "800x600" and "1184x656"; the unused table entries give "0x0" |
| StationTcp.FirstValidChoice | g1-vlsi407-poste/src/TcpService.cpp:232-241 | the first read that parses as 1..4 is chosen, and no earlier read does |
| StationTcp.ChooseResolution | g1-vlsi407-poste/src/TcpService.cpp:223-245 | it asks until a read lies in 1..4 and returns that entry; it is stalled when the reads run out |
| StationTcp.ChoiceIsListed | g1-vlsi407-poste/src/TcpService.cpp:234-244 | an accepted choice is always one of the four menu resolutions |
| StationTcp.WaitServerResponse | g1-vlsi407-poste/src/TcpService.cpp:194-216 | it returns the bytes of the first receive (at most 1024), or "" exactly when the connection is closed or failed |
| StationTcp.ImageData | g1-vlsi407-poste/src/TcpService.cpp:127-134 | the transfer never takes more bytes than the size, and it is complete exactly when it has them all |
| StationTcp.ImageDataAvailable | g1-vlsi407-poste/src/TcpService.cpp:127-134 | when the bytes are there, the image is the front of the stream, and it is complete |
| StationTcp.ImageDataShort | g1-vlsi407-poste/src/TcpService.cpp:127-134 | with too few bytes, all that arrived is kept, and the transfer is not complete |
| StationTcp.RecvInto | g1-vlsi407-poste/src/TcpService.cpp:128 | a receive stores its bytes at the current offset of the buffer and leaves the rest zero |
| StationTcp.ReceiveChunk | g1-vlsi407-poste/src/TcpService.cpp:128-133 | one turn of the receive loop moves the received bytes from the connection into the buffer, or ends the transfer on 0 or -1 |
| StationTcp.FillImage | g1-vlsi407-poste/src/TcpService.cpp:125-134 | the buffer holds the received chunks at increasing offsets, zero after them; it stops when complete, at a -1, or at a 0 |
| StationTcp.ReceiveImage | g1-vlsi407-poste/src/TcpService.cpp:116-134 | the image step: the size receive, the zero-filled buffer of that size, and the receive loop |
| StationTcp.TcpService.constructor | g1-vlsi407-poste/include/TcpService.h:62-65 | the two lists start empty |
| StationTcp.TcpService.ConnectToServer | g1-vlsi407-poste/src/TcpService.cpp:49-79 | the port and the socket are appended exactly when the connection succeeds; every failure leaves both lists unchanged |
| StationTcp.TcpService.CloseLastConnection | g1-vlsi407-poste/src/TcpService.cpp:39-43 | it removes exactly the last socket and the last port, and keeps the earlier entries |
| StationTcp.TcpService.ForwardDecodedMessage | g1-vlsi407-poste/src/TcpService.cpp:147-159 | the child sends the sanitized selected message on the new socket exactly when the connection succeeds; the lists end as they began |
| StationTcp.StateAcknowledged | g1-vlsi407-poste/src/TcpService.cpp:108-111 | the state token is always answered with "z", and a state not ending in 'R' gets nothing else |
| StationTcp.ReadyTranscript | g1-vlsi407-poste/src/TcpService.cpp:111-180 | an 'R' pass sends "z", "c", "z"; after the image it sends "q" exactly on Esc, "r" and a menu resolution on 'r', and "z" on any other key |
| StationTcp.ForwardOnlyOnButton | g1-vlsi407-poste/src/TcpService.cpp:144-158 | a message is forwarded exactly when the image was decoded and the button token ends in 'B', and it is the sanitized selected data |
| StationTcp.ExchangeOnce | g1-vlsi407-poste/src/TcpService.cpp:108-184 | one pass of the loop, as the code performs it |
| StationTcp.AnswerKey | g1-vlsi407-poste/src/TcpService.cpp:166-180 | the answer to the key returned by `waitKey` |
| StationTcp.RunEndsAtFirstStop | g1-vlsi407-poste/src/TcpService.cpp:107-185 | the loop stops exactly when some pass stops |
| StationTcp.SizeFailureReportsTrue | g1-vlsi407-poste/src/TcpService.cpp:118-122 | a failed receive of the image size ends the loop, and the function still returns true |
| StationTcp.PassEnding | g1-vlsi407-poste/src/TcpService.cpp:111-180 | a pass ends on a size or decode failure exactly when its state ends in 'R' and the size receive failed or the image arrived and held no code; it ends on Esc exactly when the image was decoded and the key is 27 |
| StationTcp.RunStopsAtFirst | g1-vlsi407-poste/src/TcpService.cpp:107-185 | the loop ends as its first pass that does not continue |
| StationTcp.IntendedReportsFailure | g1-vlsi407-poste/include/TcpService.h:40-42 | with the intended return value, false is returned exactly when the first pass that does not continue is an 'R' pass whose size receive failed or whose image held no code, and true exactly when that pass decoded its image and read Esc |
| StationTcp.ObserveServerResponse | g1-vlsi407-poste/src/TcpService.cpp:104-187 | the loop sends and forwards what its passes do, up to the first that stops; `imagecounter` counts the forwarded images; the result is true whenever it returns |
| FieldMain.ChildPlaysOnlyASentence | g1-vlsi407-odroid/src/main.cpp:132-162 | the pin and freq0 are used only once a non-empty sentence has arrived; an empty sentence ends the child first; a played sentence writes 660 and lasts its codes' time plus one second |
| FieldMain.SecondaryFlow | g1-vlsi407-odroid/src/main.cpp:132-165 | the child plays the sentence of its connection; port 4098 is added exactly when Start succeeds; the 4098 connection is closed again, except when the empty sentence exits first |
| FieldMain.StateFromCurrentReading | g1-vlsi407-odroid/src/main.cpp:111-120 | the first token of a pass is "N" exactly when that pass's light value exceeds 1000 and "R" exactly when it does not; only a failed read falls back on the stored value |
| FieldMain.NoLightTurn | g1-vlsi407-odroid/src/main.cpp:120-124 | a NO_LIGHT pass sends only "N" and reads one entry; it reads no button, sends no image, and leaves the camera alone |
| FieldMain.ReadyTurn | g1-vlsi407-odroid/src/main.cpp:124-182 | a READY pass sends "R", then "B" exactly on a press (and only then forks), then the image; it reads four entries, quits exactly on "q", and on "r" reads a fifth and applies it |
| FieldMain.CommandRules | g1-vlsi407-odroid/src/main.cpp:175-182 | "q" ends the loop; "r" takes one more entry, which is parsed and applied; "stoi" errors terminate |
| FieldMain.CameraChangesOnlyOnResize | g1-vlsi407-odroid/src/main.cpp:178-181 | the camera changes only on an "r" whose following entry parses to the new resolution |
| FieldMain.CommandOnce | g1-vlsi407-odroid/src/main.cpp:172-182 | the command entry as main handles it |
| FieldMain.ReadyOnce | g1-vlsi407-odroid/src/main.cpp:125-182 | the READY part of a pass, as main performs it |
| FieldMain.FieldOnce | g1-vlsi407-odroid/src/main.cpp:111-188 | one pass as main performs it; the state variable always ends as the state of the current light reading |
| FieldMain.DarkPassesSendOnlyState | g1-vlsi407-odroid/src/main.cpp:183-188 | a NO_LIGHT pass adds exactly "N" to the transcript, and the loop goes on |
| FieldMain.FieldUnit | g1-vlsi407-odroid/src/main.cpp:95-194 | main: Start on 4099, then the passes until "q", a `stoi` exception, or the end of the supplied passes |
| FieldMain.LoopIsRunOfPasses | g1-vlsi407-odroid/src/main.cpp:109-189 | the loop is its passes, each from the state the one before left, up to the first that does not go on |
| FieldMain.LoopStopsAt | g1-vlsi407-odroid/src/main.cpp:109-189 | when pass i is the first that does not go on, the loop sends and spawns what passes 0 to i do, and ends on "q" or on that pass's `stoi` exception |
| FieldMain.FieldEndsAtFirstStop | g1-vlsi407-odroid/src/main.cpp:109-189 | the loop ends on "q" exactly when its first pass that does not go on read "q", terminates exactly when that pass threw, and is still running exactly when every pass went on, having sent and spawned what they all did |
| FieldMain.TurnSpawnsOnPress | g1-vlsi407-odroid/src/main.cpp:124-131 | a pass spawns a child exactly when its light value is at most 1000 and its `getButtonValue` returns 1, and the child is that pass's Morse flow |
| FieldMain.EveryPassSpawnsOnPress | g1-vlsi407-odroid/src/main.cpp:109-189 | the same holds for every pass of the loop |
| FieldMain.ClosedStaysClosed | g1-vlsi407-odroid/src/TcpService.cpp:110-116 | once the connection is closed, every later `WaitUserEntry` returns the empty entry |
| FieldMain.ClosedPass | g1-vlsi407-odroid/src/main.cpp:121-182 | on a closed connection a pass goes on and the connection stays closed |
| FieldMain.ClosedPassesGoOn | g1-vlsi407-odroid/src/main.cpp:121-182 | on a closed connection every pass of the loop goes on |
| FieldMain.ClosedConnectionRunsOn | g1-vlsi407-odroid/src/main.cpp:121-182 | a closed primary connection never ends the loop: every entry is empty, every pass goes on, and the loop is still running when the passes run out |
| Protocol.TokensArriveInOrder | g1-vlsi407-odroid/src/TcpService.cpp:106-126 | tokens sent one segment each are read back one per WaitUserEntry, in order |
| Protocol.DarkExchange | g1-vlsi407-poste/src/TcpService.cpp:108-111 | after "N" the station sends only "z", and the field unit reads exactly that and goes on |
| Protocol.ReadyExchange | g1-vlsi407-odroid/src/main.cpp:124-182 | the field unit reads the station's "z", "c", "z" and key answer, quits exactly on Esc, and keeps its camera unless 'r' was pressed |
| Protocol.MenuResolutionsParse | g1-vlsi407-odroid/src/Camera.cpp:27-35 | each menu string parses back to its table width and height |
| Protocol.InitialIsFirstChoice | g1-vlsi407-odroid/src/Camera.cpp:14-15 | the camera starts at the first menu entry |
| Protocol.ResizeReply | g1-vlsi407-poste/src/TcpService.cpp:171-176 | on 'r' with an accepted choice, the station sends "z", "c", "z", "r" and that menu entry |
| Protocol.MenuEntryFits | g1-vlsi407-poste/src/TcpService.cpp:252-256 | every menu entry is non-empty and fits one receive of the field unit |
| Protocol.ResizeExchange | g1-vlsi407-odroid/src/main.cpp:178-181 | after 'r' and a choice at the station, the field unit's camera takes that table entry |
| Protocol.ImageRoundTrip | g1-vlsi407-poste/src/TcpService.cpp:116-134 | the frame SendImage writes is rebuilt whole by the station, and the transfer is complete |
| Protocol.CleanCharCode | g1-vlsi407-odroid/src/main.cpp:39-46 | a character the sanitizer keeps has exactly one code: "" for a space, its table entry otherwise |
| Protocol.CleanTextCodes | g1-vlsi407-odroid/src/main.cpp:38-48 | a sanitized message gets exactly one code per character, in order |
| Protocol.ForwardedMessagePlayed | g1-vlsi407-odroid/src/main.cpp:137-162 | the forwarded QR message is the sentence the child plays, one code per character; an empty message plays nothing |

## Left out

- Socket, sysfs, keyboard, OpenCV and zbar calls: each is replaced by the value it returns, supplied as an input. They are foreign code.
- `CloseAllConnections` on both sides: it erases from a vector while iterating over it, which is undefined behaviour.
- `SendMessage` on both sides: only its payload is modelled, as a token in the transcript. Its return value is never used by the callers.
- Partial sends and TCP coalescing. `send` is taken to write all its bytes. In `Protocol`, each token is taken to arrive in a segment of its own, which the code relies on but TCP does not promise.
- `fork()` and concurrency. The child's flow is modelled sequentially and its result is recorded. A field child whose `Start` on 4098 fails falls back into the parent's loop in the source; the model records `StartFailed` and stops that child.
- The `exit(-1)` paths when `enable0`, the button file or the ADC file cannot be opened. These are file-system failures.
- The `std::runtime_error` the `Camera` constructor throws when the capture device does not open (`g1-vlsi407-odroid/src/Camera.cpp` lines 17-19). This is a device failure at start-up; `Camera.Camera.constructor` always succeeds.
- `lastButtonState` is a function-static variable of `readButtonValue` (`g1-vlsi407-odroid/src/GpioService.cpp` line 47), shared by every `GpioService` object. The model makes it a field of each object. The two agree because `main` builds a single `GpioService`.
- `Camera::CalculateFps`, `RecordVideo` and `CaptureImage`: these depend on the clock and on floating point. A frame is an input byte sequence.
- `cv::imdecode`: its success is an input flag.
- `DecodeQrCode` and `DisplayQrCode`: their output is the input list of decoded objects.
- The `double` luminosity is a `real`; only its comparison with 1000 matters.
- `FieldTcp.TcpService.GetClientId`: it is the index lookup itself and carries no contract beyond its precondition `0 <= index < |clientId|`.
- `Qr.SanitizeSentence`, `Qr.GetMessage`: they require ASCII input, because `isalnum` on a negative `char` is undefined behaviour.
- `FieldTcp.TcpService.SendImage`: it requires an image shorter than 2^31 bytes. The 4-byte field is taken little-endian, and larger sizes would be truncated.
- `StationTcp.StationTurn` and `StationTcp.ExchangeOnce` require non-empty tokens (`Readable`). `state.back()` on an empty string is undefined behaviour.
- `StationTcp.TcpService.ForwardDecodedMessage`: when the 4098 connection fails, `_serverId[1]` does not exist. The model returns `NoSecondConnection` instead of modelling what follows.
- The station loop's receives are not composed over a single connection: each pass's state token, button token and image outcome in `StationTcp.StationInputs` are free inputs, not the results of `WaitServerResponse` and `ReceiveImage` on one stream. `Protocol` ties the two sides together pass by pass instead.
- `StationTcp.ChooseResolution`: when the supplied reads run out, it returns `None`, where the source goes on asking.
- `FieldMain.FieldUnit` and `StationTcp.ObserveServerResponse` run over a finite list of passes. The endless loops are cut where the list ends.
- Timing: the usleep and sleep calls are trace events with their durations. No real time elapses.

## Findings

| source | as written | input that shows it | evidently intended | confidence | as-written member | corrected member |
|---|---|---|---|---|---|---|
| g1-vlsi407-poste/src/TcpService.cpp:118-122 | `break;` is followed by `return false;`, so a failed size receive, and likewise a failed decode at 138-142, leaves the loop and reaches `return true` | an "R" state whose image-size `recv` returns -1 | return false on such failures, as the header's `@return` and the dead `return false` say | not executed | StationTcp.SizeFailureReportsTrue | StationTcp.IntendedReportsFailure |

The corrected return value is `StationTcp.IntendedReturnValue`. The
as-written one, `StationTcp.ReturnValue`, is what
`StationTcp.ObserveServerResponse` returns. The caller
(`g1-vlsi407-poste/src/main.cpp` line 15) discards the value, so nothing
else in the model depends on the choice.
