# FPGA Colossus — host side and reference oracles, in Dafny

FPGA Colossus rebuilds the wartime Colossus codebreaking machine in an FPGA. A Python
test harness (`tests/colossus.py`) drives it through a line protocol. It writes one
command per line, either a data byte or an address byte and a data byte in hexadecimal,
and reads back a `COLOSSUS-RESPONSE:` line. A Raspberry Pi client (`rpi-client/client.cpp`)
turns each command line into GPIO activity: an eight-bit multiplexed address/data bus, a
select line, a request/busy handshake, then an error flag and an eight-bit response read
back. The tests check the FPGA against pure reference computations:

- the Chi and motor-gated Psi keystreams;
- the step-count vector that walks the wheel settings through a run;
- the comparator panel's threshold masks;
- the expected counter values of a short run and of the chi-3/chi-4 setting run.

This project models the following, and proves their properties:

- The configuration codecs: Q-panel units and their text form, stepping flags, set-total
  thresholds.
- Command framing and the response parser with its echo check.
- The cam-pattern chunking, and the session methods that send commands and keep the
  step-count vector's state.
- The print-record decoder and the splitting of the printer contents into records.
- Two keystream reference models and the proof that they agree. The closed form builds
  the keystream with cumulative-sum gather indices; the simulation moves the wheels one
  sprocket at a time.
- The step-count-vector stepping rule and the closed-form counts the tests expect.
- The comparator reference.
- The expected counts of `test_pipeline.py` and of the chi-3/chi-4 enumeration, including
  the coprime-length coverage argument of the both-fast run.
- The client's bit packing, handshake sequencing and line dispatch. Its output is proved
  to parse back through the Python parser.

Modules, one per file:

- `Wrappers`: Option, Result and the Python exceptions.
- `Bits`: bit strings, most/least-significant-first values.
- `Text`: `int()`, `%02x`, decimal formatting, `split`.
- `Codecs`: configuration records and their registers.
- `Channel`: command lines and response parsing.
- `Client`: the Raspberry Pi client.
- `Wheels`: the closed-form keystream.
- `PsiExtension`: the step-by-step motor simulation and the equivalence proof.
- `StepCountVector`: the device's step-count vector.
- `Session`: the `Colossus` session object.
- `StepCountVectorTests`: the step-count-vector test scenarios.
- `PrintRecords`, `Comparator`, `Pipeline`, `Chi34`.

Some things have no in-repository definition and are modelled as state or parameters:

- The FPGA's side of the GPIO is a function from the trace of drive and wait events to
  the levels on the input pins.
- The session keeps the list of commands it has sent.
- The step-count vector's counts and configurations are the state of a class.
- Tapes and wheel patterns are arbitrary inputs.

Where the code and the prose documentation differ, the model follows the code. There are
three such places:

- The `from_string` docstrings speak of five-character pieces, but the code accepts any
  length.
- `PsiAndMu.letters` has no docstring. That it yields n letters is implied by the
  docstring of `impulse_stream_from_wheel` and by the psi-extension test, which compares
  `letters(n)` with `extend_psi(..., n)`. The code fails for n = 0.
- `read_step_count_vector_values_then_step` computes a default count for `n=None`, but
  then ignores it.

## Model

| member | source | states |
|---|---|---|
| Text.PyInt | tests/colossus.py:159-172 | `int(s, base)` succeeds iff, after stripping whitespace, an optional sign and an optional `0b`/`0x` prefix for base 2/16, a non-empty run of digits of the base remains; the value is those digits' value, negated after a `-`; a plain digit string reads as its value |
| Text.PyIntPrefixed | tests/colossus.py:44 | `int('0b' + ds, 2)` and `int('0x' + ds, 16)`, in either case of the prefix, are the value of the digits |
| Text.PyIntPrefixedNegative | tests/colossus.py:44 | a minus sign before a prefixed numeral negates its value |
| Text.Format02xFacts | tests/colossus.py:208-210 | `'{0:02x}'` of x is hex digits without whitespace that `int(_, 16)` reads back as x; it is exactly two characters iff x < 256 |
| Text.DecimalRoundTrip | rpi-client/client.cpp:70-75 | the decimal value `operator<<` prints has no whitespace and `int()` reads it back |
| Text.Split | tests/colossus.py:157 | `str.split()` yields only non-empty fields free of whitespace (contents: see Text.SplitWords) |
| Text.SplitWords | tests/colossus.py:157 | three non-empty words joined by single spaces split into exactly those three words |
| Text.SplitOn | tests/colossus.py:38 | `s.split(' ')` always yields at least one piece (contents: see Codecs.TopFromStringFacts, which reads the pieces) |
| Bits.MsbValueBit | tests/colossus.py:266 | `int(bits, 2)` puts character k of an n-bit string at bit n-1-k |
| Bits.LsbValueReverse | tests/colossus.py:259 | reading a reversed bit string most significant first is reading the original least significant first |
| Codecs.OrBit7 | tests/colossus.py:57 | `x \| 0x80` keeps bits 0-6 and bits 8 up of x, sets bit 7, and is x or x+128 |
| Codecs.TopCfg2 | tests/colossus.py:55-57 | top-unit `cfg_2` has bit 7 set iff `negate` or `counter_en` had it; the other bits are those of `counter_en` |
| Codecs.TopRegistersRoundTrip | tests/colossus.py:47-57 | for 0 <= `counter_en` < 128: `cfg_2` is a byte, is >= 128 iff `negate`, has `counter_en` as its low seven bits, and the three registers decode back to the configuration |
| Codecs.TopFromStringFails | tests/colossus.py:38-45 | top-unit `from_string` succeeds iff the first piece is non-empty, there are at least three pieces and the third is a binary numeral |
| Codecs.TopFromStringPrefixed | tests/colossus.py:44 | a counter-enable piece written with int()'s `0b`/`0B` prefix is accepted, and `counter_en` is the value of its binary digits |
| Codecs.TopFromStringFacts | tests/colossus.py:38-45 | character k sets `match_en` bit iff it is '0' or '1' and `match_tgt` bit iff it is '1'; the target lies within the enable mask; `negate` iff the operator is '!='; `counter_en` is the third piece in binary |
| Codecs.TargetWithinEnable | tests/colossus.py:39-42 | every bit set in the '1' mask of a piece is set in its '0'/'1' mask |
| Codecs.BottomCfg1 | tests/colossus.py:84-86 | bottom-unit `cfg_1` has bit 7 set iff `tgt` or `counter_en` had it; the other bits are those of `counter_en` |
| Codecs.BottomRegistersRoundTrip | tests/colossus.py:80-86 | for 0 <= `counter_en` < 128: `cfg_1` is a byte, is >= 128 iff `tgt`, and the two registers decode back to the configuration |
| Codecs.BottomFromStringFails | tests/colossus.py:73-78 | bottom-unit `from_string` succeeds iff the first piece is non-empty, there are at least three pieces and the third is binary |
| Codecs.BottomFromStringFacts | tests/colossus.py:73-78 | character k sets the `coeff` bit iff it is '1'; `tgt` iff the second piece is '1'; `counter_en` is the third piece in binary |
| Codecs.OnesMask | tests/colossus.py:74-75 | the mask built from a piece has bit \|p\|-1-k set iff character k is '1' |
| Codecs.NegatingFromStringFails | tests/colossus.py:100-105 | negating `from_string` succeeds iff both of its first two pieces exist and are non-empty |
| Codecs.NegatingFromStringFacts | tests/colossus.py:100-105 | each mask has bit \|piece\|-1-k set iff character k of its piece is '1' |
| Codecs.HalfOctet | tests/colossus.py:118-123 | `cfg_half_octet` lies in 0..15 |
| Codecs.HalfOctetRoundTrip | tests/colossus.py:118-123 | the four flags are read back from the nibble (fast = bit 3 ... ign_rpt = bit 0) |
| Codecs.HalfOctetInjective | tests/colossus.py:116-123 | two stepping configurations have the same nibble iff they are equal |
| Codecs.SetTotalCfg1NonNegative | tests/colossus.py:146-147 | `cfg_1` is non-negative iff the threshold is >= 0 with GT, >= -16384 with LT, >= -32768 with AlwaysTrue |
| Codecs.SetTotalRoundTrip | tests/colossus.py:139-150 | `cfg_0 + 256*cfg_1` = threshold + 16384*op for every threshold; below 2^14 both are bytes, `cfg_1 div 64` is the operation, and the registers decode back to the configuration |
| Channel.CommandTextLine | tests/colossus.py:206-210 | what `__call__` writes for any command is one line: its only newline is the last character, and the line before it is the echo the parser checks |
| Client.CommandTextDispatches | rpi-client/client.cpp:249-265 | for a command of bytes, the line `getline` reads from what `__call__` writes is dispatched by the client as the same command |
| Channel.EchoOfBytes | tests/colossus.py:158-161 | for byte-valued commands the formatted echo is whitespace-free and parses back to exactly the command tuple |
| Channel.ResponseFields | tests/colossus.py:157 | a response line splits into the echo, the quoted flag and the decimal value |
| Channel.FromCmdResponseAccepts | tests/colossus.py:156-173 | the parser accepts the line answering the same command and returns that command, the flag and the value |
| Channel.FromCmdResponseRejectsOtherEcho | tests/colossus.py:164-165 | an echo of a different command raises ValueError |
| Channel.FromCmdResponseRejectsWide | tests/colossus.py:158-165 | a command with a field >= 256 is echoed with more than two digits per field and is always rejected |
| Channel.FromCmdResponseRejectsFlag | tests/colossus.py:166-171 | an error field other than `'0'` or `'1'` raises ValueError |
| Channel.AwaitResponse | tests/colossus.py:215-221 | the first line carrying the marker is parsed and earlier lines are skipped; None iff no line carries it |
| Channel.DoCmd | tests/colossus.py:223-227 | `do_cmd` fails iff the error flag is set, and the failure is RuntimeError; otherwise it returns the response byte |
| Client.ShiftOut | rpi-client/client.cpp:199-203 | for an eight-bit value, `val & 0x80` is its top bit and the `uint8_t` shift drops it and appends a zero |
| Client.ReadDriven | rpi-client/client.cpp:181-205 | reading back the levels `_drive_8bit_signal` left on a pin vector gives the byte driven |
| Client.ScanHex2 | rpi-client/client.cpp:254-259 | `%02x` scanning of two characters gives a byte |
| Client.ScanHex2OfFormat | rpi-client/client.cpp:254-259 | scanning the two hex digits of a byte gives the byte |
| Client.DispatchEcho | rpi-client/client.cpp:251-265 | the line the harness writes for a byte command is dispatched as the same command: four characters as address+data, two as data |
| Client.ClientLineShape | rpi-client/client.cpp:249-268 | for a command line the client prints the marker, the line, the quoted flag, the decimal value and a newline |
| Client.ClientAnswerParses | rpi-client/client.cpp:267-268 | the marker matches the client's answer to a byte command, and `from_cmd_response` parses it back to that command, the flag read from the error pin and the byte read from the response pins |
| Client.ResponseLineOneLine | rpi-client/client.cpp:267-268 | a response line holds no newline |
| Client.WideAnswerRejected | rpi-client/client.cpp:243-265 | for a command with a field >= 256 the client answers with a marked line, `?` or the line with a response, and the parser rejects that answer |
| Client.DispatchedLineMarked | rpi-client/client.cpp:249-265 | a dispatched line without spaces is answered with the marker, the line and the response |
| Client.QuestionMarkRejected | rpi-client/client.cpp:263-264 | a line of any length other than 2 or 4 is answered `?`, which the parser rejects for every command |
| Client.RpiClient.constructor | rpi-client/client.cpp:135-149 | nothing is driven and no event has happened yet |
| Client.RpiClient.Drive1 | rpi-client/client.cpp:207-213 | the pin is set iff the value is nonzero, and the drive is logged |
| Client.RpiClient.DriveByte | rpi-client/client.cpp:195-205 | pin k carries bit 7-k of the value, the drives are logged in pin order, and no other pin changes |
| Client.RpiClient.ReadByte | rpi-client/client.cpp:181-193 | the result is the levels of the pins read with pins[0] most significant, and is below 256 |
| Client.RpiClient.WaitForBusy | rpi-client/client.cpp:226-232 | the wait is logged and no output changes |
| Client.RpiClient.Handshake | rpi-client/client.cpp:151-157 | req high, wait for busy, req low, wait for not busy; req is left low |
| Client.RpiClient.DriveDataAddrMuxd | rpi-client/client.cpp:215-219 | the byte goes on the multiplexed pins, then the select line is driven |
| Client.RpiClient.CurrentResponse | rpi-client/client.cpp:175-179 | the response is the error pin and the response byte the FPGA presents now |
| Client.RpiClient.SubmitData | rpi-client/client.cpp:159-164 | data with select high, a handshake, then the response; the data is left on the bus and req low |
| Client.RpiClient.SubmitAddrData | rpi-client/client.cpp:166-173 | the address with select low and a handshake come before the data submission; the response is read after it; the data is left on the bus, select high and req low |
| Client.RpiClient.ServeLine | rpi-client/client.cpp:243-271 | one input line produces exactly the GPIO events of its dispatch, and the marker followed by `?` or by the line and the response |
| Client.RpiClient.Serve | rpi-client/client.cpp:238-271 | the banner, then one answer per input line in order; the events are those of each line in turn |
| Wheels.LetterFromCams | tests/wheels.py:20-25 | `letter_from_impulses` of five bits is below 32, reads them most significant first, and impulse k is bit 4-k |
| Wheels.Tile | tests/wheels.py:30 | `np.tile` has reps * \|w\| elements (contents: see Wheels.TileAt) |
| Wheels.TileAt | tests/wheels.py:30 | element i of the tiled wheel is w[i mod \|w\|] |
| Wheels.ImpulseStream | tests/wheels.py:27-31 | `impulse_stream_from_wheel(w, n)` has length n (contents: see Wheels.ImpulseStreamAt and Wheels.ImpulseStreamIsTile) |
| Wheels.ImpulseStreamAt | tests/wheels.py:27-31 | element i of the stream is w[i mod \|w\|] |
| Wheels.ImpulseStreamIsTile | tests/wheels.py:29-31 | the stream is the first n elements of ceil(n / \|w\|) copies of the wheel |
| Wheels.RotWheel | tests/wheels.py:33-38 | `rot_wheel` keeps the length (contents: see Wheels.RotWheelAt and Wheels.RotWheelBeyond) |
| Wheels.RotWheelAt | tests/wheels.py:33-38 | for n <= \|w\|, element i of `rot_wheel(w, n)` is w[(i+n) mod \|w\|] |
| Wheels.RotWheelBeyond | tests/wheels.py:38 | a rotation by at least the length leaves the wheel as it is, as the slices do |
| Wheels.Rotated | tests/wheels.py:44 | `zip` stops at the shorter of the wheels and the settings |
| Wheels.Impulses | tests/wheels.py:47 | one stream of n impulses per wheel |
| Wheels.LetterStream | tests/wheels.py:48 | n letters, each in 0..31 |
| Wheels.Chi.Letters | tests/wheels.py:46-48 | `Chi.letters(n)` is n letters, each in 0..31 |
| Wheels.RotatedStreamAt | tests/wheels.py:27-38 | the stream of a wheel rotated by s reads cam (i+s) mod L at position i |
| Wheels.ChiLettersAt | tests/wheels.py:41-48 | letter i of `Chi(chi, s).letters(n)` is formed from `chi[k][(i + s_k) mod L_k]` for k = 0..4 |
| Wheels.PrefixSums | tests/wheels.py:63 | the cumulative sum with a leading 0 adds cam j at step j and never exceeds the position |
| Wheels.PrefixSumsCount | tests/wheels.py:63 | entry j of the cumulative sum is the number of 1s among the first j cams |
| Wheels.Gather | tests/wheels.py:64 | fancy indexing gives s[idx[j]] at position j |
| Wheels.PsiAndMu.Mu1Indices | tests/wheels.py:61-63 | n Mu-37 gather indices, each below n (values: see Wheels.Mu1IndicesCount) |
| Wheels.PsiAndMu.ExtMu1 | tests/wheels.py:62-64 | the extended Mu-37 stream has n elements (contents: see PsiExtension.Mu1IndicesAre) |
| Wheels.PsiAndMu.PsiIndices | tests/wheels.py:68 | n Psi gather indices, each below n (values: see Wheels.PsiIndicesCount and Wheels.PsiIndicesShape) |
| Wheels.PsiAndMu.UnextPsi | tests/wheels.py:66-67 | the unextended Psi letter stream has n letters (contents: see PsiExtension.ClosedLetterAt) |
| Wheels.Mu1IndicesCount | tests/wheels.py:60-64 | the Mu-37 index at position j is the number of 1s among the first j cams of the Mu-61 stream |
| Wheels.PsiIndicesCount | tests/wheels.py:65-69 | the Psi index at position i is the number of 1s among the first i extended Mu-37 bits |
| Wheels.PsiIndicesShape | tests/wheels.py:68-69 | Psi indices start at 0, never decrease, rise by at most 1 per position, and stay <= the position |
| PsiExtension.HeadLetter | tests/test_psi_extension.py:31-38 | `psi_letter` is below 32 and has the head cam of ψ1 as bit 4 down to ψ5 as bit 0 |
| PsiExtension.StepPsi | tests/test_psi_extension.py:44 | stepping the Psi wheels keeps every length |
| PsiExtension.MoveMotor | tests/test_psi_extension.py:40-47 | a move keeps the wheel lengths |
| PsiExtension.Extended | tests/test_psi_extension.py:54-59 | `extend_psi` gives n letters below 32, the first being the initial letter |
| PsiExtension.ExtendedAt | tests/test_psi_extension.py:54-59 | letter k is the letter shown after k moves |
| PsiExtension.PsiAndMu.constructor | tests/test_psi_extension.py:23-29 | stores the Psi wheels and the caller's Mu list itself |
| PsiExtension.PsiAndMu.Create | tests/test_psi_extension.py:23-29 | ValueError unless the Psi lengths are 43, 47, 51, 53, 59 and the Mu lengths 61, 37; otherwise a new object over the caller's lists |
| PsiExtension.PsiAndMu.PsiLetter | tests/test_psi_extension.py:31-38 | below 32, with the head of ψ1 most significant |
| PsiExtension.PsiAndMu.Move | tests/test_psi_extension.py:40-47 | the state becomes one motor move of the old state, written through to the caller's Mu list |
| PsiExtension.PsiAndMu.PsiLetterThenMove | tests/test_psi_extension.py:49-52 | returns the letter from before the move, then moves |
| PsiExtension.PsiAndMu.ExtendPsi | tests/test_psi_extension.py:54-59 | ValueError on wrong lengths with Mu untouched; otherwise the n simulated letters, and the caller's Mu wheels are left moved on by n sprockets |
| PsiExtension.Mu61Rotates | tests/test_psi_extension.py:47 | after k moves Mu-61 is the original rotated left by k |
| PsiExtension.Mu61AfterMoves | tests/test_psi_extension.py:47 | after k moves Mu-61 equals `rot_wheel(mu61, k mod 61)` |
| PsiExtension.Mu37Rotates | tests/test_psi_extension.py:45-46 | after k moves Mu-37 is rotated by the number of 1s Mu-61 showed in its first k positions |
| PsiExtension.Mu37Move | tests/test_psi_extension.py:45-46 | a move rotates Mu-37 iff Mu-61's head cam, read before Mu-61 moves, is 1 |
| PsiExtension.PsiMove | tests/test_psi_extension.py:43-44 | a move rotates each Psi wheel iff Mu-37's head cam, read before Mu-37 moves, is 1 |
| PsiExtension.PsiRotates | tests/test_psi_extension.py:43-44 | after k moves every Psi wheel is rotated by the number of 1s Mu-37 showed in its first k positions |
| PsiExtension.LetterAfter | tests/test_psi_extension.py:31-47 | the letter after k moves is formed from cam (Psi offset mod L) of each original Psi wheel |
| PsiExtension.HeadAfter | tests/test_psi_extension.py:43-44 | the head of Psi wheel w after k moves is its original cam at the Psi offset |
| PsiExtension.ZeroSettings | tests/wheels.py:52-58 | `wheels.PsiAndMu` with all seven settings 0 keeps the wheels unrotated |
| PsiExtension.Mu1IndicesAre | tests/wheels.py:61-63 | the closed form's Mu-37 index j is the simulation's Mu-37 offset after j moves |
| PsiExtension.PsiIndicesAre | tests/wheels.py:63-68 | the closed form's Psi index i is the simulation's Psi offset after i moves |
| PsiExtension.ClosedLetterAt | tests/wheels.py:60-71 | closed-form letter i is formed from cam (Psi offset at i) of each Psi wheel |
| PsiExtension.ClosedEqualsExtended | tests/wheels.py:60-71 | for n >= 1 the closed-form letters equal the simulated letters |
| PsiExtension.ClosedAgreesAt | tests/wheels.py:60-71 | closed-form letter i equals simulated letter i |
| PsiExtension.ClosedFormAgrees | tests/test_psi_extension.py:54-59 | with all settings 0, `letters(n)` equals `extend_psi(psi, mu, n)` for n >= 1 and fails for n = 0 |
| StepCountVector.Len | tests/colossus.py:183-186 | every wheel has at least one cam |
| StepCountVector.Step | tests/test_step_count_vector.py:39-99 | one pulse leaves unflagged wheels alone and keeps every count below its wheel's length |
| StepCountVector.Run | tests/test_step_count_vector.py:39-99 | repeated pulses keep every count below its wheel's length |
| StepCountVector.StepCountVector.constructor | tests/test_step_count_vector.py:29-32 | all counts 0, all configurations cleared |
| StepCountVector.StepCountVector.Reset | tests/colossus.py:505-506 | all counts 0, configurations unchanged |
| StepCountVector.StepCountVector.SetConfig | tests/colossus.py:525-526 | only wheel w's configuration changes |
| StepCountVector.StepCountVector.Next | tests/colossus.py:508-509 | the counts advance by one pulse of the stepping rule |
| StepCountVector.StepCountVector.ReadEnded | tests/test_step_count_vector.py:156-162 | 1 iff every wheel not flagged ignore is at 0, else 0 |
| StepCountVector.StepCountVector.EmitCmds | tests/test_step_count_vector.py:112-118 | the 16-byte broadcast carries the twelve current counts, each a valid setting of its wheel, framed as the test expects (the frame is taken as device behaviour, see Left out) |
| StepCountVector.Pulses | tests/test_step_count_vector.py:95-97 | the number of triggering pulses among the first n is at most n |
| StepCountVector.RunFromZero | tests/test_step_count_vector.py:39-99 | from zero, a fast wheel counts n mod L, a slow wheel counts the triggering pulses mod L, others stay 0 |
| StepCountVector.PulsesOfOne | tests/test_step_count_vector.py:55-57 | with one fast+trigger wheel F, n pulses trigger n div L_F times |
| StepCountVector.NoPulses | tests/test_step_count_vector.py:68-76 | without a fast+trigger wheel nothing ever triggers |
| StepCountVector.LongRun | tests/test_step_count_vector.py:39-60 | F fast+trigger and S slow: count_F = i mod L_F, count_S = (i div L_F) mod L_S, others 0 |
| StepCountVector.UntriggeredRun | tests/test_step_count_vector.py:63-78 | F fast only: count_F = i mod L_F and every other wheel, S included, stays 0 |
| StepCountVector.EitherWraps | tests/test_step_count_vector.py:95-97 | the number of pulses 1..n at which either fast wheel wraps is at most n |
| StepCountVector.FrenziedPulses | tests/test_step_count_vector.py:95-97 | with two fast+trigger wheels, a pulse triggers once when either wraps (OR) and pulse 0 never triggers |
| StepCountVector.FrenziedRun | tests/test_step_count_vector.py:81-99 | counts 4 and 3 are i mod L; count 2 is the number of pulses 1..i where either wraps, mod 29; others 0 |
| StepCountVector.FastOnlyStep | tests/colossus.py:493-495 | with only wheel i fast, a pulse advances wheel i by one modulo its length and nothing else |
| StepCountVector.FastOnlyRun | tests/colossus.py:493-495 | with only wheel i fast, n pulses advance it by n modulo its length |
| StepCountVector.NzAt | tests/test_step_count_vector.py:121-125 | `_nzat` fails with IndexError iff an index is >= 12; else 3 at the listed wheels, 0 elsewhere |
| StepCountVector.NzCounts | tests/test_step_count_vector.py:121-125 | twelve counts (values: see StepCountVector.NzAt) |
| StepCountVector.IgnAt | tests/test_step_count_vector.py:127-131 | `_ignat` fails iff an index is >= 12; else twelve flags, set exactly at the listed wheels |
| StepCountVector.IgnoreCfgs | tests/test_step_count_vector.py:158-160 | twelve configurations (flags: see StepCountVector.IgnAt) |
| StepCountVector.EndedTable | tests/test_step_count_vector.py:133-162 | `ended` with counts from `_nzat` and flags from `_ignat` is 1 iff every nonzero wheel is ignored (all ten rows) |
| StepCountVectorTests.SteppingPretest | tests/test_step_count_vector.py:29-32 | after clearing the configurations and resetting, all twelve counts read 0 |
| StepCountVectorTests.LongRunStepping | tests/test_step_count_vector.py:39-60 | row i read is count_F = i mod L_F, count_S = (i div L_F) mod L_S, 0 elsewhere |
| StepCountVectorTests.UntriggeredLongRunStepping | tests/test_step_count_vector.py:63-78 | row i read is count_F = i mod L_F, 0 elsewhere |
| StepCountVectorTests.FrenziedFantasyStepping | tests/test_step_count_vector.py:81-99 | row i read matches the expected columns for wheels 4, 3 and 2, 0 elsewhere |
| StepCountVectorTests.HalfCounts | tests/test_step_count_vector.py:105 | half of each cam count is a valid count for that wheel |
| StepCountVectorTests.CommandStream | tests/test_step_count_vector.py:102-118 | the loaded values read back as the targets, and the broadcast is [0, 0x2d, 0x3f, t_0..t_11, 0] |
| StepCountVectorTests.NextEnded | tests/test_step_count_vector.py:156-162 | `ended` reads 1 iff every wheel given a nonzero count is ignored, 0 iff one is not |
| Session.PadLength | tests/colossus.py:260-263 | fewer than 8 zeros pad the pattern to a multiple of 8 |
| Session.Padded | tests/colossus.py:259-264 | the padded pattern has a length that is a multiple of 8 |
| Session.Octets | tests/colossus.py:265-266 | one byte per eight bits |
| Session.OctetsValue | tests/colossus.py:265-266 | the bytes read as one big-endian number are the bits read most significant first |
| Session.PatternOctetsCams | tests/colossus.py:258-267 | ceil(L/8) bytes; as a big-endian number, bit i is `pattern[i]` for i < L, and the padding bits above are 0 |
| Session.LoadedCounts | tests/colossus.py:486-496 | the counts loading leaves are all below the wheel lengths |
| Session.LoadedCountsExact | tests/colossus.py:486-496 | a target below its wheel's length is loaded exactly, and wheels beyond the targets stay 0 |
| Session.UpToWide | tests/colossus.py:206-222 | the commands written when a list is issued in turn: all of them when every field is a byte, otherwise a prefix ending at a wide command with only bytes before it |
| Session.UpToWideAt | tests/colossus.py:206-222 | with the first wide command at j, the commands written are the first j + 1 |
| Session.DataCmdsBytes | tests/colossus.py:265-267 | bytes sent to one address are all within range iff the address is < 256 or there are none |
| Session.PatternCmdsBytes | tests/colossus.py:258-267 | a pattern loads without a wide command iff its control address is < 256 or it is empty |
| Session.WideFirstOctet | tests/colossus.py:265-267 | with a control address >= 256 only the first chunk is written |
| Session.Colossus.constructor | tests/colossus.py:202-204 | sends the stepping, step-count-configuration and set-total resets, in that order; the vector's configurations are cleared |
| Session.Colossus.Send | tests/colossus.py:206-222 | the command is written; ValueError iff one of its fields is >= 256 |
| Session.Colossus.LoadWheelPattern | tests/colossus.py:258-267 | sends the pattern's bytes, one command each, to the control address; with a control address >= 256 and a non-empty pattern, ValueError after the first command |
| Session.Colossus.SendOctets | tests/colossus.py:265-267 | sends one command per 8-bit chunk, in order, stopping with ValueError at the first wide one |
| Session.Colossus.SendOctet | tests/colossus.py:266-267 | one pass of the chunk loop sends the next chunk; ValueError iff the control address is >= 256 |
| Session.Colossus.LoadCamWheel | tests/colossus.py:445-446 | loads the pattern at control address 170 + 2*wheel; ValueError iff the wheel is >= 43 and the pattern non-empty |
| Session.Colossus.SetCamWheelStepping | tests/colossus.py:452-455 | IndexError for a wheel >= 12, and ValueError iff the step count is >= the wheel's cam count, both before anything is sent; otherwise exactly one command to 171 + 2*wheel |
| Session.Colossus.ResetAllStepping | tests/colossus.py:448-450 | step count 0 sent to every wheel in order |
| Session.Colossus.SetQPanelTopUnitCfg | tests/colossus.py:289-293 | `cfg_0`, `cfg_1` and `cfg_2` sent to 80 + 3*unit onwards, up to and including the first with a field >= 256, which raises ValueError |
| Session.Colossus.SetQPanelBottomUnitCfg | tests/colossus.py:297-300 | `cfg_0` and `cfg_1` sent to 110 + 2*unit onwards, up to and including the first with a field >= 256, which raises ValueError |
| Session.Colossus.SetQPanelNegatingCfg | tests/colossus.py:302-305 | the two masks sent to 120 and 121, up to and including the first >= 256, which raises ValueError |
| Session.Colossus.ResetQPanelCfg | tests/colossus.py:307-315 | zeros sent to the 42 registers from 80 up, in order |
| Session.Colossus.SetSetTotalConfig | tests/colossus.py:425-428 | `cfg_0` and `cfg_1` sent to 130 + 2*counter and the next address, up to and including the first with a field >= 256, which raises ValueError |
| Session.Colossus.ResetAllSetTotalConfigs | tests/colossus.py:421-423 | `NeverPrint` sent to every counter |
| Session.Colossus.SetStepCountVectorConfig | tests/colossus.py:525-526 | the nibble sent to 224 + wheel; only that wheel's configuration changes |
| Session.Colossus.ResetAllStepCountVectorConfigs | tests/colossus.py:528-531 | every configuration cleared, the counts kept |
| Session.Colossus.ResetStepCountVector | tests/colossus.py:505-506 | all counts 0 |
| Session.Colossus.NextStepCountVector | tests/colossus.py:508-509 | one pulse of the stepping rule |
| Session.Colossus.ReadStepCountVectorValues | tests/colossus.py:498-500 | returns the twelve counts, reading addresses 236/0..11 |
| Session.Colossus.ReadStepCountVectorEnded | tests/colossus.py:502-503 | 1 iff every non-ignored wheel is at 0 |
| Session.Colossus.ReadValuesThenStep | tests/colossus.py:511-514 | returns the counts from before the pulse, then pulses |
| Session.Colossus.ReadStepCountVectorValuesThenStep | tests/colossus.py:516-519 | row i is the state after i pulses; the state ends after n pulses |
| Session.Colossus.EmitCmdsStepCountVector | tests/colossus.py:521-523 | the broadcast frame: 0, 0x2d, 0x3f, the counts, 0 |
| Session.Colossus.LoadWheel | tests/colossus.py:493-496 | wheel i fast, n pulses, wheel i cleared: count_i becomes n mod L_i, and the other counts are kept |
| Session.Colossus.LoadTarget | tests/colossus.py:492-496 | one pass of the target loop extends the loaded prefix by one wheel |
| Session.Colossus.SetStepCountVectorValues | tests/colossus.py:486-496 | configurations cleared, the vector reset, then each target loaded in turn; the counts equal the loaded targets |
| PrintRecords.LittleEndian16 | tests/colossus.py:550 | the `uint16` view has half as many entries |
| PrintRecords.FromOctets | tests/colossus.py:542-552 | ValueError iff the record is not 23 octets |
| PrintRecords.FromOctetsFields | tests/colossus.py:548-550 | octet 0 is `body_id`, octets 1..12 the settings, counter k = o[13+2k] + 256*o[14+2k] |
| PrintRecords.Encode | tests/colossus.py:539 | a record is encoded in 23 octets |
| PrintRecords.DecodeEncode | tests/colossus.py:542-552 | decoding an encoded record gives it back |
| PrintRecords.EncodeDecode | tests/colossus.py:542-552 | encoding a decoded record gives the octets back |
| PrintRecords.ReadRecords | tests/colossus.py:391-396 | an assertion failure iff the length is not a multiple of 23; otherwise one record per 23 octets |
| PrintRecords.EncodeAll | tests/colossus.py:391-396 | the contents for k records are 23k octets |
| PrintRecords.RecordAtEncodeAll | tests/colossus.py:395-396 | record k read back is the k-th record written |
| PrintRecords.ReadRecordsRoundTrip | tests/colossus.py:391-396 | splitting the concatenated encodings gives the records back, in order |
| Comparator.PerformCmp1 | tests/test_comparator_panel.py:27-33 | 1 iff x > y for GT, 1 iff x < y for LT, always 1 for AlwaysTrue |
| Comparator.CmpVector | tests/test_comparator_panel.py:36 | one comparison per counter, as long as the shortest input (`zip`) |
| Comparator.PerformCmps | tests/test_comparator_panel.py:35-38 | the mask is below 2^m for m comparisons |
| Comparator.PerformCmpsBits | tests/test_comparator_panel.py:35-38 | comparison i sits in bit m-1-i; higher bits are 0 |
| Comparator.PerformCmpsFiveCounters | tests/test_comparator_panel.py:35-38 | for five counters the mask is below 32, with counter 0 in bit 4 and counter 4 in bit 0 |
| Comparator.PerformCmpsZero | tests/test_comparator_panel.py:35-38 | the mask is 0 iff no comparison is 1 |
| Comparator.PrintRequired | tests/test_comparator_panel.py:54 | `print_required` is 1 iff some comparison under the configured operations is 1 |
| Comparator.Repeat | tests/test_comparator_panel.py:45-48 | five copies of an operation |
| Comparator.Expected | tests/test_comparator_panel.py:41-54 | all three masks are below 32, and `print_required` is 1 iff the print-required mask is nonzero |
| Comparator.ExpectedBits | tests/test_comparator_panel.py:45-53 | the GT and LT masks do not depend on the configured operations and never share a set bit; each print-required bit is the GT bit, the LT bit or 1, as the operation selects |
| Comparator.EqualThresholds | tests/test_comparator_panel.py:66-73 | thresholds equal to the counts give GT = LT = 0; printing is required iff some operation is AlwaysTrue |
| Comparator.AllAlwaysTrue | tests/test_comparator_panel.py:27-38 | all-AlwaysTrue operations give mask 0x1f and `print_required` 1 |
| Comparator.OverMask | tests/test_comparator_panel.py:78 | offsets -10, 10, 10, -10, -10 give GT mask 0x13 |
| Comparator.UnderMask | tests/test_comparator_panel.py:78 | offsets -10, 10, 10, -10, -10 give LT mask 0x0c |
| Comparator.OverUnderThresholds | tests/test_comparator_panel.py:78-82 | with those thresholds GT = 0x13 and LT = 0x0c whatever the operations |
| Pipeline.CountCross | tests/test_pipeline.py:68-70 | the count over n positions is at most n |
| Pipeline.ExpectedCount | tests/test_pipeline.py:61-70 | ZeroDivisionError for an empty chi-1 pattern; an assertion failure iff the tape length is not a multiple of the pattern length; otherwise a count of at most the tape length |
| Pipeline.ChiAt | tests/test_pipeline.py:63-66 | the reference cam at tape position i is chi_1[(i+s) mod L] |
| Pipeline.CountCrossIsCard | tests/test_pipeline.py:68-70 | the count is the number of positions where impulse 1 differs |
| Pipeline.ExpectedCountClosedForm | tests/test_pipeline.py:61-70 | for s <= L, `expected_count` = #{i : bit 4 of zs[i] != chi_1[(i+s) mod L]}; a larger s leaves the pattern unrotated |
| Pipeline.ShortRunSchedule | tests/test_pipeline.py:37-49 | with only chi 1 fast, the settings run 0, 1, ..., 40 with the other wheels at 0, and the vector first reads as ended again after 41 pulses |
| Chi34.Xor | tests/test_chi34_setting_run.py:34 | xor of two bits is 1 iff they differ |
| Chi34.DeltaStream | tests/test_chi34_setting_run.py:33-34 | `delta_stream(x)` has length \|x\|-1, and element i is 0 iff x[i+1] = x[i] (values: see Chi34.DeltaAt) |
| Chi34.IntegrateDelta | tests/test_chi34_setting_run.py:33-34 | the first element and the delta stream determine the stream |
| Chi34.DeltaIntegrate | tests/test_chi34_setting_run.py:33-34 | the delta of the stream integrated from b and d is d |
| Chi34.DeltaAt | tests/test_chi34_setting_run.py:34 | element i of the delta is x[i+1] xor x[i] |
| Chi34.CountZeros | tests/test_chi34_setting_run.py:54 | the zero count is at most the length |
| Chi34.CountZerosIsCard | tests/test_chi34_setting_run.py:54 | the count is the number of zero positions |
| Chi34.Chi34Wheels | tests/test_chi34_setting_run.py:48 | the chi wheels at settings [0, 0, chi3, chi4, 0] are well formed |
| Chi34.Stream34 | tests/test_chi34_setting_run.py:49-53 | impulse 3 xor impulse 4 of the de-chi has one bit per tape letter |
| Chi34.Stream34At | tests/test_chi34_setting_run.py:48-53 | position i combines bits 2 and 1 of z[i] with chi 3 at cam (i+c3) mod L3 and chi 4 at cam (i+c4) mod L4 |
| Chi34.Dot3p4 | tests/test_chi34_setting_run.py:52-54 | `dot3p4` is at most the tape length less one |
| Chi34.ZeroSetOfDelta | tests/test_chi34_setting_run.py:33-34 | the zeros of the delta are the positions where the stream repeats |
| Chi34.Dot3p4Counts | tests/test_chi34_setting_run.py:52-54 | `dot3p4` is the number of positions i where impulse 3+4 at i+1 repeats that at i |
| Chi34.Scores | tests/test_chi34_setting_run.py:46-54 | one row per chi-4 setting with one score per chi-3 setting |
| Chi34.ScoresAt | tests/test_chi34_setting_run.py:46-54 | entry [c4][c3] is `dot3p4` at those settings |
| Chi34.PairAt | tests/test_chi34_setting_run.py:46-47 | record k of the nested loop is chi4 = k div L3, chi3 = k mod L3 |
| Chi34.Pairs | tests/test_chi34_setting_run.py:46-56 | the nested loop makes L4 * L3 records, record k being the k-th pair |
| Chi34.Enumerate | tests/test_chi34_setting_run.py:46-56 | 26 * 29 = 754 candidates for the real wheel lengths |
| Chi34.PairsSorted | tests/test_chi34_setting_run.py:44-47 | the records come in strictly increasing (chi4, chi3) order |
| Chi34.PairsMembers | tests/test_chi34_setting_run.py:46-56 | a record appears iff its settings are in range and it carries that pair's score |
| Chi34.ExpResults | tests/test_chi34_setting_run.py:37-58 | the nested loops followed by the filter give the filtered enumeration |
| Chi34.EnumerateMembers | tests/test_chi34_setting_run.py:46-56 | a candidate is enumerated iff it is an in-range setting pair with its own score |
| Chi34.Filter | tests/test_chi34_setting_run.py:58 | the filter never lengthens the list |
| Chi34.FilterMembers | tests/test_chi34_setting_run.py:58 | a record is kept iff it was there and its count is below 7873 |
| Chi34.FilterSorted | tests/test_chi34_setting_run.py:58 | the filter keeps the order |
| Chi34.ExpectedResultsFacts | tests/test_chi34_setting_run.py:37-58 | the expected results are strictly sorted by (chi4, chi3) and hold exactly the in-range pairs scoring below 7873 |
| Chi34.SortedUnique | tests/test_chi34_setting_run.py:66-67 | two strictly sorted lists with the same members are equal |
| Chi34.Visited | tests/sample_long_run.py:65-70 | the pair held after each pulse, scored |
| Chi34.EndedOnChi34 | tests/sample_long_run.py:43-53 | with only chi 3 and chi 4 moving, the vector has ended iff both are 0 |
| Chi34.FastSlowSchedule | tests/sample_long_run.py:50-53 | in fast/slow mode, after i pulses chi 3 = i mod 29 and chi 4 = (i div 29) mod 26; ended iff i is a multiple of 754 |
| Chi34.FastSlowRecords | tests/test_chi34_setting_run.py:63-69 | in fast/slow mode the device's records over one 754-pulse run equal the expected results, in order |
| Chi34.CrtIndexOfResidues | tests/sample_long_run.py:45-48 | a pulse number below 754 is recovered from its residues mod 29 and mod 26 |
| Chi34.CrtResidues | tests/sample_long_run.py:45-48 | every residue pair (a, b) is reached by a pulse below 754 |
| Chi34.CrtZero | tests/sample_long_run.py:45-48 | a pulse number is 0 mod 29 and 0 mod 26 iff it is 0 mod 754 |
| Chi34.BothFastSchedule | tests/sample_long_run.py:45-48 | in both-fast mode, after i pulses chi 3 = i mod 29 and chi 4 = i mod 26; ended iff i is a multiple of 754 |
| Chi34.BothFastDistinct | tests/sample_long_run.py:45-48 | the 754 pulses hold 754 distinct pairs |
| Chi34.BothFastVisit | tests/sample_long_run.py:45-48 | every pair visited in both-fast mode is an in-range setting with its own score |
| Chi34.VisitAtIsSetting | tests/sample_long_run.py:69-70 | a vector with chi 3 and chi 4 in range holds a setting pair scored as the reference scores it |
| Chi34.BothFastSound | tests/sample_long_run.py:45-48 | every visited pair is a real setting pair |
| Chi34.BothFastComplete | tests/sample_long_run.py:45-48 | every setting pair is visited |
| Chi34.BothFastRecords | tests/test_chi34_setting_run.py:63-69 | in both-fast mode, any strictly sorted list with the device records' members equals the expected results |

## Left out

- Process and file I/O are not modelled. This covers the monitor subprocess, the FIFOs
  and the READY-FOR-INPUT wait in `Colossus.__init__`, the spool files, and the pickle
  loads. The lines the harness reads are a parameter of `AwaitResponse`. The tape and
  the wheel patterns are parameters.
- GPIO hardware is not modelled. There is no `bcm2835` set-up and no real polling in
  `_wait_for_busy`. A wait is an event in the trace, and the FPGA is a function from the
  trace to the input levels.
- The FPGA logic itself is not part of this model. This leaves out what the device
  replies, Q-panel combining, the Q selector, tape snooping, counters, latches, the
  scheduler and unknown-address errors. The acknowledgement bytes that callers of
  `do_cmd` assert are left out too, so a session method records the commands it sends
  and keeps only the step-count vector's state.
- The step-count vector's stepping rule has no source in this repository. The rule used
  is the one every test formula fixes:
  - a fast wheel advances by one each pulse;
  - a wheel both fast and trigger fires on the pulse that wraps it to 0;
  - every slow wheel advances once when any wheel fires;
  - `ended` ignores wheels flagged ignore.
- The body-id lanes of `test_short_run` are left out. The same goes for its counter
  values: counters 1..4 equal to the tape length, and counter 0 equal to
  `expected_count`. These are device behaviour; the expected counts themselves are
  `Pipeline.ExpectedCount`.
- In the chi-3/chi-4 run, the device's counter 4 is taken to be `dot3p4` of the pair the
  step-count vector holds. `Chi34.VisitAt` makes that assumption, because the counting
  hardware is not part of this model.
- Randomness in the tests (`np.random`, `punch_random_tape`) is left out. Tapes and
  patterns are arbitrary inputs. `tests/wheel_patterns.py` is a fixture and is not part
  of this model.
- Python's `sorted(..., key=nth(1, 0))` is not modelled as an algorithm. It is
  characterised by its result: a list strictly sorted by (chi4, chi3) with the same
  members. `Chi34.SortedUnique` shows there is only one such list.
- The `n=None` path of `read_step_count_vector_values_then_step` is left out because it
  raises (`range(None)`). Only a given n is modelled.
- `np.ceil(n / size)` appears only as an integer ceiling and is modelled as
  `(n + size - 1) / size`. No floating point is modelled.
- The native-endian `uint16` view in `from_octets` is modelled as little-endian.
- Text.PyInt models `int(s, base)` as surrounding whitespace (stripped), an optional
  sign, the optional `0b`/`0x` prefix of an explicit base 2 or 16, and ASCII digits.
  Underscores between digits and non-ASCII digits are not modelled; the harness never
  writes them.
- Client.ScanHex2: lines with non-hex characters are out of scope, because the harness
  writes only `'{0:02x}'` fields (see `Client.DispatchEcho`). The model's value for such
  lines is arbitrary (it reads a non-hex character as digit 0), where `sscanf` would stop
  at the character or accept a sign.
- The concrete parser examples of `tests/test_q_panel_unit_cfg_parsers.py` are not
  restated one by one. The general `from_string` lemmas cover them.
- `Wheels.ImpulseStream` is defined cyclically. `Wheels.ImpulseStreamIsTile` proves that
  it equals the `np.tile` form. It requires a non-empty wheel, because `w.size == 0`
  divides by zero.
- Wheels.PsiAndMu requires five Psi and two Mu wheels, all non-empty (`Valid`). This
  applies to `Mu1Indices`, `ExtMu1`, `PsiIndices`, `UnextPsi`, `Letters` and the lemmas
  about them. With fewer Mu wheels `self.mu[1]` raises IndexError. With fewer Psi wheels
  `letter_from_impulses` raises IndexError. An empty wheel divides by zero in
  `impulse_stream_from_wheel`. The psi-extension test always passes five Psi and two Mu
  wheels.
- `Wheels.Chi.Letters` requires five non-empty wheels. `letter_from_impulses` reads five
  streams, and an empty wheel divides by zero.
- Session.Colossus.SetQPanelTopUnitCfg requires `counter_en >= 0`. A negative value
  would be formatted with a minus sign by `'%02x'`, and the model keeps command fields
  non-negative.
- Session.Colossus.SetQPanelBottomUnitCfg requires `counter_en >= 0`, for the same
  reason.
- Session.Colossus.SetSetTotalConfig requires `cfg_1 >= 0`. By
  `Codecs.SetTotalCfg1NonNegative` that excludes every negative threshold with GT, a
  threshold below -16384 with LT, and one below -32768 with AlwaysTrue. Python accepts
  these: `'{0:02x}'` writes the field with a minus sign, and the echo check reads it back
  unchanged. The model keeps command fields non-negative.
- Session.Colossus.SetStepCountVectorConfig requires a wheel index below 12. The device
  state has only twelve wheels. Python would send the command to any address.
- Session.Colossus.SetStepCountVectorValues requires at most twelve targets, for the
  same reason. A target of at least the wheel's length is loaded modulo the length,
  which is what pulsing does.
- Chi34.Stream34At requires settings no larger than the wheel lengths. Larger settings
  leave `rot_wheel` unrotated, which `Wheels.RotWheelBeyond` states separately.
- StepCountVectorTests.NextEnded requires indices below 12, the range that `_nzat`
  accepts. `StepCountVector.NzAt` models the failure on other indices.
- StepCountVector.StepCountVector.EmitCmds: the sixteen-byte frame (an idle 0, 0x2d, 0x3f,
  the counts, an idle 0) has no definition in this repository other than the list the
  test expects, so it is taken as device behaviour. The broadcast half of
  `StepCountVectorTests.CommandStream` therefore holds by that definition; what is proved
  is that the frame carries the loaded targets.
- StepCountVectorTests.LongRunStepping, UntriggeredLongRunStepping and
  FrenziedFantasyStepping prove the formulas for any n and for any pair of distinct
  wheels. They do not restate the four parametrised pairs one by one.
- `PsiExtension.PsiAndMu.Move` and `PsiLetterThenMove` model `self.mu` as the caller's
  array, so a move writes through to the caller's Mu list. `self.psi` is rebound and is
  modelled as a field holding a value.
