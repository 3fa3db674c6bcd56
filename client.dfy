/** The Raspberry Pi client of rpi-client/client.cpp: it reads command lines, drives the
    FPGA's eight-bit multiplexed address/data bus and request line over GPIO, waits on the
    busy line, reads back the error flag and the eight response bits, and prints one
    response line per command. GPIO is abstracted as a map of driven output levels, a
    trace of drive and wait events, and a function giving the levels the FPGA presents on
    the input pins after a given trace. */
module Client {
  import opened Wrappers
  import opened Bits
  import opened Text
  import opened Channel

  /** A pin, by its number on the Raspberry Pi's P1 header. */
  type Pin = nat

  /** The levels the FPGA presents on the input pins. */
  type Levels = Pin -> bool

  // Eight-bit pin vectors list the most significant bit (7) first.
  const DataAddrMuxdPins: seq<Pin> := [31, 33, 35, 37, 32, 36, 38, 26]
  const DataAddrSelPin: Pin := 29
  const ReqPin: Pin := 40
  const BusyPin: Pin := 11
  const ResponseErrPin: Pin := 13
  const ResponsePins: seq<Pin> := [15, 19, 21, 23, 16, 18, 22, 24]

  predicate Distinct(pins: seq<Pin>)
  {
    forall i, j :: 0 <= i < j < |pins| ==> pins[i] != pins[j]
  }

  /** Printed once the GPIO set-up is done, before any command is read. */
  const Banner := "READY-FOR-INPUT\n"

  datatype Response = Response(errorP: bool, value: nat)

  /** `Response()` delegates to `Response(false, 0)`. */
  const DefaultResponse := Response(false, 0)

  /** `operator<<(os, response)`: the quoted error flag, a space, the value in decimal. */
  function ResponseText(r: Response): string
  {
    (if r.errorP then "'1' " else "'0' ") + Decimal(r.value)
  }

  /** A GPIO event: driving an output pin, or waiting until the busy input reads a level. */
  datatype Event = Drive(pin: Pin, high: bool) | AwaitBusy(high: bool)

  /** Driving each pin to its bit, in order. */
  function DriveBits(pins: seq<Pin>, bits: seq<Bit>): seq<Event>
    requires |pins| == |bits|
  {
    if |pins| == 0 then []
    else DriveBits(pins[..|pins| - 1], bits[..|bits| - 1]) + [Drive(pins[|pins| - 1], bits[|bits| - 1] == 1)]
  }

  /** The levels driven for a byte, bit 7 on pins[0] down to bit 0 on pins[7]. */
  function DriveByteEvents(pins: seq<Pin>, val: nat): seq<Event>
    requires |pins| == 8
  {
    DriveBits(pins, ToMsbBits(val, 8))
  }

  /** `_handshake`: raise req, wait for busy, drop req, wait for busy to clear. */
  function HandshakeEvents(): seq<Event>
  {
    [Drive(ReqPin, true), AwaitBusy(true), Drive(ReqPin, false), AwaitBusy(false)]
  }

  /** `_drive_data_addr_muxd(value, sel)` followed by `_handshake()`. */
  function SubmitEvents(value: nat, sel: bool): seq<Event>
  {
    DriveByteEvents(DataAddrMuxdPins, value) + [Drive(DataAddrSelPin, sel)] + HandshakeEvents()
  }

  /** The input levels of a pin vector as bits. */
  function ReadLevels(levels: Levels, pins: seq<Pin>): (r: seq<Bit>)
    ensures |r| == |pins|
  {
    seq(|pins|, k requires 0 <= k < |pins| => if levels(pins[k]) then 1 else 0)
  }

  /** `_response()`: the error pin and the response byte, pins[0] most significant. */
  function ResponseFrom(levels: Levels): Response
  {
    Response(levels(ResponseErrPin), MsbValue(ReadLevels(levels, ResponsePins)))
  }

  /** An eight-bit value is its top bit times 128 plus the value of the other seven. */
  lemma TopBitSplit(s: seq<Bit>)
    requires |s| == 8
    ensures MsbValue(s) == 128 * (s[0] as int) + MsbValue(s[1..]) && MsbValue(s[1..]) < 128
  {
    MsbValueAppend([s[0]], s[1..]);
    assert [s[0]] + s[1..] == s;
    assert MsbValue([s[0]]) == s[0] by { assert [s[0]][..0] == []; }
    MsbValueBound(s[1..]);
    assert Pow2(7) == 128;
  }

  /** Appending a zero bit doubles the value. */
  lemma AppendZero(s: seq<Bit>)
    ensures MsbValue(s + [0]) == 2 * MsbValue(s)
  {
    var t: seq<Bit> := s + [0];
    assert t[..|s|] == s;
  }

  /** Shifting an eight-bit value left: its top bit goes out and a zero comes in. */
  lemma ShiftOut(s: seq<Bit>)
    requires |s| == 8
    ensures MsbValue(s) < 256
    ensures MsbValue(s) >= 128 <==> s[0] == 1
    ensures (MsbValue(s) * 2) % 256 == MsbValue(s[1..] + [0])
  {
    TopBitSplit(s);
    AppendZero(s[1..]);
    DoubleWraps(s[0] as nat, MsbValue(s[1..]));
  }

  /** Doubling 128b + v, for a bit b and v below 128, wraps to 2v modulo 256. */
  lemma DoubleWraps(b: nat, v: nat)
    requires b <= 1 && v < 128
    ensures 128 * b + v < 256 && (128 * b + v >= 128 <==> b == 1)
    ensures ((128 * b + v) * 2) % 256 == 2 * v
  {
    if b == 1 {
      assert (128 * b + v) * 2 == 256 + 2 * v;
    }
  }

  class RpiClient {
    /** The level last driven on each output pin. */
    var outputs: map<Pin, bool>
    /** Every drive and every wait, in order. */
    var trace: seq<Event>
    /** What the FPGA presents on the inputs once it has seen a trace. */
    const device: seq<Event> -> Levels

    /** The GPIO set-up of `Colossus()`; nothing is driven yet. */
    constructor (device: seq<Event> -> Levels)
      ensures this.device == device && outputs == map[] && trace == []
    {
      this.device := device;
      outputs := map[];
      trace := [];
    }

    /** `_drive_1bit_signal`: set the pin for a nonzero value, clear it otherwise. */
    method Drive1(pin: Pin, val: nat)
      modifies this
      ensures outputs == old(outputs)[pin := val != 0]
      ensures trace == old(trace) + [Drive(pin, val != 0)]
    {
      outputs := outputs[pin := val != 0];
      trace := trace + [Drive(pin, val != 0)];
    }

    /** `_drive_8bit_signal`: for each pin, drive the top bit of `val` and shift `val` left
        as a uint8_t, so pins[k] carries bit 7-k. */
    method DriveByte(pins: seq<Pin>, val: nat)
      requires |pins| == 8 && Distinct(pins) && val < 256
      modifies this
      ensures trace == old(trace) + DriveByteEvents(pins, val)
      ensures forall k :: 0 <= k < 8 ==> pins[k] in outputs && outputs[pins[k]] == (BitAt(val, 7 - k) == 1)
      ensures forall p :: p !in pins ==> (p in outputs <==> p in old(outputs))
      ensures forall p :: p !in pins && p in outputs ==> outputs[p] == old(outputs)[p]
    {
      ghost var bits := ToMsbBits(val, 8);
      ghost var m := outputs;
      MsbValueOfToMsbBits(val, 8);
      assert bits[0..] + Zeros(0) == bits;
      var v := val;
      var k := 0;
      while k < |pins|
        invariant 0 <= k <= 8
        invariant v == MsbValue(bits[k..] + Zeros(k))
        invariant trace == old(trace) + DriveBits(pins[..k], bits[..k])
        invariant outputs == Driven(m, pins, bits, k)
      {
        DriveLoopStep(pins, bits, k, v);
        var high := v >= 128;  // val & 0x80 on a uint8_t
        outputs := outputs[pins[k] := high];
        trace := trace + [Drive(pins[k], high)];
        v := (v * 2) % 256;
        k := k + 1;
      }
      assert pins[..8] == pins && bits[..8] == bits;
      DrivenByte(m, pins, val);
    }

    /** `_read_8bit_signal`: shift the value left as a uint8_t and OR in each pin's level,
        so pins[0] ends up as the most significant bit. */
    method ReadByte(pins: seq<Pin>) returns (value: nat)
      requires |pins| == 8
      ensures value == MsbValue(ReadLevels(device(trace), pins)) && value < 256
    {
      var levels := device(trace);
      ghost var bits := ReadLevels(levels, pins);
      value := 0;
      var k := 0;
      while k < |pins|
        invariant 0 <= k <= 8
        invariant value == MsbValue(bits[..k])
      {
        MsbValueBound(bits[..k]);
        assert Pow2(k) <= 128 by {
          if k < 7 { PowMonotone(k, 7); }
        }
        value := (value * 2) % 256;    // value <<= 1
        if levels(pins[k]) {
          value := value + 1;          // value |= 0x01: bit 0 is clear after the shift
        }
        assert bits[..k + 1][..k] == bits[..k];
        k := k + 1;
      }
      assert bits[..8] == bits;
      MsbValueBound(bits);
    }

    /** `_wait_for_busy`: spins until the busy input reads the target; recorded as an event. */
    method WaitForBusy(target: bool)
      modifies this
      ensures outputs == old(outputs) && trace == old(trace) + [AwaitBusy(target)]
    {
      trace := trace + [AwaitBusy(target)];
    }

    method Handshake()
      modifies this
      ensures trace == old(trace) + HandshakeEvents()
      ensures outputs == old(outputs)[ReqPin := false]
    {
      Drive1(ReqPin, 1);
      WaitForBusy(true);
      Drive1(ReqPin, 0);
      WaitForBusy(false);
    }

    /** `_drive_data_addr_muxd`: the byte on the multiplexed pins, then the select line. */
    method DriveDataAddrMuxd(value: nat, sel: nat)
      requires value < 256
      modifies this
      ensures trace == old(trace) + DriveByteEvents(DataAddrMuxdPins, value) + [Drive(DataAddrSelPin, sel != 0)]
      ensures forall k :: 0 <= k < 8 ==> DataAddrMuxdPins[k] in outputs && outputs[DataAddrMuxdPins[k]] == (BitAt(value, 7 - k) == 1)
      ensures DataAddrSelPin in outputs && outputs[DataAddrSelPin] == (sel != 0)
    {
      DriveByte(DataAddrMuxdPins, value);
      Drive1(DataAddrSelPin, sel);
    }

    method CurrentResponse() returns (r: Response)
      ensures r == ResponseFrom(device(trace)) && r.value < 256
    {
      var value := ReadByte(ResponsePins);
      r := Response(device(trace)(ResponseErrPin), value);
    }

    /** `submit_data`: a data byte (select high), a handshake, then the response. */
    method SubmitData(data: nat) returns (r: Response)
      requires data < 256
      modifies this
      ensures trace == old(trace) + SubmitEvents(data, true)
      ensures r == ResponseFrom(device(trace)) && r.value < 256
      ensures forall k :: 0 <= k < 8 ==> DataAddrMuxdPins[k] in outputs && outputs[DataAddrMuxdPins[k]] == (BitAt(data, 7 - k) == 1)
      ensures DataAddrSelPin in outputs && outputs[DataAddrSelPin]
      ensures ReqPin in outputs && !outputs[ReqPin]
    {
      DriveDataAddrMuxd(data, 1);
      Handshake();
      assert forall k :: 0 <= k < 8 ==> DataAddrMuxdPins[k] != ReqPin;
      r := CurrentResponse();
    }

    /** `submit_addr_data`: the address (select low) and a handshake, then `submit_data`;
        the response is read again afterwards, from the same levels. */
    method SubmitAddrData(addr: nat, data: nat) returns (r: Response)
      requires addr < 256 && data < 256
      modifies this
      ensures trace == old(trace) + SubmitEvents(addr, false) + SubmitEvents(data, true)
      ensures r == ResponseFrom(device(trace)) && r.value < 256
      ensures forall k :: 0 <= k < 8 ==> DataAddrMuxdPins[k] in outputs && outputs[DataAddrMuxdPins[k]] == (BitAt(data, 7 - k) == 1)
      ensures DataAddrSelPin in outputs && outputs[DataAddrSelPin]
      ensures ReqPin in outputs && !outputs[ReqPin]
    {
      DriveDataAddrMuxd(addr, 0);
      Handshake();
      var _ := SubmitData(data);
      r := CurrentResponse();
    }

    /** One pass of the loop of `main`: the marker, then '?' for a line that is not a
        command, or the line and the response once the command has been submitted. */
    method ServeLine(line: string) returns (text: string)
      modifies this
      ensures trace == old(trace) + LineEvents(line)
      ensures text == LineOutput(line, device(trace))
    {
      var response := DefaultResponse;
      var validP := false;
      text := Marker;
      if |line| == 4 {
        var addr, data := ScanHex2(line[..2]), ScanHex2(line[2..]);
        response := SubmitAddrData(addr, data);
        validP := true;
        assert LineEvents(line) == SubmitEvents(addr, false) + SubmitEvents(data, true);
      } else if |line| == 2 {
        var data := ScanHex2(line);
        response := SubmitData(data);
        validP := true;
        assert LineEvents(line) == SubmitEvents(data, true);
      } else {
        text := text + "?\n";
      }
      if validP {
        assert Dispatch(line).Some? && response == ResponseFrom(device(trace));
        text := text + (line + " " + ResponseText(response) + "\n");
      } else {
        assert Dispatch(line).None?;
      }
    }

    /** The loop of `main`: after the ready banner, one output line per input line. */
    method Serve(lines: seq<string>) returns (out: string)
      modifies this
      ensures out == Banner + ServeOutput(device, old(trace), lines)
      ensures trace == old(trace) + ServeEvents(lines)
    {
      out := Banner;
      var i := 0;
      assert lines[..0] == [];
      while i < |lines|
        invariant 0 <= i <= |lines|
        invariant out == Banner + ServeOutput(device, old(trace), lines[..i])
        invariant trace == old(trace) + ServeEvents(lines[..i])
      {
        var text := ServeLine(lines[i]);
        ServeStep(device, old(trace), lines, i, trace, text);
        ConcatAssoc(Banner, ServeOutput(device, old(trace), lines[..i]), text);
        out := out + text;
        i := i + 1;
      }
      assert lines[..|lines|] == lines;
    }
  }

  lemma ServeStep(device: seq<Event> -> Levels, trace0: seq<Event>, lines: seq<string>, i: nat,
                  trace: seq<Event>, text: string)
    requires i < |lines|
    requires trace == trace0 + ServeEvents(lines[..i]) + LineEvents(lines[i])
    requires text == LineOutput(lines[i], device(trace))
    ensures trace == trace0 + ServeEvents(lines[..i + 1])
    ensures ServeOutput(device, trace0, lines[..i + 1]) == ServeOutput(device, trace0, lines[..i]) + text
  {
    assert lines[..i + 1] == lines[..i] + [lines[i]];
    ServeEventsSnoc(lines[..i], lines[i]);
    ConcatAssoc(trace0, ServeEvents(lines[..i]), LineEvents(lines[i]));
    ServeOutputSnoc(device, trace0, lines[..i], lines[i]);
  }

  lemma ConcatAssoc<T>(a: seq<T>, b: seq<T>, c: seq<T>)
    ensures a + b + c == a + (b + c)
  {
  }

  lemma ServeEventsSnoc(lines: seq<string>, line: string)
    ensures ServeEvents(lines + [line]) == ServeEvents(lines) + LineEvents(line)
  {
    var ls := lines + [line];
    assert ls[..|ls| - 1] == lines;
  }

  lemma ServeOutputSnoc(device: seq<Event> -> Levels, trace0: seq<Event>, lines: seq<string>, line: string)
    ensures ServeOutput(device, trace0, lines + [line])
         == ServeOutput(device, trace0, lines) + LineOutput(line, device(trace0 + ServeEvents(lines + [line])))
  {
    var ls := lines + [line];
    assert ls[..|ls| - 1] == lines;
  }


  /** The output map after driving the first k bits on their pins. */
  ghost function Driven(m: map<Pin, bool>, pins: seq<Pin>, bits: seq<Bit>, k: nat): map<Pin, bool>
    requires k <= |pins| && k <= |bits|
  {
    if k == 0 then m else Driven(m, pins, bits, k - 1)[pins[k - 1] := bits[k - 1] == 1]
  }

  lemma {:induction false} DrivenFacts(m: map<Pin, bool>, pins: seq<Pin>, bits: seq<Bit>, k: nat)
    requires Distinct(pins) && k <= |pins| && k <= |bits|
    ensures forall j :: 0 <= j < k ==> pins[j] in Driven(m, pins, bits, k) && Driven(m, pins, bits, k)[pins[j]] == (bits[j] == 1)
    ensures forall p :: p !in pins[..k] ==> (p in Driven(m, pins, bits, k) <==> p in m)
    ensures forall p :: p !in pins[..k] && p in Driven(m, pins, bits, k) ==> Driven(m, pins, bits, k)[p] == m[p]
  {
    if k > 0 {
      DrivenFacts(m, pins, bits, k - 1);
      assert pins[..k] == pins[..k - 1] + [pins[k - 1]];
    }
  }

  lemma DriveBitsSnoc(pins: seq<Pin>, bits: seq<Bit>, k: nat)
    requires k < |pins| == |bits|
    ensures DriveBits(pins[..k + 1], bits[..k + 1]) == DriveBits(pins[..k], bits[..k]) + [Drive(pins[k], bits[k] == 1)]
  {
    assert pins[..k + 1][..k] == pins[..k] && bits[..k + 1][..k] == bits[..k];
  }

  /** The outputs after driving the eight bits of val, most significant first. */
  lemma DrivenByte(m: map<Pin, bool>, pins: seq<Pin>, val: nat)
    requires |pins| == 8 && Distinct(pins)
    ensures var d := Driven(m, pins, ToMsbBits(val, 8), 8);
      && (forall k :: 0 <= k < 8 ==> pins[k] in d && d[pins[k]] == (BitAt(val, 7 - k) == 1))
      && (forall p :: p !in pins ==> (p in d <==> p in m))
      && (forall p :: p !in pins && p in d ==> d[p] == m[p])
  {
    var bits := ToMsbBits(val, 8);
    DrivenFacts(m, pins, bits, 8);
    assert pins[..8] == pins;
    forall k | 0 <= k < 8
      ensures bits[k] == BitAt(val, 7 - k)
    {
      ToMsbBitsAt(val, 8, k);
    }
  }

  /** One shift of `_drive_8bit_signal`, on the remaining bits followed by zeros. */
  /** One pass of the loop of `_drive_8bit_signal`: the top bit of the shifted value is
      bit k, the shift leaves the bits after it, and the drive extends the events. */
  lemma DriveLoopStep(pins: seq<Pin>, bits: seq<Bit>, k: nat, v: nat)
    requires |pins| == 8 && |bits| == 8 && k < 8 && v == MsbValue(bits[k..] + Zeros(k))
    ensures (v >= 128) == (bits[k] == 1)
    ensures (v * 2) % 256 == MsbValue(bits[k + 1..] + Zeros(k + 1))
    ensures DriveBits(pins[..k + 1], bits[..k + 1]) == DriveBits(pins[..k], bits[..k]) + [Drive(pins[k], v >= 128)]
  {
    DriveStep(bits, k);
    DriveBitsSnoc(pins, bits, k);
  }

  lemma DriveStep(bits: seq<Bit>, k: nat)
    requires |bits| == 8 && k < 8
    ensures MsbValue(bits[k..] + Zeros(k)) >= 128 <==> bits[k] == 1
    ensures (MsbValue(bits[k..] + Zeros(k)) * 2) % 256 == MsbValue(bits[k + 1..] + Zeros(k + 1))
  {
    var s := bits[k..] + Zeros(k);
    ShiftOut(s);
    assert s[0] == bits[k];
    assert s[1..] + [0] == bits[k + 1..] + Zeros(k + 1);
  }

  /** The levels of the driven pins, as read back by a pin wired to them. */
  function Loopback(outputs: map<Pin, bool>): Levels
  {
    p => p in outputs && outputs[p]
  }

  /** Reading the levels `_drive_8bit_signal` left on a pin vector returns the byte driven. */
  lemma ReadDriven(pins: seq<Pin>, val: nat, outputs: map<Pin, bool>)
    requires |pins| == 8 && val < 256
    requires forall k :: 0 <= k < 8 ==> pins[k] in outputs && outputs[pins[k]] == (BitAt(val, 7 - k) == 1)
    ensures MsbValue(ReadLevels(Loopback(outputs), pins)) == val
  {
    var bits := ReadLevels(Loopback(outputs), pins);
    forall k | 0 <= k < 8
      ensures bits[k] == ToMsbBits(val, 8)[k]
    {
      ToMsbBitsAt(val, 8, k);
    }
    assert bits == ToMsbBits(val, 8);
    MsbValueOfToMsbBits(val, 8);
  }

  lemma PowMonotone(a: nat, b: nat)
    requires a <= b
    ensures Pow2(a) <= Pow2(b)
  {
    if a < b { PowMonotone(a, b - 1); }
  }

  function HexOrZero(c: char): nat
  {
    if IsDigit(c, 16) then DigitValue(c).value else 0
  }

  /** `sscanf(_, "%02x", _)` on two hexadecimal digits. */
  function ScanHex2(s: string): (r: nat)
    requires |s| == 2
    ensures r < 256
  {
    16 * HexOrZero(s[0]) + HexOrZero(s[1])
  }

  /** The switch of `main` on the line length: four characters are an address and a data
      byte, two are a data byte, anything else is not a command. */
  function Dispatch(line: string): Option<Command>
  {
    if |line| == 4 then Some(AddrData(ScanHex2(line[..2]), ScanHex2(line[2..])))
    else if |line| == 2 then Some(DataOnly(ScanHex2(line)))
    else None
  }

  function LineEvents(line: string): seq<Event>
  {
    match Dispatch(line)
    case None => []
    case Some(DataOnly(d)) => SubmitEvents(d, true)
    case Some(AddrData(a, d)) => SubmitEvents(a, false) + SubmitEvents(d, true)
  }

  /** What `main` prints for one line, given the levels the FPGA then presents. */
  function LineOutput(line: string, levels: Levels): string
  {
    Marker + (if Dispatch(line).None? then "?\n" else line + " " + ResponseText(ResponseFrom(levels)) + "\n")
  }

  function ServeEvents(lines: seq<string>): seq<Event>
  {
    if |lines| == 0 then [] else ServeEvents(lines[..|lines| - 1]) + LineEvents(lines[|lines| - 1])
  }

  function ServeOutput(device: seq<Event> -> Levels, trace0: seq<Event>, lines: seq<string>): string
  {
    if |lines| == 0 then ""
    else
      ServeOutput(device, trace0, lines[..|lines| - 1])
      + LineOutput(lines[|lines| - 1], device(trace0 + ServeEvents(lines)))
  }

  lemma ScanHex2OfFormat(x: nat)
    requires x < 256
    ensures |Format02x(x)| == 2 && ScanHex2(Format02x(x)) == x
  {
    Format02xFacts(x);
    if x >= 16 {
      assert HexDigits(x) == [HexChar(x / 16), HexChar(x % 16)];
    }
  }

  /** The line `__call__` writes for a command of bytes, less the newline `getline`
      drops, is dispatched by `main` as the same command. */
  lemma DispatchEcho(cmd: Command)
    requires cmd.IsBytes()
    ensures Dispatch(CommandEcho(cmd)) == Some(cmd)
  {
    match cmd
    case DataOnly(v) =>
      assert cmd.Tuple()[0] == v;
      ScanHex2OfFormat(v);
    case AddrData(a, d) =>
      assert cmd.Tuple()[0] == a && cmd.Tuple()[1] == d;
      ScanHex2OfFormat(a);
      ScanHex2OfFormat(d);
      assert CommandEcho(cmd)[..2] == Format02x(a) && CommandEcho(cmd)[2..] == Format02x(d);
  }

  /** What `__call__` writes for a command of bytes reaches `main` through `getline` as the
      echo line, which `main` dispatches as the same command. */
  lemma CommandTextDispatches(cmd: Command)
    requires cmd.IsBytes()
    ensures UpToNewline(CommandText(cmd)) == CommandEcho(cmd)
    ensures Dispatch(UpToNewline(CommandText(cmd))) == Some(cmd)
  {
    CommandTextLine(cmd);
    DispatchEcho(cmd);
  }

  /** A marker line is matched up to its newline. */
  lemma MarkerLine(body: string)
    requires forall i :: 0 <= i < |body| ==> body[i] != '\n'
    ensures MatchMarker(Marker + body + "\n") == Some(body)
  {
    var line := Marker + body + "\n";
    assert line[..|Marker|] == Marker && line[|Marker|..] == body + "\n";
    NewlineCut(body);
  }

  /** The client's answer to a command of bytes is accepted by `from_cmd_response`, which
      recovers the error flag and the value the client read from the response pins. */
  lemma ClientAnswerParses(cmd: Command, levels: Levels)
    requires cmd.IsBytes()
    ensures var r := ResponseFrom(levels);
      MatchMarker(LineOutput(CommandEcho(cmd), levels)) == Some(ResponseLine(CommandEcho(cmd), r.errorP, r.value))
      && FromCmdResponse(cmd, ResponseLine(CommandEcho(cmd), r.errorP, r.value)) == Ok(ColossusResponse(cmd, r.errorP, r.value))
  {
    ClientLineMarked(cmd, levels);
    var r := ResponseFrom(levels);
    FromCmdResponseAccepts(cmd, r.errorP, r.value);
  }

  /** The line the client prints for a command of bytes is the marker, the response line
      and a newline. */
  lemma ClientLineMarked(cmd: Command, levels: Levels)
    requires cmd.IsBytes()
    ensures var r := ResponseFrom(levels);
      MatchMarker(LineOutput(CommandEcho(cmd), levels)) == Some(ResponseLine(CommandEcho(cmd), r.errorP, r.value))
  {
    var e := CommandEcho(cmd);
    var r := ResponseFrom(levels);
    ClientLineShape(cmd, levels);
    EchoOfBytes(cmd);
    ResponseLineOneLine(e, r.errorP, r.value);
    MarkerLine(ResponseLine(e, r.errorP, r.value));
  }

  /** For a command of bytes the client prints the marker, the echo, the response and a
      newline. */
  lemma ClientLineShape(cmd: Command, levels: Levels)
    requires cmd.IsBytes()
    ensures var r := ResponseFrom(levels);
      LineOutput(CommandEcho(cmd), levels) == Marker + ResponseLine(CommandEcho(cmd), r.errorP, r.value) + "\n"
  {
    var e := CommandEcho(cmd);
    DispatchEcho(cmd);
    var r := ResponseFrom(levels);
    assert e + " " + ResponseText(r) == ResponseLine(e, r.errorP, r.value);
  }

  /** A response line for an echo without whitespace holds no newline. */
  lemma ResponseLineOneLine(echo: string, errorP: bool, value: nat)
    requires NoSpace(echo)
    ensures NoNewline(ResponseLine(echo, errorP, value))
  {
    var d := Decimal(value);
    DecimalFacts(value);
    var mid := " " + (if errorP then "'1'" else "'0'") + " ";
    assert NoNewline(mid);
    assert NoNewline(echo) by {
      forall i | 0 <= i < |echo| ensures echo[i] != '\n' { assert !IsSpace(echo[i]); }
    }
    assert NoNewline(d) by {
      forall i | 0 <= i < |d| ensures d[i] != '\n' { assert !IsSpace(d[i]); }
    }
    NoNewlineConcat(echo, mid);
    NoNewlineConcat(echo + mid, d);
    assert ResponseLine(echo, errorP, value) == echo + mid + d;
  }

  predicate NoNewline(s: string)
  {
    forall i :: 0 <= i < |s| ==> s[i] != '\n'
  }

  lemma NoNewlineConcat(a: string, b: string)
    requires NoNewline(a) && NoNewline(b)
    ensures NoNewline(a + b)
  {
    forall i | 0 <= i < |a + b|
      ensures (a + b)[i] != '\n'
    {
      if i < |a| {
        assert (a + b)[i] == a[i];
      } else {
        assert (a + b)[i] == b[i - |a|];
      }
    }
  }


  /** A command with a field of 256 or more cannot complete: whatever the client answers
      for its line, '?' or the line with a response, `from_cmd_response` rejects it. */
  lemma WideAnswerRejected(cmd: Command, levels: Levels)
    requires !cmd.IsBytes()
    ensures MatchMarker(LineOutput(CommandEcho(cmd), levels)).Some?
    ensures FromCmdResponse(cmd, MatchMarker(LineOutput(CommandEcho(cmd), levels)).value).Err?
  {
    var e := CommandEcho(cmd);
    if Dispatch(e).None? {
      QuestionMarkRejected(e, levels, cmd);
    } else {
      var r := ResponseFrom(levels);
      EchoNoSpace(cmd);
      DispatchedLineMarked(e, levels);
      FromCmdResponseRejectsWide(cmd, r.errorP, r.value);
    }
  }

  /** A dispatched line without whitespace is answered with its response line. */
  lemma DispatchedLineMarked(line: string, levels: Levels)
    requires Dispatch(line).Some? && NoSpace(line)
    ensures var r := ResponseFrom(levels);
      MatchMarker(LineOutput(line, levels)) == Some(ResponseLine(line, r.errorP, r.value))
  {
    var r := ResponseFrom(levels);
    assert line + " " + ResponseText(r) == ResponseLine(line, r.errorP, r.value);
    ResponseLineOneLine(line, r.errorP, r.value);
    assert LineOutput(line, levels) == Marker + ResponseLine(line, r.errorP, r.value) + "\n";
    MarkerLine(ResponseLine(line, r.errorP, r.value));
  }

  /** A line of any other length is answered with '?', which `from_cmd_response` rejects
      for every command: it holds one field, not three. */
  lemma QuestionMarkRejected(line: string, levels: Levels, cmd: Command)
    requires |line| != 2 && |line| != 4
    ensures MatchMarker(LineOutput(line, levels)) == Some("?")
    ensures FromCmdResponse(cmd, "?").Err?
  {
    var out := LineOutput(line, levels);
    assert out == Marker + "?\n";
    assert out[..|Marker|] == Marker && out[|Marker|..] == "?\n";
    assert UpToNewline("?\n") == "?" by { assert "?\n"[1..] == "\n"; }
    assert NoSpace("?");
    SplitOne("?");
  }
}
