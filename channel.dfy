/** The command channel of tests/colossus.py: the text `Colossus.__call__` writes for a
    command, the search for the response line, `ColossusResponse.from_cmd_response` with
    its echo check, and `do_cmd`'s error check. */
module Channel {
  import opened Wrappers
  import opened Text

  /** A command tuple: `(addr_or_data,)` or `(addr, data)`. */
  datatype Command = DataOnly(value: nat) | AddrData(addr: nat, data: nat)
  {
    function Tuple(): seq<int>
    {
      match this
      case DataOnly(v) => [v]
      case AddrData(a, d) => [a, d]
    }

    /** Every component fits in a byte, as all the session's commands do. */
    predicate IsBytes()
    {
      forall i :: 0 <= i < |Tuple()| ==> Tuple()[i] < 256
    }
  }

  /** The command line without its newline: '{0:02x}' or '{0:02x}{1:02x}'. */
  function CommandEcho(c: Command): string
  {
    match c
    case DataOnly(v) => Format02x(v)
    case AddrData(a, d) => Format02x(a) + Format02x(d)
  }

  /** The text `__call__` writes to the device for a command. */
  function CommandText(c: Command): string
  {
    CommandEcho(c) + "\n"
  }

  datatype ColossusResponse = ColossusResponse(cmd: Command, errorP: bool, responseByte: int)

  const Marker := "COLOSSUS-RESPONSE: "

  /** `re.match('^COLOSSUS-RESPONSE: (.*)', line)`: the rest of the line after the marker,
      up to the first newline (which `.` does not match). */
  function MatchMarker(line: string): Option<string>
  {
    if |line| >= |Marker| && line[..|Marker|] == Marker
    then Some(UpToNewline(line[|Marker|..]))
    else None
  }

  function UpToNewline(s: string): (r: string)
    ensures |r| <= |s| && r == s[..|r|] && forall i :: 0 <= i < |r| ==> r[i] != '\n'
    ensures |r| < |s| ==> s[|r|] == '\n'
  {
    if |s| == 0 || s[0] == '\n' then "" else [s[0]] + UpToNewline(s[1..])
  }

  lemma {:induction false} NewlineCut(body: string)
    requires forall i :: 0 <= i < |body| ==> body[i] != '\n'
    ensures UpToNewline(body + "\n") == body
  {
    if |body| > 0 {
      assert (body + "\n")[1..] == body[1..] + "\n";
      NewlineCut(body[1..]);
    }
  }

  /** The text written for any command is one line: it ends in the only newline it holds,
      and the line before it is the command's echo. */
  lemma CommandTextLine(c: Command)
    ensures |CommandText(c)| >= 3 && CommandText(c)[|CommandText(c)| - 1] == '\n'
    ensures forall i :: 0 <= i < |CommandText(c)| - 1 ==> CommandText(c)[i] != '\n'
    ensures UpToNewline(CommandText(c)) == CommandEcho(c)
  {
    var e := CommandEcho(c);
    match c {
      case DataOnly(v) =>
        Format02xFacts(v);
      case AddrData(a, d) =>
        Format02xFacts(a);
        Format02xFacts(d);
        NoSpaceConcat(Format02x(a), Format02x(d));
    }
    assert NoSpace(e);
    assert forall i :: 0 <= i < |e| ==> e[i] != '\n' by {
      forall i | 0 <= i < |e|
        ensures e[i] != '\n'
      {
        assert !IsSpace(e[i]);
      }
    }
    NewlineCut(e);
  }

  /** `int(s_cmd_echo, 16)` or the two halves of a four-character echo. */
  function EchoTuple(echo: string): Result<seq<int>>
  {
    if |echo| == 2 then
      match PyInt(echo, 16)
      case None => Err(ValueError)
      case Some(v) => Ok([v])
    else if |echo| == 4 then
      match (PyInt(echo[..2], 16), PyInt(echo[2..], 16))
      case (Some(a), Some(d)) => Ok([a, d])
      case _ => Err(ValueError)
    else Err(ValueError)
  }

  /** `ColossusResponse.from_cmd_response(cmd, line)`: exactly three whitespace-separated
      fields (`rstrip` does not change what `split` finds), an echo equal to the command
      tuple, an error flag written '0' or '1' in quotes, and a decimal response byte. */
  function FromCmdResponse(cmd: Command, line: string): Result<ColossusResponse>
  {
    var fields := Split(line);
    if |fields| != 3 then Err(ValueError)
    else
      match EchoTuple(fields[0])
      case Err(f) => Err(f)
      case Ok(echo) =>
        if echo != cmd.Tuple() then Err(ValueError)
        else if fields[1] != "'0'" && fields[1] != "'1'" then Err(ValueError)
        else
          match PyInt(fields[2], 10)
          case None => Err(ValueError)
          case Some(v) => Ok(ColossusResponse(cmd, fields[1] == "'1'", v))
  }

  /** The response line the client prints for a command line (after the marker). */
  function ResponseLine(echo: string, errorP: bool, value: nat): string
  {
    echo + " " + (if errorP then "'1'" else "'0'") + " " + Decimal(value)
  }

  lemma EchoOfBytes(c: Command)
    requires c.IsBytes()
    ensures EchoTuple(CommandEcho(c)) == Ok(c.Tuple())
    ensures |CommandEcho(c)| > 0 && NoSpace(CommandEcho(c))
  {
    match c
    case DataOnly(v) =>
      assert c.Tuple()[0] == v;
      Format02xFacts(v);
    case AddrData(a, d) =>
      assert c.Tuple()[0] == a && c.Tuple()[1] == d;
      Format02xFacts(a);
      Format02xFacts(d);
      var fa, fd := Format02x(a), Format02x(d);
      var e := fa + fd;
      assert e == CommandEcho(c);
      assert e[..2] == fa && e[2..] == fd;
      assert PyInt(e[..2], 16) == Some(a);
      assert PyInt(e[2..], 16) == Some(d);
      assert EchoTuple(e) == Ok([a, d]);
      assert forall i :: 0 <= i < |e| ==> e[i] == (if i < 2 then fa[i] else fd[i - 2]);
  }

  /** The parser accepts the line written for the command it is given, and gives back the
      error flag and the value. */
  lemma FromCmdResponseAccepts(c: Command, errorP: bool, value: nat)
    requires c.IsBytes()
    ensures FromCmdResponse(c, ResponseLine(CommandEcho(c), errorP, value))
         == Ok(ColossusResponse(c, errorP, value))
  {
    EchoOfBytes(c);
    ResponseFields(CommandEcho(c), errorP, value);
  }

  /** The three fields of a response line: the echo, the quoted flag and the decimal value. */
  lemma ResponseFields(echo: string, errorP: bool, value: nat)
    requires |echo| > 0 && NoSpace(echo)
    ensures var fields := Split(ResponseLine(echo, errorP, value));
      && fields == [echo, if errorP then "'1'" else "'0'", Decimal(value)]
      && (fields[1] == "'0'" || fields[1] == "'1'")
      && (fields[1] == "'1'" <==> errorP)
      && PyInt(fields[2], 10) == Some(value)
  {
    DecimalRoundTrip(value);
    var flag := if errorP then "'1'" else "'0'";
    assert NoSpace(flag);
    SplitWords(echo, flag, Decimal(value));
  }

  /** The echo check: a line answering a different command is rejected. */
  lemma FromCmdResponseRejectsOtherEcho(c: Command, other: Command, errorP: bool, value: nat)
    requires c.IsBytes() && other.IsBytes() && c != other
    ensures FromCmdResponse(c, ResponseLine(CommandEcho(other), errorP, value)).Err?
  {
    EchoOfBytes(other);
    ResponseFields(CommandEcho(other), errorP, value);
    TupleInjective(c, other);
  }

  /** Different commands have different tuples. */
  lemma TupleInjective(c: Command, other: Command)
    requires c != other
    ensures c.Tuple() != other.Tuple()
  {
  }

  /** A command with a component of 256 or more formats to an echo of the wrong length, or
      of the wrong shape, and is always rejected. */
  lemma FromCmdResponseRejectsWide(c: Command, errorP: bool, value: nat)
    requires !c.IsBytes()
    ensures FromCmdResponse(c, ResponseLine(CommandEcho(c), errorP, value)).Err?
  {
    var e := CommandEcho(c);
    var flag := if errorP then "'1'" else "'0'";
    assert NoSpace(flag);
    DecimalRoundTrip(value);
    EchoNoSpace(c);
    SplitWords(e, flag, Decimal(value));
    WideEchoMismatch(c);
  }

  lemma WideEchoMismatch(c: Command)
    requires !c.IsBytes()
    ensures EchoTuple(CommandEcho(c)).Err? || EchoTuple(CommandEcho(c)).value != c.Tuple()
  {
    var e := CommandEcho(c);
    match c
    case DataOnly(v) =>
      Format02xFacts(v);
      assert |e| != 2;
      assert EchoTuple(e).Ok? ==> |EchoTuple(e).value| == 2;
    case AddrData(a, d) =>
      assert a >= 256 || d >= 256 by { assert c.Tuple() == [a, d]; }
      Format02xFacts(a);
      Format02xFacts(d);
      assert |e| >= 5;
  }

  lemma EchoNoSpace(c: Command)
    ensures |CommandEcho(c)| > 0 && NoSpace(CommandEcho(c))
  {
    match c
    case DataOnly(v) =>
      Format02xFacts(v);
    case AddrData(a, d) =>
      Format02xFacts(a);
      Format02xFacts(d);
      NoSpaceConcat(Format02x(a), Format02x(d));
  }

  /** An error flag other than '0' or '1' in quotes is rejected. */
  lemma FromCmdResponseRejectsFlag(c: Command, flag: string, value: nat)
    requires c.IsBytes() && |flag| > 0 && NoSpace(flag) && flag != "'0'" && flag != "'1'"
    ensures FromCmdResponse(c, CommandEcho(c) + " " + flag + " " + Decimal(value)).Err?
  {
    EchoOfBytes(c);
    DecimalRoundTrip(value);
    SplitWords(CommandEcho(c), flag, Decimal(value));
  }

  /** The `while True: readline()` loop of `__call__`: the first line carrying the marker
      is parsed; None when no line does (the loop then never returns). */
  method AwaitResponse(cmd: Command, lines: seq<string>) returns (r: Option<Result<ColossusResponse>>)
    ensures r.None? <==> forall i :: 0 <= i < |lines| ==> MatchMarker(lines[i]).None?
    ensures r.Some? ==> exists i :: (0 <= i < |lines| && MatchMarker(lines[i]).Some?
      && (forall j :: 0 <= j < i ==> MatchMarker(lines[j]).None?)
      && r.value == FromCmdResponse(cmd, MatchMarker(lines[i]).value))
  {
    var i := 0;
    while i < |lines|
      invariant 0 <= i <= |lines|
      invariant forall j :: 0 <= j < i ==> MatchMarker(lines[j]).None?
    {
      var m := MatchMarker(lines[i]);
      if m.Some? {
        return Some(FromCmdResponse(cmd, m.value));
      }
      i := i + 1;
    }
    return None;
  }

  /** `do_cmd`: the response byte, or RuntimeError when the device flags an error. */
  function DoCmd(r: ColossusResponse): (v: Result<int>)
    ensures v.Err? <==> r.errorP
    ensures v.Err? ==> v.fault == RuntimeError
    ensures v.Ok? ==> v.value == r.responseByte
  {
    if r.errorP then Err(RuntimeError) else Ok(r.responseByte)
  }
}
