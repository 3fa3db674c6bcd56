/** The `Colossus` session of tests/colossus.py as far as its commands shape device state:
    every command the session issues is appended to `sent`, and the step-count-vector unit
    the commands at 224..236 drive is held in `scv`. Covers the wheel-pattern loader, the
    cam-wheel stepping check, the Q-panel and set-total configuration writers and the
    step-count-vector operations. */
module Session {
  import opened Wrappers
  import opened Bits
  import opened Codecs
  import opened Channel
  import opened Wheels
  import opened StepCountVector

  // ----- Wheel-pattern bytes -----

  /** Zeros to put in front of a pattern of n cams to fill whole octets. */
  function PadLength(n: nat): (r: nat)
    ensures r < 8 && (n + r) % 8 == 0
  {
    if n % 8 == 0 then 0 else 8 - n % 8
  }

  /** The pattern reversed, so that cam 0 is the last bit, with zeros in front. */
  function Padded(pattern: seq<Bit>): (r: seq<Bit>)
    ensures |r| == |pattern| + PadLength(|pattern|) && |r| % 8 == 0
  {
    Zeros(PadLength(|pattern|)) + Reverse(pattern)
  }

  /** Consecutive octets of a bit string, each read most-significant bit first. */
  function Octets(s: seq<Bit>): (r: seq<nat>)
    requires |s| % 8 == 0
    ensures |r| == |s| / 8
    ensures forall k :: 0 <= k < |r| ==> r[k] < 256
  {
    if |s| == 0 then []
    else
      DropOctet(|s|);
      MsbValueBound(s[|s| - 8..]);
      assert Pow2(8) == 256;
      Octets(s[..|s| - 8]) + [MsbValue(s[|s| - 8..])]
  }

  /** A positive multiple of 8 less 8 is the multiple of 8 below it. */
  lemma DropOctet(n: nat)
    requires n % 8 == 0 && n > 0
    ensures n >= 8 && (n - 8) % 8 == 0 && (n - 8) / 8 == n / 8 - 1
  {
    var q := n / 8;
    assert n == 8 * q;
    DivModUnique(n - 8, 8, q - 1, 0);
  }

  /** The bytes loaded for a wheel pattern, in the order they are sent. */
  function PatternOctets(pattern: seq<Bit>): seq<nat>
  {
    Octets(Padded(pattern))
  }

  /** A byte string read as one big-endian number. */
  function BigEndian(bytes: seq<nat>): nat
  {
    if |bytes| == 0 then 0 else 256 * BigEndian(bytes[..|bytes| - 1]) + bytes[|bytes| - 1]
  }

  lemma {:induction false} OctetsValue(s: seq<Bit>)
    requires |s| % 8 == 0
    ensures BigEndian(Octets(s)) == MsbValue(s)
  {
    if |s| > 0 {
      var hi, lo := s[..|s| - 8], s[|s| - 8..];
      assert s == hi + lo;
      OctetsValue(hi);
      MsbValueAppend(hi, lo);
      assert Pow2(8) == 256;
      var o := Octets(s);
      assert o[..|o| - 1] == Octets(hi);
    }
  }

  lemma {:induction false} ReverseReverse<T>(s: seq<T>)
    ensures Reverse(Reverse(s)) == s
  {
  }

  /** The bytes sent for a pattern of L cams are ceil(L / 8) octets which, read together
      as one big-endian number, have bit i equal to cam i and no bit set at or above L. */
  lemma PatternOctetsCams(pattern: seq<Bit>)
    ensures |PatternOctets(pattern)| == (|pattern| + 7) / 8
    ensures BigEndian(PatternOctets(pattern)) == LsbValue(pattern)
    ensures BigEndian(PatternOctets(pattern)) < Pow2(|pattern|)
    ensures forall i :: 0 <= i < |pattern| ==> BitAt(BigEndian(PatternOctets(pattern)), i) == pattern[i]
  {
    var n := |pattern|;
    OctetsValue(Padded(pattern));
    MsbValueLeadingZeros(PadLength(n), Reverse(pattern));
    LsbValueReverse(Reverse(pattern));
    ReverseReverse(pattern);
    LsbValueBound(pattern);
    forall i | 0 <= i < n
      ensures BitAt(LsbValue(pattern), i) == pattern[i]
    {
      LsbValueBit(pattern, i);
    }
  }

  /** One command per datum, all to the same address. */
  function DataCmds(addr: nat, data: seq<nat>): seq<Command>
  {
    seq(|data|, k requires 0 <= k < |data| => AddrData(addr, data[k]))
  }

  lemma OctetsSnoc(s: seq<Bit>, i: nat)
    requires i % 8 == 0 && i + 8 <= |s|
    ensures Octets(s[..i + 8]) == Octets(s[..i]) + [MsbValue(s[i..i + 8])]
  {
    assert s[..i + 8][..i] == s[..i] && s[..i + 8][i..] == s[i..i + 8];
  }

  /** Sending the octet at bit i extends the commands for the octets before it. */
  lemma SendStep(start: seq<Command>, addr: nat, bits: seq<Bit>, i: nat)
    requires i % 8 == 0 && i + 8 <= |bits|
    ensures start + DataCmds(addr, Octets(bits[..i])) + [AddrData(addr, MsbValue(bits[i..i + 8]))]
         == start + DataCmds(addr, Octets(bits[..i + 8]))
  {
    OctetsSnoc(bits, i);
    DataCmdsSnoc(addr, Octets(bits[..i]), MsbValue(bits[i..i + 8]));
  }

  /** Below a multiple of 8, the next multiple of 8 still fits. */
  lemma NextOctetFits(i: nat, n: nat)
    requires i < n && i % 8 == 0 && n % 8 == 0
    ensures i + 8 <= n && (i + 8) % 8 == 0
  {
  }

  lemma DataCmdsSnoc(addr: nat, data: seq<nat>, d: nat)
    ensures DataCmds(addr, data + [d]) == DataCmds(addr, data) + [AddrData(addr, d)]
  {
  }

  // ----- Commands with a wide field -----

  /** Every command has all its fields below 256. */
  predicate AllBytes(cmds: seq<Command>)
  {
    forall k :: 0 <= k < |cmds| ==> cmds[k].IsBytes()
  }

  /** The commands a method actually writes when it issues cmds in turn: a command with a
      field of 256 or more is written, its answer makes `from_cmd_response` raise
      ValueError, and nothing after it is written. */
  function UpToWide(cmds: seq<Command>): (r: seq<Command>)
    ensures |r| <= |cmds| && r == cmds[..|r|]
    ensures AllBytes(cmds) ==> r == cmds
    ensures !AllBytes(cmds) ==> |r| > 0 && !r[|r| - 1].IsBytes() && AllBytes(r[..|r| - 1])
  {
    if |cmds| == 0 then []
    else if !cmds[0].IsBytes() then [cmds[0]]
    else
      var rest := UpToWide(cmds[1..]);
      UpToWideCons(cmds, rest);
      [cmds[0]] + rest
  }

  lemma AllBytesCons(c: Command, s: seq<Command>)
    ensures AllBytes([c] + s) <==> c.IsBytes() && AllBytes(s)
  {
    var t := [c] + s;
    if c.IsBytes() && AllBytes(s) {
      forall k | 0 <= k < |t|
        ensures t[k].IsBytes()
      {
        if k > 0 {
          assert t[k] == s[k - 1];
        }
      }
    }
    if AllBytes(t) {
      assert t[0] == c;
      forall k | 0 <= k < |s|
        ensures s[k].IsBytes()
      {
        assert s[k] == t[k + 1];
      }
    }
  }

  /** The step of `UpToWide` past a leading command of bytes keeps its contract. */
  lemma UpToWideCons(cmds: seq<Command>, rest: seq<Command>)
    requires |cmds| > 0 && cmds[0].IsBytes()
    requires |rest| <= |cmds[1..]| && rest == cmds[1..][..|rest|]
    requires AllBytes(cmds[1..]) ==> rest == cmds[1..]
    requires !AllBytes(cmds[1..]) ==> |rest| > 0 && !rest[|rest| - 1].IsBytes() && AllBytes(rest[..|rest| - 1])
    ensures var r := [cmds[0]] + rest;
      && |r| <= |cmds| && r == cmds[..|r|]
      && (AllBytes(cmds) ==> r == cmds)
      && (!AllBytes(cmds) ==> |r| > 0 && !r[|r| - 1].IsBytes() && AllBytes(r[..|r| - 1]))
  {
    var r := [cmds[0]] + rest;
    assert cmds == [cmds[0]] + cmds[1..];
    AllBytesCons(cmds[0], cmds[1..]);
    assert r == cmds[..|r|];
    if !AllBytes(cmds) {
      assert r[..|r| - 1] == [cmds[0]] + rest[..|rest| - 1];
      AllBytesCons(cmds[0], rest[..|rest| - 1]);
    }
  }

  /** When the first wide command is at j, the commands written are those up to it. */
  lemma {:induction false} UpToWideAt(cmds: seq<Command>, j: nat)
    requires j < |cmds| && AllBytes(cmds[..j]) && !cmds[j].IsBytes()
    ensures UpToWide(cmds) == cmds[..j + 1]
  {
    if j == 0 {
      assert cmds[..1] == [cmds[0]];
    } else {
      var tail := cmds[1..];
      assert cmds[..j] == [cmds[0]] + tail[..j - 1];
      AllBytesCons(cmds[0], tail[..j - 1]);
      assert tail[j - 1] == cmds[j];
      UpToWideAt(tail, j - 1);
      assert cmds[..j + 1] == [cmds[0]] + tail[..j];
    }
  }

  /** A command to one address has all fields below 256 exactly when both are. */
  lemma AddrDataBytes(a: nat, d: nat)
    ensures AddrData(a, d).IsBytes() <==> a < 256 && d < 256
  {
    var t := AddrData(a, d).Tuple();
    assert t == [a, d];
    if a < 256 && d < 256 {
      assert forall i :: 0 <= i < |t| ==> t[i] < 256;
    } else {
      assert t[0] >= 256 || t[1] >= 256;
    }
  }

  /** Bytes sent to one address are all within range exactly when the address is, or when
      there are none. */
  lemma DataCmdsBytes(addr: nat, data: seq<nat>)
    requires forall k :: 0 <= k < |data| ==> data[k] < 256
    ensures AllBytes(DataCmds(addr, data)) <==> addr < 256 || |data| == 0
  {
    var cmds := DataCmds(addr, data);
    forall k | 0 <= k < |data|
      ensures cmds[k].IsBytes() <==> addr < 256
    {
      AddrDataBytes(addr, data[k]);
    }
    if |data| > 0 && addr >= 256 {
      assert !cmds[0].IsBytes();
    }
  }

  /** A wheel pattern can be loaded without a wide command exactly when its control address
      is below 256 or the pattern is empty. */
  lemma PatternCmdsBytes(ctrlAddr: nat, pattern: seq<Bit>)
    ensures AllBytes(DataCmds(ctrlAddr, PatternOctets(pattern))) <==> ctrlAddr < 256 || |pattern| == 0
  {
    PatternOctetsCams(pattern);
    DataCmdsBytes(ctrlAddr, PatternOctets(pattern));
  }

  /** The first octet is the first eight bits. */
  lemma {:induction false} OctetsFirst(s: seq<Bit>)
    requires |s| % 8 == 0 && |s| >= 8
    ensures Octets(s)[0] == MsbValue(s[..8])
  {
    if |s| == 8 {
      assert s[..8] == s[0..];
    } else {
      DropOctet(|s|);
      var front := s[..|s| - 8];
      OctetsFirst(front);
      assert front[..8] == s[..8];
    }
  }

  /** With a wide control address the first octet is the last command written. */
  lemma WideFirstOctet(ctrlAddr: nat, bits: seq<Bit>)
    requires |bits| % 8 == 0 && |bits| >= 8 && ctrlAddr >= 256
    ensures !AllBytes(DataCmds(ctrlAddr, Octets(bits)))
    ensures UpToWide(DataCmds(ctrlAddr, Octets(bits))) == DataCmds(ctrlAddr, Octets(bits[..8]))
  {
    var cmds := DataCmds(ctrlAddr, Octets(bits));
    OctetsFirst(bits);
    AddrDataBytes(ctrlAddr, Octets(bits)[0]);
    UpToWideAt(cmds, 0);
    OctetsSnoc(bits, 0);
    assert bits[..0] == [];
    assert bits[0..8] == bits[..8];
  }

  // ----- Step-count-vector commands -----

  function ScvConfigCmd(i: nat, cfg: SteppingCfg): Command
  {
    AddrData(224 + i, HalfOctet(cfg))
  }

  const ScvReset := AddrData(236, 0x20)
  const ScvNext := AddrData(236, 0x21)
  const ScvEnded := AddrData(236, 0x10)
  const ScvReads: seq<Command> := seq(NWheels, i requires 0 <= i => AddrData(236, i))
  const ScvEmits: seq<Command> := seq(16, i requires 0 <= i => AddrData(236, 0x30 + i))
  const ScvResetCfgs: seq<Command> := seq(NWheels, i requires 0 <= i => ScvConfigCmd(i, NoStepping))

  const SteppingResetCmds: seq<Command> := seq(NWheels, w requires 0 <= w => AddrData(171 + 2 * w, 0))
  const SetTotalResetCmds: seq<Command> := seq(2 * NCounters, k requires 0 <= k => AddrData(130 + k, if k % 2 == 0 then 0 else 64))

  /** The commands that load one target count n into wheel i. */
  function LoadOneCmds(i: nat, n: nat): seq<Command>
  {
    [ScvConfigCmd(i, StepFast)] + Tile([ScvNext], n) + [ScvConfigCmd(i, NoStepping)]
  }

  /** The commands that load the targets in tgt, wheel by wheel. */
  function LoadCmds(tgt: seq<nat>): seq<Command>
  {
    if |tgt| == 0 then [] else LoadCmds(tgt[..|tgt| - 1]) + LoadOneCmds(|tgt| - 1, tgt[|tgt| - 1])
  }

  /** What the vector holds once `set_step_count_vector_values(tgt)` is done: wheel i has
      been pulsed tgt[i] times from 0, the wheels past the end of tgt stay at 0. */
  function LoadedCounts(tgt: seq<nat>): (r: seq<nat>)
    requires |tgt| <= NWheels
    ensures InRange(r)
  {
    seq(NWheels, w requires 0 <= w < NWheels => if w < |tgt| then tgt[w] % Len(w) else 0)
  }

  /** One more pulse with only wheel i stepping fast moves its count from k to k + 1. */
  lemma PulseLoads(before: seq<nat>, i: nat, k: nat)
    requires |before| == NWheels && i < NWheels
    ensures Step(AllNoStepping[i := StepFast], before[i := k % Len(i)]) == before[i := (k + 1) % Len(i)]
  {
    FastOnlyStep(before[i := k % Len(i)], i);
    ModAddMod(k, 1, Len(i));
  }

  /** Loading wheel i of the targets extends the counts and the commands for the wheels
      before it. */
  lemma LoadPrefixStep(tgt: seq<nat>, i: nat)
    requires i < |tgt| <= NWheels
    ensures LoadedCounts(tgt[..i])[i := tgt[i] % Len(i)] == LoadedCounts(tgt[..i + 1])
    ensures LoadCmds(tgt[..i + 1]) == LoadCmds(tgt[..i]) + LoadOneCmds(i, tgt[i])
  {
    assert tgt[..i + 1][..i] == tgt[..i];
  }

  /** A target below its wheel's cam count is loaded as given. */
  lemma LoadedCountsExact(tgt: seq<nat>)
    requires |tgt| <= NWheels
    ensures forall w :: 0 <= w < |tgt| && tgt[w] < Len(w) ==> LoadedCounts(tgt)[w] == tgt[w]
    ensures forall w :: |tgt| <= w < NWheels ==> LoadedCounts(tgt)[w] == 0
  {
    forall w | 0 <= w < |tgt| && tgt[w] < Len(w)
      ensures LoadedCounts(tgt)[w] == tgt[w]
    {
      ModBelow(tgt[w], Len(w));
    }
  }

  /** Appending the counts after |rows| pulses to the rows of the earlier pulses. */
  lemma RunRowsSnoc(cfgs: seq<SteppingCfg>, counts: seq<nat>, rows: seq<seq<nat>>, next: seq<nat>)
    requires |cfgs| == NWheels && |counts| == NWheels
    requires forall j {:trigger rows[j]} :: 0 <= j < |rows| ==> rows[j] == Run(cfgs, counts, j)
    requires next == Run(cfgs, counts, |rows|)
    ensures forall j {:trigger (rows + [next])[j]} :: 0 <= j <= |rows| ==> (rows + [next])[j] == Run(cfgs, counts, j)
  {
    forall j | 0 <= j <= |rows|
      ensures (rows + [next])[j] == Run(cfgs, counts, j)
    {
      if j < |rows| {
        assert (rows + [next])[j] == rows[j];
      }
    }
  }

  class Colossus {
    var sent: seq<Command>
    const scv: StepCountVector

    ghost predicate Valid()
      reads scv
    {
      scv.Valid()
    }

    /** `__init__` once the device is ready: every wheel's stepping, every step-count-vector
        config and every set-total config reset. */
    constructor ()
      ensures Valid() && fresh(scv)
      ensures scv.cfgs == AllNoStepping
      ensures sent == SteppingResetCmds + ScvResetCfgs + SetTotalResetCmds
    {
      sent := [];
      scv := new StepCountVector();
      new;
      ResetAllStepping();
      ResetAllStepCountVectorConfigs();
      ResetAllSetTotalConfigs();
    }

    /** `__call__` with the parse of its answer: the command is written, and one with a
        field of 256 or more raises ValueError, because whatever the client answers for
        its line is rejected by `from_cmd_response` (Client.WideAnswerRejected). */
    method Send(c: Command) returns (r: Result<()>)
      modifies this
      ensures sent == old(sent) + [c]
      ensures r.Err? <==> !c.IsBytes()
      ensures r.Err? ==> r == Err(ValueError)
    {
      sent := sent + [c];
      if c.IsBytes() {
        r := Ok(());
      } else {
        r := Err(ValueError);
      }
    }

    /** `_load_wheel_pattern`: the pattern reversed, zero-padded at the front to whole
        octets, sent eight bits at a time to the wheel's control address; a control
        address of 256 or more raises ValueError at the first octet. */
    method LoadWheelPattern(ctrlAddr: nat, pattern: seq<Bit>) returns (r: Result<()>)
      modifies this
      ensures sent == old(sent) + UpToWide(DataCmds(ctrlAddr, PatternOctets(pattern)))
      ensures r.Err? <==> !AllBytes(DataCmds(ctrlAddr, PatternOctets(pattern)))
      ensures r.Err? ==> r == Err(ValueError)
    {
      var padded := Padded(pattern);
      r := SendOctets(ctrlAddr, padded);
    }

    /** The loop of `_load_wheel_pattern`: each run of eight bits, read as a binary
        numeral, sent to the control address, until a command raises. */
    method SendOctets(ctrlAddr: nat, bits: seq<Bit>) returns (r: Result<()>)
      requires |bits| % 8 == 0
      modifies this
      ensures sent == old(sent) + UpToWide(DataCmds(ctrlAddr, Octets(bits)))
      ensures r.Err? <==> !AllBytes(DataCmds(ctrlAddr, Octets(bits)))
      ensures r.Err? ==> r == Err(ValueError)
    {
      ghost var start := sent;
      r := Ok(());
      var i := 0;
      while i < |bits|
        invariant i <= |bits| && i % 8 == 0
        invariant sent == start + DataCmds(ctrlAddr, Octets(bits[..i]))
        invariant i > 0 ==> ctrlAddr < 256
        invariant r.Ok?
      {
        NextOctetFits(i, |bits|);
        r := SendOctet(ctrlAddr, bits, i, start);
        if r.Err? {
          WideFirstOctet(ctrlAddr, bits);
          return;
        }
        i := i + 8;
      }
      assert bits[..i] == bits;
      DataCmdsBytes(ctrlAddr, Octets(bits));
    }

    /** One pass of the loop of `_load_wheel_pattern`: the eight bits at i, read as a
        binary numeral, sent to the control address. */
    method SendOctet(ctrlAddr: nat, bits: seq<Bit>, i: nat, ghost start: seq<Command>) returns (r: Result<()>)
      requires i % 8 == 0 && i + 8 <= |bits|
      requires sent == start + DataCmds(ctrlAddr, Octets(bits[..i]))
      modifies this
      ensures sent == start + DataCmds(ctrlAddr, Octets(bits[..i + 8]))
      ensures r.Err? <==> ctrlAddr >= 256
      ensures r.Err? ==> r == Err(ValueError)
    {
      var chunk := MsbValue(bits[i..i + 8]);
      SendStep(start, ctrlAddr, bits, i);
      MsbValueBound(bits[i..i + 8]);
      AddrDataBytes(ctrlAddr, chunk);
      r := Send(AddrData(ctrlAddr, chunk));
    }

    /** `load_cam_wheel`: the pattern goes to control address 170 + 2 * wheel, which is
        wide from wheel 43 on. */
    method LoadCamWheel(wheel: nat, pattern: seq<Bit>) returns (r: Result<()>)
      modifies this
      ensures sent == old(sent) + UpToWide(DataCmds(170 + 2 * wheel, PatternOctets(pattern)))
      ensures r.Err? <==> wheel >= 43 && |pattern| > 0
      ensures r.Err? ==> r == Err(ValueError)
    {
      PatternCmdsBytes(170 + 2 * wheel, pattern);
      r := LoadWheelPattern(170 + 2 * wheel, pattern);
    }

    /** `set_cam_wheel_stepping`: a wheel past the last raises IndexError and a step count
        of at least the wheel's cam count raises ValueError, both before anything is sent;
        otherwise the count goes to address 171 + 2 * wheel. */
    method SetCamWheelStepping(wheel: nat, stepCount: nat) returns (r: Result<()>)
      modifies this
      ensures wheel >= NWheels ==> r == Err(IndexError)
      ensures wheel < NWheels ==> (r.Err? <==> stepCount >= NCamsAll[wheel])
      ensures wheel < NWheels && r.Err? ==> r == Err(ValueError)
      ensures r.Err? ==> sent == old(sent)
      ensures r.Ok? ==> sent == old(sent) + [AddrData(171 + 2 * wheel, stepCount)]
    {
      if wheel >= NWheels {
        return Err(IndexError);
      }
      if stepCount >= NCamsAll[wheel] {
        return Err(ValueError);
      }
      sent := sent + [AddrData(171 + 2 * wheel, stepCount)];
      return Ok(());
    }

    /** `reset_all_stepping`: step count 0 for every wheel. */
    method ResetAllStepping()
      modifies this
      ensures sent == old(sent) + SteppingResetCmds
    {
      for w := 0 to NWheels
        invariant sent == old(sent) + SteppingResetCmds[..w]
      {
        var r := SetCamWheelStepping(w, 0);
        assert r.Ok?;
        assert SteppingResetCmds[..w + 1] == SteppingResetCmds[..w] + [AddrData(171 + 2 * w, 0)];
      }
      assert SteppingResetCmds[..NWheels] == SteppingResetCmds;
    }

    /** `set_q_panel_top_unit_cfg`: three registers from 80 + 3 * unit, stopping at the
        first that raises. */
    method SetQPanelTopUnitCfg(unit: nat, cfg: QPanelTopUnitCfg) returns (r: Result<()>)
      requires cfg.counterEn >= 0
      modifies this
      ensures sent == old(sent) + UpToWide(DataCmdsAt(80 + 3 * unit, TopRegisters(cfg)))
      ensures r.Err? <==> !AllBytes(DataCmdsAt(80 + 3 * unit, TopRegisters(cfg)))
      ensures r.Err? ==> r == Err(ValueError)
    {
      var base := 80 + 3 * unit;
      ghost var cmds := DataCmdsAt(base, TopRegisters(cfg));
      TopCmds(base, cfg);
      r := Send(AddrData(base, cfg.matchEn));
      if r.Err? {
        UpToWideAt(cmds, 0);
        return;
      }
      r := Send(AddrData(base + 1, cfg.matchTgt));
      if r.Err? {
        UpToWideAt(cmds, 1);
        return;
      }
      r := Send(AddrData(base + 2, TopCfg2(cfg)));
      if r.Err? {
        UpToWideAt(cmds, 2);
      }
    }

    /** `set_q_panel_bottom_unit_cfg`: two registers from 110 + 2 * unit, stopping at the
        first that raises. */
    method SetQPanelBottomUnitCfg(unit: nat, cfg: QPanelBottomUnitCfg) returns (r: Result<()>)
      requires cfg.counterEn >= 0
      modifies this
      ensures sent == old(sent) + UpToWide(DataCmdsAt(110 + 2 * unit, BottomRegisters(cfg)))
      ensures r.Err? <==> !AllBytes(DataCmdsAt(110 + 2 * unit, BottomRegisters(cfg)))
      ensures r.Err? ==> r == Err(ValueError)
    {
      var base := 110 + 2 * unit;
      ghost var cmds := DataCmdsAt(base, BottomRegisters(cfg));
      assert cmds == [AddrData(base, cfg.coeff), AddrData(base + 1, BottomCfg1(cfg))];
      r := Send(AddrData(base, cfg.coeff));
      if r.Err? {
        UpToWideAt(cmds, 0);
        return;
      }
      r := Send(AddrData(base + 1, BottomCfg1(cfg)));
      if r.Err? {
        UpToWideAt(cmds, 1);
      }
    }

    /** `set_q_panel_negating_cfg`: registers 120 and 121, stopping at the first that
        raises. */
    method SetQPanelNegatingCfg(cfg: QPanelNegatingCfg) returns (r: Result<()>)
      modifies this
      ensures sent == old(sent) + UpToWide(DataCmdsAt(120, NegatingRegisters(cfg)))
      ensures r.Err? <==> !AllBytes(DataCmdsAt(120, NegatingRegisters(cfg)))
      ensures r.Err? ==> r == Err(ValueError)
    {
      ghost var cmds := DataCmdsAt(120, NegatingRegisters(cfg));
      assert cmds == [AddrData(120, cfg.topNegates), AddrData(121, cfg.globalNegates)];
      r := Send(AddrData(120, cfg.topNegates));
      if r.Err? {
        UpToWideAt(cmds, 0);
        return;
      }
      r := Send(AddrData(121, cfg.globalNegates));
      if r.Err? {
        UpToWideAt(cmds, 1);
      }
    }

    /** `reset_q_panel_cfg`: every top and bottom unit and the negation registers cleared,
        which writes 0 to each register from 80 to 121 in address order. */
    method ResetQPanelCfg()
      modifies this
      ensures sent == old(sent) + ZeroRegs(80, 42)
    {
      var top := QPanelTopUnitCfg(0, 0, false, 0);
      for u := 0 to NQPanelTopUnits
        invariant sent == old(sent) + ZeroRegs(80, 3 * u)
      {
        ZeroRegsBytes(80 + 3 * u, 3);
        assert DataCmdsAt(80 + 3 * u, TopRegisters(top)) == ZeroRegs(80 + 3 * u, 3);
        var r := SetQPanelTopUnitCfg(u, top);
        ZeroRegsSplit(80, 3 * u, 3);
      }
      var bottom := QPanelBottomUnitCfg(0, false, 0);
      for u := 0 to NQPanelBottomUnits
        invariant sent == old(sent) + ZeroRegs(80, 30 + 2 * u)
      {
        ZeroRegsBytes(110 + 2 * u, 2);
        assert DataCmdsAt(110 + 2 * u, BottomRegisters(bottom)) == ZeroRegs(110 + 2 * u, 2);
        var r := SetQPanelBottomUnitCfg(u, bottom);
        ZeroRegsSplit(80, 30 + 2 * u, 2);
      }
      ZeroRegsBytes(120, 2);
      assert DataCmdsAt(120, NegatingRegisters(QPanelNegatingCfg(0, 0))) == ZeroRegs(120, 2);
      var r := SetQPanelNegatingCfg(QPanelNegatingCfg(0, 0));
      ZeroRegsSplit(80, 40, 2);
    }

    /** `set_set_total_config`: two registers from 130 + 2 * counter, stopping at the
        first that raises. */
    method SetSetTotalConfig(counter: nat, cfg: SetTotalCfg) returns (r: Result<()>)
      requires SetTotalCfg1(cfg) >= 0
      modifies this
      ensures sent == old(sent) + UpToWide(SetTotalCmds(counter, cfg))
      ensures r.Err? <==> !AllBytes(SetTotalCmds(counter, cfg))
      ensures r.Err? ==> r == Err(ValueError)
    {
      var base := 130 + 2 * counter;
      ghost var cmds := SetTotalCmds(counter, cfg);
      r := Send(AddrData(base, SetTotalCfg0(cfg)));
      if r.Err? {
        UpToWideAt(cmds, 0);
        return;
      }
      r := Send(AddrData(base + 1, SetTotalCfg1(cfg)));
      if r.Err? {
        UpToWideAt(cmds, 1);
      }
    }

    /** `reset_all_set_total_configs`: every counter set never to print. */
    method ResetAllSetTotalConfigs()
      modifies this
      ensures sent == old(sent) + SetTotalResetCmds
    {
      for c := 0 to NCounters
        invariant sent == old(sent) + SetTotalResetCmds[..2 * c]
      {
        var cmds := SetTotalCmds(c, NeverPrint);
        assert cmds == [AddrData(130 + 2 * c, 0), AddrData(131 + 2 * c, 64)];
        AddrDataBytes(130 + 2 * c, 0);
        AddrDataBytes(131 + 2 * c, 64);
        assert AllBytes(cmds);
        var r := SetSetTotalConfig(c, NeverPrint);
        assert SetTotalResetCmds[..2 * (c + 1)] == SetTotalResetCmds[..2 * c] + cmds;
      }
      assert SetTotalResetCmds[..2 * NCounters] == SetTotalResetCmds;
    }

    // ----- Step-count vector -----

    /** `set_step_count_vector_config`: the flags as a half-octet to 224 + wheel. */
    method SetStepCountVectorConfig(i: nat, cfg: SteppingCfg)
      requires Valid() && i < NWheels
      modifies this, scv
      ensures Valid()
      ensures scv.cfgs == old(scv.cfgs)[i := cfg] && scv.counts == old(scv.counts)
      ensures sent == old(sent) + [ScvConfigCmd(i, cfg)]
    {
      sent := sent + [ScvConfigCmd(i, cfg)];
      scv.SetConfig(i, cfg);
    }

    /** `reset_all_step_count_vector_configs`: every wheel unflagged. */
    method ResetAllStepCountVectorConfigs()
      requires Valid()
      modifies this, scv
      ensures Valid()
      ensures scv.cfgs == AllNoStepping && scv.counts == old(scv.counts)
      ensures sent == old(sent) + ScvResetCfgs
    {
      for i := 0 to NWheels
        invariant Valid() && scv.counts == old(scv.counts)
        invariant |scv.cfgs| == NWheels
        invariant forall w :: 0 <= w < i ==> scv.cfgs[w] == NoStepping
        invariant sent == old(sent) + ScvResetCfgs[..i]
      {
        SetStepCountVectorConfig(i, NoStepping);
        assert ScvResetCfgs[..i + 1] == ScvResetCfgs[..i] + [ScvConfigCmd(i, NoStepping)];
      }
      assert ScvResetCfgs[..NWheels] == ScvResetCfgs;
    }

    /** `reset_step_count_vector`. */
    method ResetStepCountVector()
      requires Valid()
      modifies this, scv
      ensures Valid()
      ensures scv.counts == ZeroCounts && scv.cfgs == old(scv.cfgs)
      ensures sent == old(sent) + [ScvReset]
    {
      sent := sent + [ScvReset];
      scv.Reset();
    }

    /** `next_step_count_vector`: one stepping pulse. */
    method NextStepCountVector()
      requires Valid()
      modifies this, scv
      ensures Valid()
      ensures scv.counts == Step(old(scv.cfgs), old(scv.counts)) && scv.cfgs == old(scv.cfgs)
      ensures sent == old(sent) + [ScvNext]
    {
      sent := sent + [ScvNext];
      scv.Next();
    }

    /** `read_step_count_vector_values`: one read per wheel. */
    method ReadStepCountVectorValues() returns (values: seq<nat>)
      requires Valid()
      modifies this
      ensures values == scv.counts
      ensures sent == old(sent) + ScvReads
    {
      values := [];
      for i := 0 to NWheels
        invariant values == scv.counts[..i]
        invariant sent == old(sent) + ScvReads[..i]
      {
        sent := sent + [AddrData(236, i)];
        values := values + [scv.counts[i]];
        assert ScvReads[..i + 1] == ScvReads[..i] + [AddrData(236, i)];
        assert scv.counts[..i + 1] == scv.counts[..i] + [scv.counts[i]];
      }
      assert ScvReads[..NWheels] == ScvReads;
      assert scv.counts[..NWheels] == scv.counts;
    }

    /** `read_step_count_vector_ended`. */
    method ReadStepCountVectorEnded() returns (ended: nat)
      requires Valid()
      modifies this
      ensures ended == 0 || ended == 1
      ensures ended == 1 <==> Ended(scv.cfgs, scv.counts)
      ensures sent == old(sent) + [ScvEnded]
    {
      sent := sent + [ScvEnded];
      ended := scv.ReadEnded();
    }

    /** One row of `read_step_count_vector_values_then_step`: read the counts, then pulse. */
    method ReadValuesThenStep() returns (values: seq<nat>)
      requires Valid()
      modifies this, scv
      ensures Valid() && scv.cfgs == old(scv.cfgs)
      ensures values == old(scv.counts)
      ensures scv.counts == Step(old(scv.cfgs), old(scv.counts))
      ensures sent == old(sent) + (ScvReads + [ScvNext])
    {
      values := ReadStepCountVectorValues();
      NextStepCountVector();
    }

    /** `read_step_count_vector_values_then_step(n)`: row i holds the counts after i pulses. */
    method ReadStepCountVectorValuesThenStep(n: nat) returns (rows: seq<seq<nat>>)
      requires Valid()
      modifies this, scv
      ensures Valid() && scv.cfgs == old(scv.cfgs)
      ensures |rows| == n
      ensures forall i :: 0 <= i < n ==> rows[i] == Run(old(scv.cfgs), old(scv.counts), i)
      ensures scv.counts == Run(old(scv.cfgs), old(scv.counts), n)
      ensures sent == old(sent) + Tile(ScvReads + [ScvNext], n)
    {
      ghost var cfgs0, counts0, sent0 := scv.cfgs, scv.counts, sent;
      rows := [];
      for i := 0 to n
        invariant Valid() && scv.cfgs == cfgs0
        invariant |rows| == i
        invariant forall j {:trigger rows[j]} :: 0 <= j < i ==> rows[j] == Run(cfgs0, counts0, j)
        invariant scv.counts == Run(cfgs0, counts0, i)
        invariant sent == sent0 + Tile(ScvReads + [ScvNext], i)
      {
        ghost var sentBefore := sent;
        var xs := ReadValuesThenStep();
        RunRowsSnoc(cfgs0, counts0, rows, xs);
        rows := rows + [xs];
        assert sent == sentBefore + (ScvReads + [ScvNext]);
      }
    }

    /** `emit_cmds_step_count_vector`: sixteen reads of the command-bus history. */
    method EmitCmdsStepCountVector() returns (frame: seq<nat>)
      requires Valid()
      modifies this
      ensures |frame| == 16
      ensures frame[..3] == [0, 0x2d, 0x3f] && frame[3..15] == scv.counts && frame[15] == 0
      ensures sent == old(sent) + ScvEmits
    {
      sent := sent + ScvEmits;
      frame := scv.EmitCmds();
    }

    /** The body of `set_step_count_vector_values` for wheel i: stepped fast for n pulses,
        then unflagged again. */
    method LoadWheel(i: nat, n: nat)
      requires Valid() && i < NWheels && scv.cfgs == AllNoStepping && scv.counts[i] == 0
      modifies this, scv
      ensures Valid() && scv.cfgs == AllNoStepping
      ensures scv.counts == old(scv.counts)[i := n % Len(i)]
      ensures sent == old(sent) + LoadOneCmds(i, n)
    {
      ghost var before := scv.counts;
      assert before[i := 0 % Len(i)] == before;
      SetStepCountVectorConfig(i, StepFast);
      for k := 0 to n
        invariant Valid() && scv.cfgs == AllNoStepping[i := StepFast]
        invariant scv.counts == before[i := k % Len(i)]
        invariant sent == old(sent) + [ScvConfigCmd(i, StepFast)] + Tile([ScvNext], k)
      {
        NextStepCountVector();
        PulseLoads(before, i, k);
      }
      SetStepCountVectorConfig(i, NoStepping);
      assert AllNoStepping[i := StepFast][i := NoStepping] == AllNoStepping;
    }

    /** `set_step_count_vector_values`: configs cleared and the vector reset, then each wheel
        in turn stepped fast for its target number of pulses and unflagged again. */
    method SetStepCountVectorValues(tgt: seq<nat>)
      requires Valid() && |tgt| <= NWheels
      modifies this, scv
      ensures Valid()
      ensures scv.cfgs == AllNoStepping
      ensures scv.counts == LoadedCounts(tgt)
      ensures sent == old(sent) + ScvResetCfgs + [ScvReset] + LoadCmds(tgt)
    {
      ResetAllStepCountVectorConfigs();
      ResetStepCountVector();
      ghost var start := sent;
      assert ZeroCounts == LoadedCounts([]);
      for i := 0 to |tgt|
        invariant Valid() && scv.cfgs == AllNoStepping
        invariant scv.counts == LoadedCounts(tgt[..i])
        invariant sent == start + LoadCmds(tgt[..i])
      {
        LoadTarget(tgt, i, start);
      }
      assert tgt[..|tgt|] == tgt;
    }

    /** One pass of the loop of `set_step_count_vector_values`: wheel i loaded with its
        target after the wheels before it. */
    method LoadTarget(tgt: seq<nat>, i: nat, ghost start: seq<Command>)
      requires Valid() && i < |tgt| <= NWheels && scv.cfgs == AllNoStepping
      requires scv.counts == LoadedCounts(tgt[..i]) && sent == start + LoadCmds(tgt[..i])
      modifies this, scv
      ensures Valid() && scv.cfgs == AllNoStepping
      ensures scv.counts == LoadedCounts(tgt[..i + 1]) && sent == start + LoadCmds(tgt[..i + 1])
    {
      LoadWheel(i, tgt[i]);
      LoadPrefixStep(tgt, i);
    }
  }

  const NQPanelTopUnits := 10
  const NQPanelBottomUnits := 5

  /** One command per register, at consecutive addresses from base. */
  function DataCmdsAt(base: nat, regs: seq<int>): seq<Command>
    requires forall k :: 0 <= k < |regs| ==> regs[k] >= 0
  {
    seq(|regs|, k requires 0 <= k < |regs| => AddrData(base + k, regs[k] as nat))
  }

  /** Zero written to each of n consecutive registers from base. */
  function ZeroRegs(base: nat, n: nat): seq<Command>
  {
    seq(n, k requires 0 <= k < n => AddrData(base + k, 0))
  }

  /** The top unit's registers in the order `set_q_panel_top_unit_cfg` writes them. */
  lemma TopCmds(base: nat, cfg: QPanelTopUnitCfg)
    requires cfg.counterEn >= 0
    ensures DataCmdsAt(base, TopRegisters(cfg))
         == [AddrData(base, cfg.matchEn), AddrData(base + 1, cfg.matchTgt), AddrData(base + 2, TopCfg2(cfg))]
  {
  }

  /** Zeros to registers below 256 are all within range. */
  lemma ZeroRegsBytes(base: nat, n: nat)
    requires base + n <= 256
    ensures AllBytes(ZeroRegs(base, n))
  {
    forall k | 0 <= k < n
      ensures ZeroRegs(base, n)[k].IsBytes()
    {
      AddrDataBytes(base + k, 0);
    }
  }

  /** The two set-total registers of a counter, in the order written. */
  function SetTotalCmds(counter: nat, cfg: SetTotalCfg): seq<Command>
    requires SetTotalCfg1(cfg) >= 0
  {
    [AddrData(130 + 2 * counter, SetTotalCfg0(cfg)), AddrData(131 + 2 * counter, SetTotalCfg1(cfg))]
  }

  lemma ZeroRegsSplit(base: nat, n: nat, m: nat)
    ensures ZeroRegs(base, n) + DataCmdsAt(base + n, seq(m, _ => 0)) == ZeroRegs(base, n + m)
  {
  }
}
