/** The register codecs of tests/colossus.py: configuration records of the Q-panel units,
    the step-count-vector stepping flags and the set-total (threshold) units, the bytes
    their `cfg_*` properties produce, and the `from_string` text parsers. */
module Codecs {
  import opened Wrappers
  import opened Bits
  import opened Text

  // ----- Q-panel top unit -----

  datatype QPanelTopUnitCfg = QPanelTopUnitCfg(matchEn: nat, matchTgt: nat, negate: bool, counterEn: int)

  /** Python's `x | 0x80` on an arbitrary-precision (two's complement) integer. */
  function OrBit7(x: int): (r: int)
    ensures r % 128 == x % 128 && r / 256 == x / 256 && (r / 128) % 2 == 1
    ensures r == x || r == x + 128
  {
    OrBit7Facts(x);
    if (x / 128) % 2 == 1 then x else x + 128
  }

  /** With bit 7 of x clear, adding 128 sets it and leaves the other bits alone. */
  lemma OrBit7Facts(x: int)
    ensures (x / 128) % 2 == 0 ==>
      (x + 128) % 128 == x % 128 && (x + 128) / 256 == x / 256 && ((x + 128) / 128) % 2 == 1
  {
    var q, r := x / 128, x % 128;
    assert x == 128 * q + r && 0 <= r < 128;
    if q % 2 == 0 {
      var p := q / 2;
      assert q == 2 * p;
      assert x == 256 * p + r;
      assert x + 128 == 256 * p + (r + 128);
      assert x + 128 == 128 * (q + 1) + r;
    }
  }

  /** `cfg_2`: the counter-enable mask with bit 7 carrying `negate`. */
  function TopCfg2(c: QPanelTopUnitCfg): (r: int)
    ensures r % 128 == c.counterEn % 128 && r / 256 == c.counterEn / 256
    ensures (r / 128) % 2 == 1 <==> c.negate || (c.counterEn / 128) % 2 == 1
  {
    if c.negate then OrBit7(c.counterEn) else c.counterEn
  }

  /** The three register bytes written for a top unit (`cfg_0`, `cfg_1`, `cfg_2`). */
  function TopRegisters(c: QPanelTopUnitCfg): seq<int>
  {
    [c.matchEn, c.matchTgt, TopCfg2(c)]
  }

  /** Reading a top unit's configuration back from its three register bytes. */
  function TopFromRegisters(c0: nat, c1: nat, c2: nat): QPanelTopUnitCfg
  {
    QPanelTopUnitCfg(c0, c1, c2 >= 128, c2 % 128)
  }

  /** For a counter-enable mask of at most 7 bits, bit 7 of `cfg_2` is exactly `negate`
      and the three bytes determine the configuration. */
  lemma TopRegistersRoundTrip(c: QPanelTopUnitCfg)
    requires 0 <= c.counterEn < 128
    ensures 0 <= TopCfg2(c) < 256
    ensures TopCfg2(c) >= 128 <==> c.negate
    ensures TopCfg2(c) % 128 == c.counterEn
    ensures TopFromRegisters(c.matchEn, c.matchTgt, TopCfg2(c)) == c
  {
  }

  /** One bit per character of `piece`, most significant first: 1 where `on` holds. */
  function CharBits(piece: string, on: char -> bool): (r: seq<Bit>)
    ensures |r| == |piece|
    ensures forall k :: 0 <= k < |piece| ==> (r[k] == 1 <==> on(piece[k]))
  {
    seq(|piece|, k requires 0 <= k < |piece| => if on(piece[k]) then 1 else 0)
  }

  predicate IsBinaryChar(c: char) { c == '0' || c == '1' }

  predicate IsOne(c: char) { c == '1' }

  /** `QPanelTopUnitCfg.from_string`: 'five chars from 01-, space, == or !=, space, binary'.
      `int('', 2)` raises ValueError, a missing piece raises IndexError. */
  function TopFromString(s: string): Result<QPanelTopUnitCfg>
  {
    var pcs := SplitOn(s, ' ');
    if |pcs[0]| == 0 then Err(ValueError)
    else if |pcs| < 3 then Err(IndexError)
    else
      var matchEn := MsbValue(CharBits(pcs[0], IsBinaryChar));
      var matchTgt := MsbValue(CharBits(pcs[0], IsOne));
      var negate := pcs[1] == "!=";
      match PyInt(pcs[2], 2)
      case None => Err(ValueError)
      case Some(counterEn) => Ok(QPanelTopUnitCfg(matchEn, matchTgt, negate, counterEn))
  }

  /** `from_string` fails exactly when the first piece is empty, a piece is missing or the
      counter-enable piece is not a binary literal. */
  lemma TopFromStringFails(s: string)
    ensures var pcs := SplitOn(s, ' ');
      TopFromString(s).Ok? <==> |pcs[0]| > 0 && |pcs| >= 3 && PyInt(pcs[2], 2).Some?
  {
  }

  /** A counter-enable piece may carry int()'s binary prefix: with it, the piece still gives
      `counter_en` the value of its binary digits (so "01 == 0b101" enables counters 101). */
  lemma TopFromStringPrefixed(mask: string, op: string, cnt: string, ds: string, upper: bool)
    requires |mask| > 0 && ' ' !in mask && ' ' !in op
    requires |ds| > 0 && AllDigits(ds, 2) && cnt == RadixPrefix(2, upper) + ds
    ensures TopFromString(mask + [' '] + (op + [' '] + cnt)).Ok?
    ensures TopFromString(mask + [' '] + (op + [' '] + cnt)).value.counterEn == DigitsValue(ds, 2)
  {
    assert ' ' !in cnt by {
      assert forall i :: 2 <= i < |cnt| ==> cnt[i] == ds[i - 2];
      assert forall i :: 0 <= i < |ds| ==> IsDigit(ds[i], 2);
    }
    ThreePieces(mask, op, cnt);
    PyIntPrefixed(ds, 2, upper);
  }

  /** Three pieces without spaces, joined by single spaces, split back into themselves. */
  lemma ThreePieces(a: string, b: string, c: string)
    requires ' ' !in a && ' ' !in b && ' ' !in c
    ensures SplitOn(a + [' '] + (b + [' '] + c), ' ') == [a, b, c]
  {
    SplitOnLast(c, ' ');
    SplitOnNoSep(b, ' ', c);
    SplitOnNoSep(a, ' ', b + [' '] + c);
  }

  /** What `from_string` makes of a top-unit string: character k of the first piece sets
      bit |piece|-1-k of `match_en` when it is '0' or '1' and of `match_tgt` when it is '1',
      so the target never has a bit the enable mask lacks; `negate` is the '!=' operator. */
  lemma TopFromStringFacts(s: string, c: QPanelTopUnitCfg)
    requires TopFromString(s) == Ok(c)
    ensures var pcs := SplitOn(s, ' ');
      && (forall k :: 0 <= k < |pcs[0]| ==> (BitAt(c.matchEn, |pcs[0]| - 1 - k) == 1 <==> pcs[0][k] == '0' || pcs[0][k] == '1'))
      && (forall k :: 0 <= k < |pcs[0]| ==> (BitAt(c.matchTgt, |pcs[0]| - 1 - k) == 1 <==> pcs[0][k] == '1'))
      && (forall j: nat :: BitAt(c.matchTgt, j) == 1 ==> BitAt(c.matchEn, j) == 1)
      && c.matchEn < Pow2(|pcs[0]|)
      && (c.negate <==> pcs[1] == "!=")
      && PyInt(pcs[2], 2) == Some(c.counterEn)
  {
    var p := SplitOn(s, ' ')[0];
    TopFromStringFields(s, c);
    PieceMask(p, IsBinaryChar);
    PieceMask(p, IsOne);
    TargetWithinEnable(p);
  }

  /** The fields of a parsed top unit, read off the three pieces. */
  lemma TopFromStringFields(s: string, c: QPanelTopUnitCfg)
    requires TopFromString(s) == Ok(c)
    ensures var pcs := SplitOn(s, ' ');
      && |pcs| >= 3
      && c.matchEn == MsbValue(CharBits(pcs[0], IsBinaryChar))
      && c.matchTgt == MsbValue(CharBits(pcs[0], IsOne))
      && (c.negate <==> pcs[1] == "!=")
      && PyInt(pcs[2], 2) == Some(c.counterEn)
  {
  }

  /** Character k of a piece is bit |piece|-1-k of the mask built from it. */
  lemma PieceMask(p: string, on: char -> bool)
    ensures MsbValue(CharBits(p, on)) < Pow2(|p|)
    ensures forall k :: 0 <= k < |p| ==> (BitAt(MsbValue(CharBits(p, on)), |p| - 1 - k) == 1 <==> on(p[k]))
  {
    MsbValueBound(CharBits(p, on));
    forall k | 0 <= k < |p|
      ensures BitAt(MsbValue(CharBits(p, on)), |p| - 1 - k) == CharBits(p, on)[k]
    {
      MsbValueBit(CharBits(p, on), k);
    }
  }

  lemma TargetWithinEnable(p: string)
    ensures forall j: nat :: BitAt(MsbValue(CharBits(p, IsOne)), j) == 1 ==> BitAt(MsbValue(CharBits(p, IsBinaryChar)), j) == 1
  {
    var en, tgt := CharBits(p, IsBinaryChar), CharBits(p, IsOne);
    forall j: nat | BitAt(MsbValue(tgt), j) == 1
      ensures BitAt(MsbValue(en), j) == 1
    {
      if j >= |p| {
        MsbValueBound(tgt);
        BitAtAbove(MsbValue(tgt), |p|, j);
      } else {
        var k := |p| - 1 - j;
        MsbValueBit(en, k);
        MsbValueBit(tgt, k);
      }
    }
  }

  // ----- Q-panel bottom unit -----

  datatype QPanelBottomUnitCfg = QPanelBottomUnitCfg(coeff: nat, tgt: bool, counterEn: int)

  /** `cfg_1`: the counter-enable mask with bit 7 carrying `tgt`. */
  function BottomCfg1(c: QPanelBottomUnitCfg): (r: int)
    ensures r % 128 == c.counterEn % 128 && r / 256 == c.counterEn / 256
    ensures (r / 128) % 2 == 1 <==> c.tgt || (c.counterEn / 128) % 2 == 1
  {
    if c.tgt then OrBit7(c.counterEn) else c.counterEn
  }

  function BottomRegisters(c: QPanelBottomUnitCfg): seq<int>
  {
    [c.coeff, BottomCfg1(c)]
  }

  function BottomFromRegisters(c0: nat, c1: nat): QPanelBottomUnitCfg
  {
    QPanelBottomUnitCfg(c0, c1 >= 128, c1 % 128)
  }

  lemma BottomRegistersRoundTrip(c: QPanelBottomUnitCfg)
    requires 0 <= c.counterEn < 128
    ensures 0 <= BottomCfg1(c) < 256
    ensures BottomCfg1(c) >= 128 <==> c.tgt
    ensures BottomFromRegisters(c.coeff, BottomCfg1(c)) == c
  {
  }

  /** `QPanelBottomUnitCfg.from_string`: 'five chars from 1-, space, 1 or 0, space, binary'. */
  function BottomFromString(s: string): Result<QPanelBottomUnitCfg>
  {
    var pcs := SplitOn(s, ' ');
    if |pcs[0]| == 0 then Err(ValueError)
    else if |pcs| < 3 then Err(IndexError)
    else
      var coeff := MsbValue(CharBits(pcs[0], IsOne));
      match PyInt(pcs[2], 2)
      case None => Err(ValueError)
      case Some(counterEn) => Ok(QPanelBottomUnitCfg(coeff, pcs[1] == "1", counterEn))
  }

  lemma BottomFromStringFails(s: string)
    ensures var pcs := SplitOn(s, ' ');
      BottomFromString(s).Ok? <==> |pcs[0]| > 0 && |pcs| >= 3 && PyInt(pcs[2], 2).Some?
  {
  }

  /** Character k of the first piece sets bit |piece|-1-k of `coeff` iff it is '1';
      `tgt` is the piece '1'. */
  lemma BottomFromStringFacts(s: string, c: QPanelBottomUnitCfg)
    requires BottomFromString(s) == Ok(c)
    ensures var pcs := SplitOn(s, ' ');
      && (forall k :: 0 <= k < |pcs[0]| ==> (BitAt(c.coeff, |pcs[0]| - 1 - k) == 1 <==> pcs[0][k] == '1'))
      && c.coeff < Pow2(|pcs[0]|)
      && (c.tgt <==> pcs[1] == "1")
      && PyInt(pcs[2], 2) == Some(c.counterEn)
  {
    BottomFromStringFields(s, c);
    OnesMask(SplitOn(s, ' ')[0]);
  }

  /** The mask of the '1' characters of a piece, first character most significant. */
  lemma OnesMask(p: string)
    ensures MsbValue(CharBits(p, IsOne)) < Pow2(|p|)
    ensures forall k :: 0 <= k < |p| ==> (BitAt(MsbValue(CharBits(p, IsOne)), |p| - 1 - k) == 1 <==> p[k] == '1')
  {
    PieceMask(p, IsOne);
    forall k | 0 <= k < |p|
      ensures IsOne(p[k]) <==> p[k] == '1'
    {
    }
  }

  /** The fields of a parsed bottom unit, read off the three pieces. */
  lemma BottomFromStringFields(s: string, c: QPanelBottomUnitCfg)
    requires BottomFromString(s) == Ok(c)
    ensures var pcs := SplitOn(s, ' ');
      && |pcs| >= 3
      && c.coeff == MsbValue(CharBits(pcs[0], IsOne))
      && (c.tgt <==> pcs[1] == "1")
      && PyInt(pcs[2], 2) == Some(c.counterEn)
  {
  }

  // ----- Q-panel negation -----

  datatype QPanelNegatingCfg = QPanelNegatingCfg(topNegates: nat, globalNegates: nat)

  function NegatingRegisters(c: QPanelNegatingCfg): seq<int>
  {
    [c.topNegates, c.globalNegates]
  }

  /** `QPanelNegatingCfg.from_string`: 'five chars from 1-, space, five chars from 1-'. */
  function NegatingFromString(s: string): Result<QPanelNegatingCfg>
  {
    var pcs := SplitOn(s, ' ');
    if |pcs[0]| == 0 then Err(ValueError)
    else if |pcs| < 2 then Err(IndexError)
    else if |pcs[1]| == 0 then Err(ValueError)
    else Ok(QPanelNegatingCfg(MsbValue(CharBits(pcs[0], IsOne)), MsbValue(CharBits(pcs[1], IsOne))))
  }

  lemma NegatingFromStringFails(s: string)
    ensures var pcs := SplitOn(s, ' ');
      NegatingFromString(s).Ok? <==> |pcs[0]| > 0 && |pcs| >= 2 && |pcs[1]| > 0
  {
  }

  /** Character k of each piece sets the matching bit of its mask iff it is '1'. */
  lemma NegatingFromStringFacts(s: string, c: QPanelNegatingCfg)
    requires NegatingFromString(s) == Ok(c)
    ensures var pcs := SplitOn(s, ' ');
      && (forall k :: 0 <= k < |pcs[0]| ==> (BitAt(c.topNegates, |pcs[0]| - 1 - k) == 1 <==> pcs[0][k] == '1'))
      && (forall k :: 0 <= k < |pcs[1]| ==> (BitAt(c.globalNegates, |pcs[1]| - 1 - k) == 1 <==> pcs[1][k] == '1'))
  {
    var pcs := SplitOn(s, ' ');
    assert c.topNegates == MsbValue(CharBits(pcs[0], IsOne));
    assert c.globalNegates == MsbValue(CharBits(pcs[1], IsOne));
    PieceMask(pcs[0], IsOne);
    PieceMask(pcs[1], IsOne);
  }

  // ----- Step-count-vector stepping flags -----

  datatype SteppingCfg = SteppingCfg(fast: bool, slow: bool, trigger: bool, ignRpt: bool)

  const NoStepping := SteppingCfg(false, false, false, false)
  const StepFast := SteppingCfg(true, false, false, false)

  function B2I(b: bool): nat { if b then 1 else 0 }

  /** `cfg_half_octet` = 8*fast + 4*slow + 2*trigger + ign_rpt. */
  function HalfOctet(c: SteppingCfg): (r: nat)
    ensures r < 16
  {
    8 * B2I(c.fast) + 4 * B2I(c.slow) + 2 * B2I(c.trigger) + B2I(c.ignRpt)
  }

  /** The flags a half-octet carries. */
  function SteppingFromHalfOctet(n: nat): SteppingCfg
  {
    SteppingCfg((n / 8) % 2 == 1, (n / 4) % 2 == 1, (n / 2) % 2 == 1, n % 2 == 1)
  }

  /** The half-octet fits in four bits and carries every flag, so distinct flag tuples
      give distinct half-octets. */
  lemma HalfOctetRoundTrip(c: SteppingCfg)
    ensures SteppingFromHalfOctet(HalfOctet(c)) == c
  {
  }

  lemma HalfOctetInjective(c: SteppingCfg, d: SteppingCfg)
    ensures HalfOctet(c) == HalfOctet(d) <==> c == d
  {
    HalfOctetRoundTrip(c);
    HalfOctetRoundTrip(d);
  }

  // ----- Set-total (threshold) units -----

  /** The number of counters, each with its own set-total threshold and comparison. */
  const NCounters := 5

  datatype SetTotalOperation = CountGtThreshold | CountLtThreshold | AlwaysTrue
  {
    function Value(): nat
    {
      match this
      case CountGtThreshold => 0
      case CountLtThreshold => 1
      case AlwaysTrue => 2
    }
  }

  datatype SetTotalCfg = SetTotalCfg(threshold: int, operation: SetTotalOperation)

  const AlwaysPrint := SetTotalCfg(0, AlwaysTrue)
  const NeverPrint := SetTotalCfg(0, CountLtThreshold)

  /** `cfg_0`: the low byte of the threshold (Python's floor `%`, as Dafny's for a positive divisor). */
  function SetTotalCfg0(c: SetTotalCfg): int { c.threshold % 256 }

  /** `cfg_1`: the rest of the threshold plus the operation shifted into bits 6 and up. */
  function SetTotalCfg1(c: SetTotalCfg): int { c.threshold / 256 + c.operation.Value() * 64 }

  /** `cfg_1` is negative, and so written with a minus sign, exactly for a threshold below 0
      with GT, below -16384 with LT and below -32768 with AlwaysTrue. */
  lemma SetTotalCfg1NonNegative(c: SetTotalCfg)
    ensures c.operation == CountGtThreshold ==> (SetTotalCfg1(c) >= 0 <==> c.threshold >= 0)
    ensures c.operation == CountLtThreshold ==> (SetTotalCfg1(c) >= 0 <==> c.threshold >= -16384)
    ensures c.operation == AlwaysTrue ==> (SetTotalCfg1(c) >= 0 <==> c.threshold >= -32768)
  {
  }

  function OperationFromValue(v: int): Option<SetTotalOperation>
  {
    if v == 0 then Some(CountGtThreshold)
    else if v == 1 then Some(CountLtThreshold)
    else if v == 2 then Some(AlwaysTrue)
    else None
  }

  /** Reading a threshold configuration back from its two register bytes. */
  function SetTotalFromRegisters(c0: int, c1: int): Option<SetTotalCfg>
  {
    match OperationFromValue(c1 / 64)
    case None => None
    case Some(op) => Some(SetTotalCfg(c0 + 256 * (c1 % 64), op))
  }

  /** Whatever the threshold, cfg_0 + 256 * cfg_1 re-adds to it plus the operation in bit 14;
      the code does no range check, and only a threshold below 2^14 keeps both bytes in
      range and the operation bits clear of the threshold. */
  lemma SetTotalRoundTrip(c: SetTotalCfg)
    ensures SetTotalCfg0(c) + 256 * SetTotalCfg1(c) == c.threshold + 16384 * c.operation.Value()
    ensures 0 <= c.threshold < 16384 ==>
      && 0 <= SetTotalCfg0(c) < 256 && 0 <= SetTotalCfg1(c) < 256
      && SetTotalCfg1(c) / 64 == c.operation.Value()
      && SetTotalFromRegisters(SetTotalCfg0(c), SetTotalCfg1(c)) == Some(c)
  {
    if 0 <= c.threshold < 16384 {
      var hi := c.threshold / 256;
      assert 0 <= hi < 64;
      assert (hi + c.operation.Value() * 64) / 64 == c.operation.Value();
      assert (hi + c.operation.Value() * 64) % 64 == hi;
    }
  }
}
