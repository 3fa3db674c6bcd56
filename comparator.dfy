/** The comparator reference of tests/test_comparator_panel.py: each counter is compared
    with its threshold under its set-total operation, and the five outcomes are packed into
    a mask with counter 0 in the most significant bit. */
module Comparator {
  import opened Bits
  import opened Codecs

  /** `perform_cmp_1`: the outcome of one comparison of a count x with a threshold y. */
  function PerformCmp1(op: SetTotalOperation, x: int, y: int): (r: Bit)
    ensures op == CountGtThreshold ==> (r == 1 <==> x > y)
    ensures op == CountLtThreshold ==> (r == 1 <==> x < y)
    ensures op == AlwaysTrue ==> r == 1
  {
    match op
    case CountGtThreshold => if x > y then 1 else 0
    case CountLtThreshold => if x < y then 1 else 0
    case AlwaysTrue => 1
  }

  function Min3(a: nat, b: nat, c: nat): nat
  {
    if a <= b && a <= c then a else if b <= c then b else c
  }

  /** The outcomes of `zip(ops, xs, ys)`: as many as the shortest of the three. */
  function CmpVector(ops: seq<SetTotalOperation>, xs: seq<int>, ys: seq<int>): (v: seq<Bit>)
    ensures |v| == Min3(|ops|, |xs|, |ys|)
    ensures |v| <= |ops| && |v| <= |xs| && |v| <= |ys|
    ensures forall i :: 0 <= i < |v| ==> v[i] == PerformCmp1(ops[i], xs[i], ys[i])
  {
    seq(Min3(|ops|, |xs|, |ys|), i requires 0 <= i < Min3(|ops|, |xs|, |ys|) => PerformCmp1(ops[i], xs[i], ys[i]))
  }

  /** `perform_cmps`: the outcomes reversed and summed with weights 2^i, so the first
      comparison lands in the highest bit. */
  function PerformCmps(ops: seq<SetTotalOperation>, xs: seq<int>, ys: seq<int>): (r: nat)
    ensures r < Pow2(Min3(|ops|, |xs|, |ys|))
  {
    var v := Reverse(CmpVector(ops, xs, ys));
    LsbValueBound(v);
    LsbValue(v)
  }

  /** Comparison i sits in bit m - 1 - i of the mask, m being the number of comparisons;
      every bit from m upwards is 0. */
  lemma PerformCmpsBits(ops: seq<SetTotalOperation>, xs: seq<int>, ys: seq<int>)
    ensures var m := Min3(|ops|, |xs|, |ys|);
      forall i :: 0 <= i < m ==> BitAt(PerformCmps(ops, xs, ys), m - 1 - i) == PerformCmp1(ops[i], xs[i], ys[i])
    ensures forall k :: Min3(|ops|, |xs|, |ys|) <= k ==> BitAt(PerformCmps(ops, xs, ys), k) == 0
  {
    var v := CmpVector(ops, xs, ys);
    var m := |v|;
    LsbValueReverse(v);
    forall i | 0 <= i < m
      ensures BitAt(PerformCmps(ops, xs, ys), m - 1 - i) == PerformCmp1(ops[i], xs[i], ys[i])
    {
      MsbValueBit(v, i);
    }
    forall k | m <= k
      ensures BitAt(PerformCmps(ops, xs, ys), k) == 0
    {
      BitAtAbove(PerformCmps(ops, xs, ys), m, k);
    }
  }

  /** With one operation, threshold and count per counter, the mask fits in five bits and
      counter 0 is bit 4, counter 4 bit 0. */
  lemma PerformCmpsFiveCounters(ops: seq<SetTotalOperation>, xs: seq<int>, ys: seq<int>)
    requires |ops| == NCounters && |xs| == NCounters && |ys| == NCounters
    ensures PerformCmps(ops, xs, ys) < 32
    ensures forall i :: 0 <= i < NCounters ==> BitAt(PerformCmps(ops, xs, ys), 4 - i) == PerformCmp1(ops[i], xs[i], ys[i])
  {
    PerformCmpsBits(ops, xs, ys);
    assert Pow2(5) == 32;
  }

  /** The mask is 0 exactly when no comparison comes out 1. */
  lemma PerformCmpsZero(ops: seq<SetTotalOperation>, xs: seq<int>, ys: seq<int>)
    ensures PerformCmps(ops, xs, ys) == 0 <==>
      forall i :: 0 <= i < Min3(|ops|, |xs|, |ys|) ==> PerformCmp1(ops[i], xs[i], ys[i]) == 0
  {
    var v := CmpVector(ops, xs, ys);
    var rv := Reverse(v);
    LsbValueZero(rv);
    if forall i :: 0 <= i < |v| ==> v[i] == 0 {
      assert forall j :: 0 <= j < |rv| ==> rv[j] == 0;
    } else {
      var i :| 0 <= i < |v| && v[i] != 0;
      assert rv[|v| - 1 - i] != 0;
    }
  }

  /** `read_print_required`: 1 exactly when the print-required mask is nonzero. */
  function PrintRequired(ops: seq<SetTotalOperation>, xs: seq<int>, ys: seq<int>): (r: Bit)
    ensures r == 1 <==> exists i :: 0 <= i < Min3(|ops|, |xs|, |ys|) && PerformCmp1(ops[i], xs[i], ys[i]) == 1
  {
    PerformCmpsZero(ops, xs, ys);
    if PerformCmps(ops, xs, ys) != 0 then 1 else 0
  }

  /** `[op] * N_COUNTERS`. */
  function Repeat(op: SetTotalOperation): (r: seq<SetTotalOperation>)
    ensures |r| == NCounters && forall i :: 0 <= i < NCounters ==> r[i] == op
  {
    seq(NCounters, _ => op)
  }

  /** What `_test_comparison` expects the comparator to report for counts ctrs, thresholds
      thrs and configured operations ops. */
  datatype Expectation = Expectation(gt: nat, lt: nat, printVec: nat, printReq: Bit)

  function Expected(ctrs: seq<int>, thrs: seq<int>, ops: seq<SetTotalOperation>): (e: Expectation)
    requires |ctrs| == NCounters && |thrs| == NCounters && |ops| == NCounters
    ensures e.gt < 32 && e.lt < 32 && e.printVec < 32
    ensures e.printReq == 1 <==> e.printVec != 0
  {
    PerformCmpsFiveCounters(Repeat(CountGtThreshold), ctrs, thrs);
    PerformCmpsFiveCounters(Repeat(CountLtThreshold), ctrs, thrs);
    PerformCmpsFiveCounters(ops, ctrs, thrs);
    PerformCmpsZero(ops, ctrs, thrs);
    Expectation(PerformCmps(Repeat(CountGtThreshold), ctrs, thrs),
                PerformCmps(Repeat(CountLtThreshold), ctrs, thrs),
                PerformCmps(ops, ctrs, thrs),
                PrintRequired(ops, ctrs, thrs))
  }

  /** The bit an operation picks: the greater-than outcome, the less-than outcome or 1. */
  function Selected(op: SetTotalOperation, gtBit: Bit, ltBit: Bit): Bit
  {
    match op
    case CountGtThreshold => gtBit
    case CountLtThreshold => ltBit
    case AlwaysTrue => 1
  }

  /** The greater-than and less-than masks ignore the configured operations, never share a
      set bit, and each bit of the print-required mask is the greater-than bit, the
      less-than bit or 1, as that counter's operation selects. */
  lemma ExpectedBits(ctrs: seq<int>, thrs: seq<int>, ops: seq<SetTotalOperation>)
    requires |ctrs| == NCounters && |thrs| == NCounters && |ops| == NCounters
    ensures forall ops' :: |ops'| == NCounters ==>
      Expected(ctrs, thrs, ops').gt == Expected(ctrs, thrs, ops).gt &&
      Expected(ctrs, thrs, ops').lt == Expected(ctrs, thrs, ops).lt
    ensures forall k :: 0 <= k ==> BitAt(Expected(ctrs, thrs, ops).gt, k) == 0 || BitAt(Expected(ctrs, thrs, ops).lt, k) == 0
    ensures forall i :: 0 <= i < NCounters ==>
      BitAt(Expected(ctrs, thrs, ops).printVec, 4 - i) ==
        Selected(ops[i], BitAt(Expected(ctrs, thrs, ops).gt, 4 - i), BitAt(Expected(ctrs, thrs, ops).lt, 4 - i))
  {
    var e := Expected(ctrs, thrs, ops);
    PerformCmpsFiveCounters(Repeat(CountGtThreshold), ctrs, thrs);
    PerformCmpsFiveCounters(Repeat(CountLtThreshold), ctrs, thrs);
    PerformCmpsFiveCounters(ops, ctrs, thrs);
    PerformCmpsBits(Repeat(CountGtThreshold), ctrs, thrs);
    PerformCmpsBits(Repeat(CountLtThreshold), ctrs, thrs);
    forall k | 0 <= k
      ensures BitAt(e.gt, k) == 0 || BitAt(e.lt, k) == 0
    {
      if k < NCounters {
        var i := 4 - k;
        assert BitAt(e.gt, 4 - i) == PerformCmp1(CountGtThreshold, ctrs[i], thrs[i]);
        assert BitAt(e.lt, 4 - i) == PerformCmp1(CountLtThreshold, ctrs[i], thrs[i]);
      }
    }
  }

  /** Thresholds equal to the counts: the greater-than and less-than masks are 0, and the
      print-required mask has a bit set only for the counters whose operation is AlwaysTrue. */
  lemma EqualThresholds(ctrs: seq<int>, ops: seq<SetTotalOperation>)
    requires |ctrs| == NCounters && |ops| == NCounters
    ensures Expected(ctrs, ctrs, ops).gt == 0 && Expected(ctrs, ctrs, ops).lt == 0
    ensures Expected(ctrs, ctrs, ops).printReq == 1 <==> exists i :: 0 <= i < NCounters && ops[i] == AlwaysTrue
  {
    PerformCmpsZero(Repeat(CountGtThreshold), ctrs, ctrs);
    PerformCmpsZero(Repeat(CountLtThreshold), ctrs, ctrs);
    var e := Expected(ctrs, ctrs, ops);
    if e.printReq == 1 {
      var i :| 0 <= i < NCounters && PerformCmp1(ops[i], ctrs[i], ctrs[i]) == 1;
      assert ops[i] == AlwaysTrue;
    }
  }

  /** Five AlwaysTrue operations give the full mask 0x1f whatever the counts. */
  lemma AllAlwaysTrue(ctrs: seq<int>, thrs: seq<int>)
    requires |ctrs| == NCounters && |thrs| == NCounters
    ensures Expected(ctrs, thrs, Repeat(AlwaysTrue)).printVec == 0x1f
    ensures Expected(ctrs, thrs, Repeat(AlwaysTrue)).printReq == 1
  {
    var v := Reverse(CmpVector(Repeat(AlwaysTrue), ctrs, thrs));
    LsbValueAllOnes(v);
    assert Pow2(5) == 32;
  }

  /** The threshold offsets of `test_counting`: under, over, over, under, under. */
  const OverUnderOffsets: seq<int> := [-10, 10, 10, -10, -10]

  /** Thresholds 10 below counters 0, 3 and 4 and 10 above counters 1 and 2 give the
      greater-than mask 0b10011 and the less-than mask 0b01100, whatever the counts. */
  lemma OverUnderThresholds(ctrs: seq<int>, thrs: seq<int>, ops: seq<SetTotalOperation>)
    requires |ctrs| == NCounters && |thrs| == NCounters && |ops| == NCounters
    requires forall i :: 0 <= i < NCounters ==> thrs[i] == ctrs[i] + OverUnderOffsets[i]
    ensures Expected(ctrs, thrs, ops).gt == 0x13 && Expected(ctrs, thrs, ops).lt == 0x0c
  {
    OverMask(ctrs, thrs);
    UnderMask(ctrs, thrs);
  }

  lemma OverMask(ctrs: seq<int>, thrs: seq<int>)
    requires |ctrs| == NCounters && |thrs| == NCounters
    requires forall i :: 0 <= i < NCounters ==> thrs[i] == ctrs[i] + OverUnderOffsets[i]
    ensures PerformCmps(Repeat(CountGtThreshold), ctrs, thrs) == 0x13
  {
    var g := CmpVector(Repeat(CountGtThreshold), ctrs, thrs);
    assert g == [1, 0, 0, 1, 1];
    assert Reverse(g) == [1, 1, 0, 0, 1];
    FiveBitsValue([1, 1, 0, 0, 1]);
  }

  lemma UnderMask(ctrs: seq<int>, thrs: seq<int>)
    requires |ctrs| == NCounters && |thrs| == NCounters
    requires forall i :: 0 <= i < NCounters ==> thrs[i] == ctrs[i] + OverUnderOffsets[i]
    ensures PerformCmps(Repeat(CountLtThreshold), ctrs, thrs) == 0x0c
  {
    var l := CmpVector(Repeat(CountLtThreshold), ctrs, thrs);
    assert l == [0, 1, 1, 0, 0];
    assert Reverse(l) == [0, 0, 1, 1, 0];
    FiveBitsValue([0, 0, 1, 1, 0]);
  }

  /** The value of five bits, least significant first. */
  lemma FiveBitsValue(b: seq<Bit>)
    requires |b| == 5
    ensures LsbValue(b) == b[0] as nat + 2 * (b[1] as nat) + 4 * (b[2] as nat) + 8 * (b[3] as nat) + 16 * (b[4] as nat)
  {
    assert LsbValue(b[4..]) == b[4] by { assert b[4..][1..] == []; }
    assert b[3..][1..] == b[4..] && b[2..][1..] == b[3..] && b[1..][1..] == b[2..];
    assert LsbValue(b[3..]) == b[3] + 2 * LsbValue(b[4..]);
    assert LsbValue(b[2..]) == b[2] + 2 * LsbValue(b[3..]);
    assert LsbValue(b[1..]) == b[1] + 2 * LsbValue(b[2..]);
  }
}
