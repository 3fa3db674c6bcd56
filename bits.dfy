/** Bit strings and their numeric values, shared by the register codecs, the wheel-pattern
    loader, the comparator packing and the GPIO byte transfer. */
module Bits {

  /** A cam, an impulse or a comparison outcome: 0 or 1. */
  type Bit = b: int | 0 <= b <= 1

  function Pow2(n: nat): (r: nat)
    ensures r >= 1
  {
    if n == 0 then 1 else 2 * Pow2(n - 1)
  }

  /** Bit k of x, counting from the least-significant bit 0. */
  function BitAt(x: nat, k: nat): Bit
  {
    if k == 0 then x % 2 else BitAt(x / 2, k - 1)
  }

  /** The value of a bit string read most-significant bit first. */
  function MsbValue(bits: seq<Bit>): nat
  {
    if |bits| == 0 then 0 else 2 * MsbValue(bits[..|bits| - 1]) + bits[|bits| - 1]
  }

  /** The value of a bit string read least-significant bit first: the sum of bits[i] * 2^i. */
  function LsbValue(bits: seq<Bit>): nat
  {
    if |bits| == 0 then 0 else bits[0] + 2 * LsbValue(bits[1..])
  }

  function Reverse<T>(s: seq<T>): (r: seq<T>)
    ensures |r| == |s|
    ensures forall i :: 0 <= i < |s| ==> r[i] == s[|s| - 1 - i]
  {
    if |s| == 0 then [] else Reverse(s[1..]) + [s[0]]
  }

  function Zeros(n: nat): (r: seq<Bit>)
    ensures |r| == n && forall i :: 0 <= i < n ==> r[i] == 0
  {
    seq(n, _ => 0)
  }

  lemma {:induction false} BitAtZero(k: nat)
    ensures BitAt(0, k) == 0
  {
    if k > 0 { BitAtZero(k - 1); }
  }

  /** Bits at or above position n of a number below 2^n are 0. */
  lemma {:induction false} BitAtAbove(x: nat, n: nat, k: nat)
    requires x < Pow2(n) && n <= k
    ensures BitAt(x, k) == 0
  {
    if n == 0 {
      BitAtZero(k);
    } else {
      BitAtAbove(x / 2, n - 1, k - 1);
    }
  }

  lemma {:induction false} MsbValueBound(bits: seq<Bit>)
    ensures MsbValue(bits) < Pow2(|bits|)
  {
    if |bits| > 0 { MsbValueBound(bits[..|bits| - 1]); }
  }

  /** Character k of a most-significant-first bit string is bit |bits|-1-k of its value. */
  lemma {:induction false} MsbValueBit(bits: seq<Bit>, k: nat)
    requires k < |bits|
    ensures BitAt(MsbValue(bits), |bits| - 1 - k) == bits[k]
  {
    var n := |bits|;
    var v := MsbValue(bits[..n - 1]);
    assert MsbValue(bits) == 2 * v + bits[n - 1];
    assert (2 * v + bits[n - 1]) / 2 == v;
    if k < n - 1 {
      MsbValueBit(bits[..n - 1], k);
      assert bits[..n - 1][k] == bits[k];
    }
  }

  /** Concatenation shifts the high part left by the width of the low part. */
  lemma {:induction false} MsbValueAppend(a: seq<Bit>, b: seq<Bit>)
    ensures MsbValue(a + b) == MsbValue(a) * Pow2(|b|) + MsbValue(b)
  {
    if |b| == 0 {
      assert a + b == a;
    } else {
      var b', last := b[..|b| - 1], b[|b| - 1];
      var ab := a + b;
      assert ab[..|ab| - 1] == a + b';
      assert ab[|ab| - 1] == last;
      MsbValueAppend(a, b');
      assert MsbValue(b) == 2 * MsbValue(b') + last;
      ShiftStep(MsbValue(a), Pow2(|b'|), MsbValue(b'), last);
    }
  }

  lemma ShiftStep(x: int, p: int, y: int, last: int)
    ensures 2 * (x * p + y) + last == x * (2 * p) + (2 * y + last)
  {
  }

  /** Leading zeros do not change the value. */
  lemma {:induction false} MsbValueLeadingZeros(n: nat, b: seq<Bit>)
    ensures MsbValue(Zeros(n) + b) == MsbValue(b)
  {
    MsbValueAppend(Zeros(n), b);
    MsbValueOfZeros(n);
  }

  lemma {:induction false} MsbValueOfZeros(n: nat)
    ensures MsbValue(Zeros(n)) == 0
  {
    if n > 0 {
      assert Zeros(n)[..n - 1] == Zeros(n - 1);
      MsbValueOfZeros(n - 1);
    }
  }

  /** Bit k of a least-significant-first value is bits[k]. */
  lemma {:induction false} LsbValueBit(bits: seq<Bit>, k: nat)
    requires k < |bits|
    ensures BitAt(LsbValue(bits), k) == bits[k]
  {
    var v := LsbValue(bits[1..]);
    assert (bits[0] + 2 * v) % 2 == bits[0];
    assert (bits[0] + 2 * v) / 2 == v;
    if k > 0 { LsbValueBit(bits[1..], k - 1); }
  }

  lemma {:induction false} LsbValueBound(bits: seq<Bit>)
    ensures LsbValue(bits) < Pow2(|bits|)
  {
    if |bits| > 0 { LsbValueBound(bits[1..]); }
  }

  /** Reading a string backwards least-significant first is reading it forwards most-significant first. */
  lemma {:induction false} LsbValueReverse(bits: seq<Bit>)
    ensures LsbValue(Reverse(bits)) == MsbValue(bits)
  {
    if |bits| > 0 {
      var n := |bits|;
      var r := Reverse(bits);
      assert r[0] == bits[n - 1];
      assert r[1..] == Reverse(bits[..n - 1]);
      LsbValueReverse(bits[..n - 1]);
    }
  }

  /** A value is zero exactly when every one of its bits is. */
  lemma {:induction false} LsbValueZero(bits: seq<Bit>)
    ensures LsbValue(bits) == 0 <==> forall i :: 0 <= i < |bits| ==> bits[i] == 0
  {
    if |bits| > 0 {
      LsbValueZero(bits[1..]);
      assert forall i :: 1 <= i < |bits| ==> bits[i] == bits[1..][i - 1];
    }
  }

  /** A string of n ones is 2^n - 1. */
  lemma {:induction false} LsbValueAllOnes(bits: seq<Bit>)
    requires forall i :: 0 <= i < |bits| ==> bits[i] == 1
    ensures LsbValue(bits) == Pow2(|bits|) - 1
  {
    if |bits| > 0 { LsbValueAllOnes(bits[1..]); }
  }

  /** The n low bits of v, most significant first. */
  function ToMsbBits(v: nat, n: nat): (r: seq<Bit>)
    ensures |r| == n
  {
    if n == 0 then [] else ToMsbBits(v / 2, n - 1) + [v % 2]
  }

  lemma {:induction false} ToMsbBitsAt(v: nat, n: nat, k: nat)
    requires k < n
    ensures ToMsbBits(v, n)[k] == BitAt(v, n - 1 - k)
  {
    if k < n - 1 {
      ToMsbBitsAt(v / 2, n - 1, k);
    }
  }

  /** Writing a value below 2^n out as n bits and reading them back gives the value. */
  lemma {:induction false} MsbValueOfToMsbBits(v: nat, n: nat)
    requires v < Pow2(n)
    ensures MsbValue(ToMsbBits(v, n)) == v
  {
    if n > 0 {
      var r := ToMsbBits(v, n);
      assert r[..n - 1] == ToMsbBits(v / 2, n - 1);
      MsbValueOfToMsbBits(v / 2, n - 1);
    }
  }

  /** Reading n bits and writing the value back out as n bits gives the bits. */
  lemma {:induction false} ToMsbBitsOfMsbValue(bits: seq<Bit>)
    ensures ToMsbBits(MsbValue(bits), |bits|) == bits
  {
    if |bits| > 0 {
      var n := |bits|;
      var v := MsbValue(bits[..n - 1]);
      assert MsbValue(bits) == 2 * v + bits[n - 1];
      assert (2 * v + bits[n - 1]) / 2 == v && (2 * v + bits[n - 1]) % 2 == bits[n - 1];
      ToMsbBitsOfMsbValue(bits[..n - 1]);
    }
  }
}
