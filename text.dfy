/** Character-level helpers: Python's '%02x' formatting and int() parsing, C++'s decimal
    output of an int, and Python's two ways of splitting a string. */
module Text {
  import opened Wrappers

  /** Python's str.isspace(): the separators of str.split() and what int() strips. */
  predicate IsSpace(c: char)
  {
    c == ' ' || ('\t' <= c <= '\r') || ('\U{1c}' <= c <= '\U{1f}') || c == '\U{85}' || c == '\U{a0}'
    || c == '\U{1680}' || ('\U{2000}' <= c <= '\U{200a}') || c == '\U{2028}' || c == '\U{2029}'
    || c == '\U{202f}' || c == '\U{205f}' || c == '\U{3000}'
  }

  predicate NoSpace(s: string)
  {
    forall i :: 0 <= i < |s| ==> !IsSpace(s[i])
  }

  /** Joining two strings without whitespace gives a string without whitespace. */
  lemma NoSpaceConcat(a: string, b: string)
    requires NoSpace(a) && NoSpace(b)
    ensures NoSpace(a + b)
  {
    forall i | 0 <= i < |a + b|
      ensures !IsSpace((a + b)[i])
    {
      if i < |a| {
        assert (a + b)[i] == a[i];
      } else {
        assert (a + b)[i] == b[i - |a|];
      }
    }
  }

  /** The value of an ASCII digit or letter as a digit of a base up to 36. */
  function DigitValue(c: char): Option<nat>
  {
    if '0' <= c <= '9' then Some(c as nat - '0' as nat)
    else if 'a' <= c <= 'z' then Some(c as nat - 'a' as nat + 10)
    else if 'A' <= c <= 'Z' then Some(c as nat - 'A' as nat + 10)
    else None
  }

  predicate IsDigit(c: char, base: nat)
  {
    DigitValue(c).Some? && DigitValue(c).value < base
  }

  predicate AllDigits(s: string, base: nat)
  {
    forall i :: 0 <= i < |s| ==> IsDigit(s[i], base)
  }

  /** The value of a digit string, most significant digit first. */
  function DigitsValue(s: string, base: nat): nat
    requires AllDigits(s, base)
  {
    if |s| == 0 then 0
    else DigitsValue(s[..|s| - 1], base) * base + DigitValue(s[|s| - 1]).value
  }

  function StripLeft(s: string): (r: string)
    ensures |r| <= |s|
  {
    if |s| > 0 && IsSpace(s[0]) then StripLeft(s[1..]) else s
  }

  function StripRight(s: string): (r: string)
    ensures |r| <= |s|
  {
    if |s| > 0 && IsSpace(s[|s| - 1]) then StripRight(s[..|s| - 1]) else s
  }

  /** The text int() reads a number from: s without the whitespace around it. */
  function Stripped(s: string): string
  {
    StripRight(StripLeft(s))
  }

  /** The stripped text starts with a minus sign. */
  predicate Negative(s: string)
  {
    var t := Stripped(s);
    |t| > 0 && t[0] == '-'
  }

  /** The stripped text without its sign, if it has one. */
  function Unsigned(s: string): string
  {
    var t := Stripped(s);
    if |t| > 0 && (t[0] == '+' || t[0] == '-') then t[1..] else t
  }

  /** The radix prefix int() allows for an explicit base: "0b"/"0B" for 2, "0x"/"0X" for 16. */
  predicate HasRadixPrefix(u: string, base: nat)
  {
    |u| >= 2 && u[0] == '0'
    && ((base == 2 && (u[1] == 'b' || u[1] == 'B')) || (base == 16 && (u[1] == 'x' || u[1] == 'X')))
  }

  /** The digits int() reads: the unsigned text without its radix prefix. */
  function DigitPart(s: string, base: nat): string
  {
    var u := Unsigned(s);
    if HasRadixPrefix(u, base) then u[2..] else u
  }

  /** Python's int(s, base) for base 2, 10 or 16: surrounding whitespace, an optional sign,
      an optional radix prefix and at least one digit; anything else raises ValueError (None
      here). */
  function PyInt(s: string, base: nat): (r: Option<int>)
    requires base == 2 || base == 10 || base == 16
    ensures r.Some? <==> |DigitPart(s, base)| > 0 && AllDigits(DigitPart(s, base), base)
    ensures r.Some? && !Negative(s) ==> r.value == DigitsValue(DigitPart(s, base), base)
    ensures r.Some? && Negative(s) ==> r.value == -(DigitsValue(DigitPart(s, base), base) as int)
    ensures AllDigits(s, base) && |s| > 0 ==> r == Some(DigitsValue(s, base))
  {
    var ds := DigitPart(s, base);
    if |ds| == 0 || !AllDigits(ds, base) then None
    else if Negative(s) then
      var m: int := DigitsValue(ds, base);
      Some(-m)
    else
      assert AllDigits(s, base) && |s| > 0 ==> Stripped(s) == s && ds == s by {
        if AllDigits(s, base) && |s| > 0 {
          assert !IsDigit('x', 16) && !IsDigit('X', 16) && !IsDigit('b', 2) && !IsDigit('B', 2);
          assert IsDigit(s[0], base) && IsDigit(s[|s| - 1], base);
        }
      }
      Some(DigitsValue(ds, base))
  }

  /** The radix prefix int() allows for base 2 or 16, in lower or upper case. */
  function RadixPrefix(base: nat, upper: bool): string
  {
    if base == 2 then (if upper then "0B" else "0b") else (if upper then "0X" else "0x")
  }

  /** int() reads a prefixed numeral: int("0b" + ds, 2) and int("0x" + ds, 16) are the value
      of the digits, in either case of the prefix. */
  lemma PyIntPrefixed(ds: string, base: nat, upper: bool)
    requires base == 2 || base == 16
    requires |ds| > 0 && AllDigits(ds, base)
    ensures PyInt(RadixPrefix(base, upper) + ds, base) == Some(DigitsValue(ds, base))
  {
    var p := RadixPrefix(base, upper) + ds;
    DigitNotSpace(ds[|ds| - 1], base);
    assert p[|p| - 1] == ds[|ds| - 1];
    StripNoSpace(p);
    assert Unsigned(p) == p;
    assert HasRadixPrefix(p, base);
    assert p[2..] == ds;
  }

  /** A minus sign in front of a prefixed numeral negates its value. */
  lemma PyIntPrefixedNegative(q: string, ds: string, base: nat, upper: bool)
    requires base == 2 || base == 16
    requires |ds| > 0 && AllDigits(ds, base)
    requires q == "-" + RadixPrefix(base, upper) + ds
    ensures PyInt(q, base) == Some(-(DigitsValue(ds, base) as int))
  {
    NegativePrefixedParts(ds, base, upper);
    PyIntNegative(q, base);
  }

  /** int() of a negative numeral is minus the value of its digits. */
  lemma PyIntNegative(s: string, base: nat)
    requires base == 2 || base == 10 || base == 16
    requires |DigitPart(s, base)| > 0 && AllDigits(DigitPart(s, base), base) && Negative(s)
    ensures PyInt(s, base) == Some(-(DigitsValue(DigitPart(s, base), base) as int))
  {
  }

  lemma NegativePrefixedParts(ds: string, base: nat, upper: bool)
    requires base == 2 || base == 16
    requires |ds| > 0 && AllDigits(ds, base)
    ensures Negative("-" + RadixPrefix(base, upper) + ds)
    ensures DigitPart("-" + RadixPrefix(base, upper) + ds, base) == ds
  {
    var p := RadixPrefix(base, upper) + ds;
    var q := "-" + p;
    assert q == "-" + RadixPrefix(base, upper) + ds;
    DigitNotSpace(ds[|ds| - 1], base);
    assert q[|q| - 1] == ds[|ds| - 1];
    StripNoSpace(q);
    assert q[1..] == p;
    assert Unsigned(q) == p;
    assert HasRadixPrefix(p, base);
    assert p[2..] == ds;
  }

  lemma DigitNotSpace(c: char, base: nat)
    requires base <= 36 && IsDigit(c, base)
    ensures !IsSpace(c)
  {
  }

  /** A string that neither starts nor ends with whitespace is its own stripped text. */
  lemma StripNoSpace(s: string)
    requires |s| > 0 && !IsSpace(s[0]) && !IsSpace(s[|s| - 1])
    ensures Stripped(s) == s
  {
  }

  function HexChar(d: nat): (c: char)
    requires d < 16
    ensures IsDigit(c, 16) && DigitValue(c).value == d && !IsSpace(c)
  {
    if d < 10 then ('0' as nat + d) as char else ('a' as nat + d - 10) as char
  }

  function DecChar(d: nat): (c: char)
    requires d < 10
    ensures IsDigit(c, 10) && DigitValue(c).value == d && !IsSpace(c)
  {
    ('0' as nat + d) as char
  }

  /** The shortest lower-case hexadecimal digit string of x. */
  function HexDigits(x: nat): (r: string)
    ensures |r| >= 1
  {
    if x < 16 then [HexChar(x)] else HexDigits(x / 16) + [HexChar(x % 16)]
  }

  /** Python's '{0:02x}'.format(x): hexadecimal, padded with zeros to at least two digits. */
  function Format02x(x: nat): (r: string)
    ensures |r| >= 2
  {
    if x < 16 then ['0', HexChar(x)] else HexDigits(x)
  }

  /** C++'s `os << static_cast<int>(x)` for a non-negative x: decimal without padding. */
  function Decimal(x: nat): (r: string)
    ensures |r| >= 1
  {
    if x < 10 then [DecChar(x)] else Decimal(x / 10) + [DecChar(x % 10)]
  }

  lemma {:induction false} HexDigitsFacts(x: nat)
    ensures AllDigits(HexDigits(x), 16) && NoSpace(HexDigits(x))
    ensures DigitsValue(HexDigits(x), 16) == x
    ensures |HexDigits(x)| == 1 <==> x < 16
    ensures |HexDigits(x)| == 2 <==> 16 <= x < 256
  {
    if x >= 16 {
      HexDigitsFacts(x / 16);
      var r := HexDigits(x);
      assert r[..|r| - 1] == HexDigits(x / 16);
    }
  }

  /** '%02x' is undone by int(_, 16), and is exactly two characters long for a byte. */
  lemma Format02xFacts(x: nat)
    ensures AllDigits(Format02x(x), 16) && NoSpace(Format02x(x))
    ensures PyInt(Format02x(x), 16) == Some(x)
    ensures |Format02x(x)| == 2 <==> x < 256
  {
    HexDigitsFacts(x);
    var r := Format02x(x);
    if x < 16 {
      assert r[..1] == ['0'];
      assert DigitsValue(r[..1], 16) == 0;
    }
  }

  lemma {:induction false} DecimalFacts(x: nat)
    ensures AllDigits(Decimal(x), 10) && NoSpace(Decimal(x))
    ensures DigitsValue(Decimal(x), 10) == x
  {
    if x >= 10 {
      DecimalFacts(x / 10);
      var r := Decimal(x);
      assert r[..|r| - 1] == Decimal(x / 10);
    }
  }

  /** C++'s decimal output of a byte is read back by Python's int(). */
  lemma DecimalRoundTrip(x: nat)
    ensures NoSpace(Decimal(x)) && PyInt(Decimal(x), 10) == Some(x)
  {
    DecimalFacts(x);
  }

  /** The length of the leading run of non-space characters. */
  function WordEnd(s: string): (k: nat)
    ensures k <= |s| && NoSpace(s[..k]) && (k < |s| ==> IsSpace(s[k]))
  {
    if |s| == 0 || IsSpace(s[0]) then 0
    else
      var k := 1 + WordEnd(s[1..]);
      assert s[..k] == [s[0]] + s[1..][..k - 1];
      k
  }

  /** Python's s.split() with no argument: the maximal runs of non-space characters. */
  function Split(s: string): (r: seq<string>)
    ensures forall i :: 0 <= i < |r| ==> |r[i]| > 0 && NoSpace(r[i])
    decreases |s|
  {
    if |s| == 0 then []
    else if IsSpace(s[0]) then Split(s[1..])
    else
      var k := WordEnd(s);
      [s[..k]] + Split(s[k..])
  }

  /** Python's s.split(sep) for a one-character separator: every occurrence separates,
      so there is always one more piece than there are separators. */
  function SplitOn(s: string, sep: char): (r: seq<string>)
    ensures |r| >= 1
  {
    if |s| == 0 then [""]
    else if s[0] == sep then [""] + SplitOn(s[1..], sep)
    else
      var rest := SplitOn(s[1..], sep);
      [[s[0]] + rest[0]] + rest[1..]
  }

  lemma {:induction false} WordEndOfWord(w: string, t: string)
    requires |w| > 0 && NoSpace(w) && (|t| > 0 ==> IsSpace(t[0]))
    ensures WordEnd(w + t) == |w|
  {
    if |w| > 1 {
      assert (w + t)[1..] == w[1..] + t;
      WordEndOfWord(w[1..], t);
    } else {
      assert (w + t)[1..] == t;
    }
  }

  /** A leading word followed by a space (or nothing) is split off whole. */
  lemma SplitWordHead(w: string, rest: string)
    requires |w| > 0 && NoSpace(w) && (|rest| > 0 ==> IsSpace(rest[0]))
    ensures Split(w + rest) == [w] + Split(rest)
  {
    var s := w + rest;
    WordEndOfWord(w, rest);
    assert s[0] == w[0] && !IsSpace(s[0]);
    assert s[..|w|] == w && s[|w|..] == rest;
  }

  /** A leading space is dropped. */
  lemma SplitSpace(t: string)
    ensures Split(" " + t) == Split(t)
  {
    assert (" " + t)[1..] == t;
  }

  lemma SplitCons(w: string, t: string)
    requires |w| > 0 && NoSpace(w)
    ensures Split(w + " " + t) == [w] + Split(t)
  {
    assert w + " " + t == w + (" " + t);
    SplitWordHead(w, " " + t);
    SplitSpace(t);
  }

  lemma SplitOne(w: string)
    requires |w| > 0 && NoSpace(w)
    ensures Split(w) == [w]
  {
    WordEndOfWord(w, "");
    assert w + "" == w;
    assert w[..|w|] == w && w[|w|..] == "";
  }

  /** Splitting words joined by single spaces gives the words back. */
  lemma SplitWords(a: string, b: string, c: string)
    requires |a| > 0 && |b| > 0 && |c| > 0 && NoSpace(a) && NoSpace(b) && NoSpace(c)
    ensures Split(a + " " + b + " " + c) == [a, b, c]
  {
    var bc := b + " " + c;
    JoinRight(a, b, c);
    SplitCons(a, bc);
    SplitCons(b, c);
    SplitOne(c);
  }

  /** Joining three words with spaces, grouped to the right. */
  lemma JoinRight(a: string, b: string, c: string)
    ensures a + " " + b + " " + c == a + " " + (b + " " + c)
  {
    var x, y := a + " ", b + " ";
    assert a + " " + b + " " + c == x + y + c;
    assert a + " " + (b + " " + c) == x + (y + c);
  }

  lemma {:induction false} SplitOnNoSep(a: string, sep: char, b: string)
    requires forall i :: 0 <= i < |a| ==> a[i] != sep
    ensures SplitOn(a + [sep] + b, sep) == [a] + SplitOn(b, sep)
  {
    if |a| == 0 {
      assert a + [sep] + b == [sep] + b;
      assert ([sep] + b)[1..] == b;
    } else {
      assert (a + [sep] + b)[1..] == a[1..] + [sep] + b;
      SplitOnNoSep(a[1..], sep, b);
      assert [a[0]] + a[1..] == a;
    }
  }

  lemma {:induction false} SplitOnLast(a: string, sep: char)
    requires forall i :: 0 <= i < |a| ==> a[i] != sep
    ensures SplitOn(a, sep) == [a]
  {
    if |a| > 0 {
      SplitOnLast(a[1..], sep);
      assert [a[0]] + a[1..] == a;
    }
  }
}
