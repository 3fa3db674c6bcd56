/** The closed-form keystream model of tests/wheels.py: wheel rotation, cyclic impulse
    streams, five-impulse letters, the Chi stream and the motor-gated Psi stream built by
    gathering through cumulative sums of the Mu streams. */
module Wheels {
  import opened Wrappers
  import opened Bits

  type Cam = Bit

  // The cam counts of the twelve wheels, as `Colossus` lists them.
  const NWheels := 12
  const NCamsChi: seq<nat> := [41, 31, 29, 26, 23]
  const NCamsPsi: seq<nat> := [43, 47, 51, 53, 59]
  const NCamsMu: seq<nat> := [61, 37]
  const NCamsAll: seq<nat> := NCamsChi + NCamsPsi + NCamsMu

  function Min(a: nat, b: nat): nat
  {
    if a <= b then a else b
  }

  /** `letter_from_impulses` on five scalar impulses, impulse 0 weighted 16. */
  function LetterFromImpulses(imp: seq<int>): int
    requires |imp| >= 5
  {
    16 * imp[0] + 8 * imp[1] + 4 * imp[2] + 2 * imp[3] + 1 * imp[4]
  }

  /** On five cams, the letter is the five-bit number with impulse 0 as its most
      significant bit. */
  lemma LetterFromCams(imp: seq<Cam>)
    requires |imp| == 5
    ensures LetterFromImpulses(imp) == MsbValue(imp)
    ensures 0 <= LetterFromImpulses(imp) < 32
    ensures forall k :: 0 <= k < 5 ==> BitAt(LetterFromImpulses(imp), 4 - k) == imp[k]
  {
    var i0, i1, i2, i3, i4: int := imp[0], imp[1], imp[2], imp[3], imp[4];
    assert MsbValue(imp[..1]) == i0 by { assert imp[..1][..0] == []; }
    assert MsbValue(imp[..2]) == 2 * i0 + i1 by { assert imp[..2][..1] == imp[..1]; }
    assert MsbValue(imp[..3]) == 4 * i0 + 2 * i1 + i2 by { assert imp[..3][..2] == imp[..2]; }
    assert MsbValue(imp[..4]) == 8 * i0 + 4 * i1 + 2 * i2 + i3 by { assert imp[..4][..3] == imp[..3]; }
    assert MsbValue(imp) == 16 * i0 + 8 * i1 + 4 * i2 + 2 * i3 + i4;
    MsbValueBound(imp);
    forall k | 0 <= k < 5
      ensures BitAt(MsbValue(imp), 4 - k) == imp[k]
    {
      MsbValueBit(imp, k);
    }
  }

  /** `np.tile(w, reps)`: w repeated reps times. */
  function Tile<T>(w: seq<T>, reps: nat): (r: seq<T>)
    ensures |r| == reps * |w|
  {
    if reps == 0 then [] else Tile(w, reps - 1) + w
  }

  lemma MulAtLeast(k: int, len: nat)
    requires k >= 1
    ensures k * len >= len
  {
  }

  lemma ModOfShift(q: nat, len: nat, j: nat)
    requires j < len
    ensures (q * len + j) % len == j
  {
    var x := q * len + j;
    var d, r := x / len, x % len;
    assert x == d * len + r;
    assert (d - q) * len == j - r;
    if d - q >= 1 {
      MulAtLeast(d - q, len);
    } else if q - d >= 1 {
      MulAtLeast(q - d, len);
    }
  }

  /** Quotient and remainder are the only ones with x = q * len + r and 0 <= r < len. */
  lemma DivModUnique(x: nat, len: nat, q: nat, r: nat)
    requires len > 0 && r < len && x == q * len + r
    ensures x / len == q && x % len == r
  {
    var d, m := x / len, x % len;
    assert x == d * len + m;
    assert (d - q) * len == r - m;
    if d - q >= 1 {
      MulAtLeast(d - q, len);
    } else if q - d >= 1 {
      MulAtLeast(q - d, len);
    }
  }

  /** x is its quotient times len plus its remainder, and the remainder is below len. */
  lemma DivModSplit(x: nat, len: nat)
    requires len > 0
    ensures x == (x / len) * len + x % len && x % len < len
  {
  }

  /** x is below b * len exactly when its quotient by len is below b. */
  lemma DivBelow(x: nat, len: nat, b: nat)
    requires len > 0
    ensures x < b * len <==> x / len < b
  {
    DivModSplit(x, len);
    if x / len < b {
      MulMono(x / len + 1, b, len);
    } else {
      MulMono(b, x / len, len);
    }
  }

  /** Multiplying by the same factor keeps the order. */
  lemma MulMono(a: nat, b: nat, c: nat)
    requires a <= b
    ensures a * c <= b * c
  {
    assert b * c == a * c + (b - a) * c;
  }

  lemma {:induction false} TileAt<T>(w: seq<T>, reps: nat, i: nat)
    requires i < reps * |w|
    ensures Tile(w, reps)[i] == w[i % |w|]
  {
    if i < (reps - 1) * |w| {
      TileAt(w, reps - 1, i);
    } else {
      ModOfShift(reps - 1, |w|, i - (reps - 1) * |w|);
    }
  }

  /** The integer ceiling of n / d, times d, covers n. */
  lemma CeilCovers(n: nat, d: nat)
    requires d > 0
    ensures ((n + d - 1) / d) * d >= n
  {
    var q := (n + d - 1) / d;
    assert n + d - 1 == q * d + (n + d - 1) % d;
  }

  /** `impulse_stream_from_wheel`: n sprockets of the wheel read cyclically. */
  function ImpulseStream<T>(w: seq<T>, n: nat): (r: seq<T>)
    requires |w| > 0
    ensures |r| == n
  {
    seq(n, i requires 0 <= i < n => w[i % |w|])
  }

  /** Element i of the stream is cam i mod L of the wheel. */
  lemma ImpulseStreamAt<T>(w: seq<T>, n: nat, i: nat)
    requires |w| > 0 && i < n
    ensures ImpulseStream(w, n)[i] == w[i % |w|]
  {
  }

  /** The stream is the first n elements of ceil(n / L) copies of the wheel laid end to
      end, which is how `impulse_stream_from_wheel` builds it with `np.tile`. */
  lemma ImpulseStreamIsTile<T>(w: seq<T>, n: nat)
    requires |w| > 0
    ensures var reps := (n + |w| - 1) / |w|;
      reps * |w| >= n && ImpulseStream(w, n) == Tile(w, reps)[..n]
  {
    var reps := (n + |w| - 1) / |w|;
    CeilCovers(n, |w|);
    var t := Tile(w, reps)[..n];
    forall i | 0 <= i < n
      ensures t[i] == w[i % |w|]
    {
      TileAt(w, reps, i);
    }
  }

  lemma ModBelow(x: nat, len: nat)
    requires x < len
    ensures x % len == x
  {
  }

  lemma ModOnce(x: nat, len: nat)
    requires len <= x < 2 * len
    ensures x % len == x - len
  {
    ModOfShift(1, len, x - len);
  }

  /** `rot_wheel`: `w[n:] + w[:n]`. Python's slices clamp, so rotating by more than the
      length leaves the wheel as it is. */
  function RotWheel<T>(w: seq<T>, n: nat): (r: seq<T>)
    ensures |r| == |w|
  {
    var k := Min(n, |w|);
    w[k..] + w[..k]
  }

  /** For a rotation by at most the length, element i of the result is element
      (i + n) mod L of the wheel. */
  lemma RotWheelAt<T>(w: seq<T>, n: nat, i: nat)
    requires n <= |w| && i < |w|
    ensures RotWheel(w, n)[i] == w[(i + n) % |w|]
  {
    if i + n < |w| {
      ModBelow(i + n, |w|);
    } else {
      ModOnce(i + n, |w|);
    }
  }

  /** Rotating by the length or more leaves the wheel as it is. */
  lemma RotWheelBeyond<T>(w: seq<T>, n: nat)
    requires n >= |w|
    ensures RotWheel(w, n) == w
  {
    assert w[|w|..] == [] && w[..|w|] == w;
  }

  /** Each wheel rotated by its setting, as far as `zip` pairs them. */
  function Rotated(wheels: seq<seq<Cam>>, settings: seq<nat>): (r: seq<seq<Cam>>)
    ensures |r| == Min(|wheels|, |settings|)
  {
    seq(Min(|wheels|, |settings|), k requires 0 <= k < Min(|wheels|, |settings|) => RotWheel(wheels[k], settings[k]))
  }

  predicate NonEmptyWheels(wheels: seq<seq<Cam>>)
  {
    forall k :: 0 <= k < |wheels| ==> |wheels[k]| > 0
  }

  /** The impulse streams of n sprockets for each wheel. */
  function Impulses(wheels: seq<seq<Cam>>, n: nat): (r: seq<seq<Cam>>)
    requires NonEmptyWheels(wheels)
    ensures |r| == |wheels| && forall k :: 0 <= k < |r| ==> |r[k]| == n
  {
    seq(|wheels|, k requires 0 <= k < |wheels| => ImpulseStream(wheels[k], n))
  }

  /** `letter_from_impulses` on five streams of n impulses, element by element. */
  function LetterStream(impulses: seq<seq<Cam>>, n: nat): (r: seq<int>)
    requires |impulses| >= 5 && forall k :: 0 <= k < 5 ==> |impulses[k]| == n
    ensures |r| == n && forall i :: 0 <= i < n ==> 0 <= r[i] < 32
  {
    seq(n, i requires 0 <= i < n =>
      LetterFromImpulses([impulses[0][i], impulses[1][i], impulses[2][i], impulses[3][i], impulses[4][i]]))
  }

  /** `Chi`: the wheels rotated to their settings. */
  datatype Chi = Chi(wheels: seq<seq<Cam>>)
  {
    predicate Valid()
    {
      |wheels| >= 5 && NonEmptyWheels(wheels)
    }

    /** `Chi.letters` */
    function Letters(n: nat): (r: seq<int>)
      requires Valid()
      ensures |r| == n && forall i :: 0 <= i < n ==> 0 <= r[i] < 32
    {
      LetterStream(Impulses(wheels, n), n)
    }
  }

  function NewChi(chi: seq<seq<Cam>>, settings: seq<nat>): Chi
  {
    Chi(Rotated(chi, settings))
  }

  lemma ModAddMod(i: nat, s: nat, len: nat)
    requires len > 0
    ensures (i % len + s) % len == (i + s) % len
  {
    var q := i / len;
    assert i == q * len + i % len;
    assert i + s == q * len + (i % len + s);
    var t := i % len + s;
    assert (q * len + t) % len == t % len by {
      var u := t / len;
      assert t == u * len + t % len;
      ModOfShift(q + u, len, t % len);
      assert q * len + t == (q + u) * len + t % len;
    }
  }

  /** Element i of the stream of a wheel rotated by s is cam (i + s) mod L of the wheel. */
  lemma RotatedStreamAt(w: seq<Cam>, s: nat, n: nat, i: nat)
    requires 0 < |w| && s <= |w| && i < n
    ensures ImpulseStream(RotWheel(w, s), n)[i] == w[(i + s) % |w|]
  {
    var r := RotWheel(w, s);
    ImpulseStreamAt(r, n, i);
    RotWheelAt(w, s, i % |w|);
    ModAddMod(i, s, |w|);
  }

  /** Letter i of the Chi stream is formed from cam (i + s_k) mod L_k of each wheel k. */
  lemma ChiLettersAt(chi: seq<seq<Cam>>, settings: seq<nat>, n: nat, i: nat)
    requires |chi| == 5 && |settings| == 5 && NonEmptyWheels(chi)
    requires forall k :: 0 <= k < 5 ==> settings[k] <= |chi[k]|
    requires i < n
    ensures NewChi(chi, settings).Valid()
    ensures NewChi(chi, settings).Letters(n)[i]
         == LetterFromImpulses(seq(5, k requires 0 <= k < 5 => chi[k][(i + settings[k]) % |chi[k]|]))
    ensures 0 <= NewChi(chi, settings).Letters(n)[i] < 32
  {
    var c := NewChi(chi, settings);
    var imps := Impulses(c.wheels, n);
    var col := seq(5, k requires 0 <= k < 5 => chi[k][(i + settings[k]) % |chi[k]|]);
    forall k | 0 <= k < 5
      ensures imps[k][i] == col[k]
    {
      assert c.wheels[k] == RotWheel(chi[k], settings[k]);
      RotatedStreamAt(chi[k], settings[k], n, i);
    }
    assert [imps[0][i], imps[1][i], imps[2][i], imps[3][i], imps[4][i]] == col;
    LetterFromCams(col);
  }

  /** `[0] + np.cumsum(s)`: the running totals of a cam stream. */
  function PrefixSums(s: seq<Cam>): (r: seq<nat>)
    ensures |r| == |s| + 1 && r[0] == 0
    ensures forall j :: 0 <= j < |s| ==> r[j + 1] == r[j] + s[j]
    ensures forall j :: 0 <= j <= |s| ==> r[j] <= j
  {
    if |s| == 0 then [0]
    else
      var p := PrefixSums(s[..|s| - 1]);
      p + [p[|s| - 1] + s[|s| - 1]]
  }

  /** Running total j counts the 1s among the first j elements. */
  lemma {:induction false} PrefixSumsCount(s: seq<Cam>, j: nat)
    requires j <= |s|
    ensures PrefixSums(s)[j] == multiset(s[..j])[1]
  {
    if j > 0 {
      PrefixSumsCount(s, j - 1);
      assert s[..j] == s[..j - 1] + [s[j - 1]];
    }
  }

  lemma PrefixSumsPrefixCount(s: seq<Cam>, m: nat)
    requires m <= |s|
    ensures forall i :: 0 <= i <= m ==> PrefixSums(s[..m])[i] == multiset(s[..i])[1]
  {
    forall i | 0 <= i <= m
      ensures PrefixSums(s[..m])[i] == multiset(s[..i])[1]
    {
      PrefixSumsCount(s[..m], i);
      assert s[..m][..i] == s[..i];
    }
  }

  /** Gather indexing `s[idx]`. */
  function Gather<T>(s: seq<T>, idx: seq<nat>): (r: seq<T>)
    requires forall j :: 0 <= j < |idx| ==> idx[j] < |s|
    ensures |r| == |idx| && forall j :: 0 <= j < |idx| ==> r[j] == s[idx[j]]
  {
    seq(|idx|, j requires 0 <= j < |idx| => s[idx[j]])
  }

  /** `PsiAndMu` of tests/wheels.py: Psi and Mu wheels rotated to their settings. */
  datatype PsiAndMu = PsiAndMu(psi: seq<seq<Cam>>, mu: seq<seq<Cam>>)
  {
    predicate Valid()
    {
      |psi| >= 5 && |mu| >= 2 && NonEmptyWheels(psi) && NonEmptyWheels(mu)
    }

    /** The rotated Mu-61 stream over the first n - 1 sprockets. */
    function Mu0Stream(n: nat): seq<Cam>
      requires Valid() && n >= 1
    {
      ImpulseStream(mu[0], n - 1)
    }

    /** `mu_1_idxs`: where the Mu-37 stream is read at each sprocket. */
    function Mu1Indices(n: nat): (r: seq<nat>)
      requires Valid() && n >= 1
      ensures |r| == n && forall j :: 0 <= j < n ==> r[j] < n
    {
      PrefixSums(Mu0Stream(n))
    }

    /** `ext_mu_1_stream`: the Mu-37 stream held still whenever Mu-61 shows 0. */
    function ExtMu1(n: nat): (r: seq<Cam>)
      requires Valid() && n >= 1
      ensures |r| == n
    {
      Gather(ImpulseStream(mu[1], n), Mu1Indices(n))
    }

    /** `psi_idxs`: where the Psi letter stream is read at each sprocket. */
    function PsiIndices(n: nat): (r: seq<nat>)
      requires Valid() && n >= 1
      ensures |r| == n && forall i :: 0 <= i < n ==> r[i] < n
    {
      PrefixSums(ExtMu1(n)[..n - 1])
    }

    /** `unext_psi_stream`: the letters the Psi wheels would give stepping every time. */
    function UnextPsi(n: nat): (r: seq<int>)
      requires Valid()
      ensures |r| == n
    {
      LetterStream(Impulses(psi, n), n)
    }

    /** `PsiAndMu.letters`: the extended Psi stream. For no sprockets at all the Mu-37
        stream is empty and the gather at index 0 fails. */
    function Letters(n: nat): Option<seq<int>>
      requires Valid()
    {
      if n == 0 then None
      else Some(Gather(UnextPsi(n), PsiIndices(n)))
    }
  }

  function NewPsiAndMu(psi: seq<seq<Cam>>, mu: seq<seq<Cam>>, settings: seq<nat>): PsiAndMu
  {
    var split := Min(5, |settings|);
    PsiAndMu(Rotated(psi, settings[..split]), Rotated(mu, settings[split..]))
  }

  /** The Mu-37 index at sprocket j is the number of 1s among the first j cams of the
      rotated Mu-61 stream. */
  lemma Mu1IndicesCount(pm: PsiAndMu, n: nat)
    requires pm.Valid() && n >= 1
    ensures forall j :: 0 <= j < n ==> pm.Mu1Indices(n)[j] == multiset(pm.Mu0Stream(n)[..j])[1]
  {
    var m0 := pm.Mu0Stream(n);
    forall j | 0 <= j < n
      ensures pm.Mu1Indices(n)[j] == multiset(m0[..j])[1]
    {
      PrefixSumsCount(m0, j);
    }
  }

  /** The Psi index at sprocket i is the number of 1s among the first i extended Mu-37
      cams. */
  lemma PsiIndicesCount(pm: PsiAndMu, n: nat)
    requires pm.Valid() && n >= 1
    ensures forall i :: 0 <= i < n ==> pm.PsiIndices(n)[i] == multiset(pm.ExtMu1(n)[..i])[1]
  {
    PrefixSumsPrefixCount(pm.ExtMu1(n), n - 1);
  }

  /** The Psi index starts at 0, never falls, rises by at most 1 per sprocket and stays at
      most i. */
  lemma PsiIndicesShape(pm: PsiAndMu, n: nat)
    requires pm.Valid() && n >= 1
    ensures pm.PsiIndices(n)[0] == 0
    ensures forall i :: 0 <= i < n - 1 ==> pm.PsiIndices(n)[i] <= pm.PsiIndices(n)[i + 1] <= pm.PsiIndices(n)[i] + 1
    ensures forall i :: 0 <= i < n ==> pm.PsiIndices(n)[i] <= i
  {
    var e := pm.ExtMu1(n)[..n - 1];
    var p := PrefixSums(e);
    assert pm.PsiIndices(n) == p;
    assert forall i :: 0 <= i < n - 1 ==> p[i + 1] == p[i] + e[i];
  }


}
