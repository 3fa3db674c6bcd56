/** The step-by-step motor simulation of tests/test_psi_extension.py, and its agreement
    with the closed-form `PsiAndMu.letters` of tests/wheels.py. The simulation keeps the
    caller's Mu list and writes its two entries in place on every move, while the Psi
    list is replaced by a new one whenever the Psi wheels step. */
module PsiExtension {
  import opened Wrappers
  import opened Bits
  import opened Wheels

  function Lengths(wheels: seq<seq<Cam>>): (r: seq<nat>)
    ensures |r| == |wheels| && forall k :: 0 <= k < |r| ==> r[k] == |wheels[k]|
  {
    seq(|wheels|, k requires 0 <= k < |wheels| => |wheels[k]|)
  }

  /** The motor state between sprockets: five Psi wheels, Mu-61 and Mu-37. */
  datatype Motor = Motor(psi: seq<seq<Cam>>, mu61: seq<Cam>, mu37: seq<Cam>)
  {
    predicate Valid()
    {
      |psi| == 5 && (forall k :: 0 <= k < 5 ==> |psi[k]| == NCamsPsi[k])
      && |mu61| == NCamsMu[0] && |mu37| == NCamsMu[1]
    }
  }

  /** The Psi letter the heads of the five Psi wheels show, Psi-1 most significant. */
  function HeadLetter(psi: seq<seq<Cam>>): (r: nat)
    requires |psi| == 5 && NonEmptyWheels(psi)
    ensures r < 32 && forall k :: 0 <= k < 5 ==> BitAt(r, 4 - k) == psi[k][0]
  {
    var heads := [psi[0][0], psi[1][0], psi[2][0], psi[3][0], psi[4][0]];
    LetterFromCams(heads);
    LetterFromImpulses(heads)
  }

  /** All five Psi wheels moved on by one cam. */
  function StepPsi(psi: seq<seq<Cam>>): (r: seq<seq<Cam>>)
    ensures Lengths(r) == Lengths(psi)
  {
    seq(|psi|, k requires 0 <= k < |psi| => RotWheel(psi[k], 1))
  }

  /** One `move`: the Psi wheels step iff Mu-37 shows 1, Mu-37 steps iff Mu-61 shows 1,
      and Mu-61 always steps; both heads are read before anything moves. */
  function MoveMotor(m: Motor): (r: Motor)
    requires m.Valid()
    ensures r.Valid()
  {
    var mu61 := RotWheel(m.mu61, 1);
    var mu37 := if m.mu61[0] == 1 then RotWheel(m.mu37, 1) else m.mu37;
    Motor(if m.mu37[0] == 1 then StepPsi(m.psi) else m.psi, mu61, mu37)
  }

  /** The state after k moves. */
  function After(m: Motor, k: nat): (r: Motor)
    requires m.Valid()
    ensures r.Valid()
  {
    if k == 0 then m else MoveMotor(After(m, k - 1))
  }

  function Letter(m: Motor): (r: nat)
    requires m.Valid()
    ensures r < 32
  {
    HeadLetter(m.psi)
  }

  /** The letters shown before each of the first n moves. */
  function Extended(m: Motor, n: nat): (r: seq<nat>)
    requires m.Valid()
    ensures |r| == n && forall k :: 0 <= k < n ==> r[k] < 32
    ensures n >= 1 ==> r[0] == Letter(m)
  {
    if n == 0 then [] else Extended(m, n - 1) + [Letter(After(m, n - 1))]
  }

  /** Letter k of the extension is the letter shown after k moves. */
  lemma {:induction false} ExtendedAt(m: Motor, n: nat, k: nat)
    requires m.Valid() && k < n
    ensures Extended(m, n)[k] == Letter(After(m, k))
  {
    if k < n - 1 {
      ExtendedAt(m, n - 1, k);
    }
  }

  class PsiAndMu {
    var psi: seq<seq<Cam>>
    /** The caller's Mu list itself, not a copy. */
    const mu: array<seq<Cam>>

    ghost predicate Valid()
      reads this, mu
    {
      mu.Length == 2 && State().Valid()
    }

    ghost function State(): Motor
      reads this, mu
      requires mu.Length == 2
    {
      Motor(psi, mu[0], mu[1])
    }

    constructor (psi: seq<seq<Cam>>, mu: array<seq<Cam>>)
      requires Lengths(psi) == NCamsPsi && Lengths(mu[..]) == NCamsMu
      ensures this.psi == psi && this.mu == mu && Valid()
    {
      this.psi := psi;
      this.mu := mu;
    }

    /** `PsiAndMu(psi, mu)`: a ValueError unless the Psi lengths are 43, 47, 51, 53, 59
        and the Mu lengths are 61, 37. */
    static method Create(psi: seq<seq<Cam>>, mu: array<seq<Cam>>) returns (r: Result<PsiAndMu>)
      ensures r.Ok? <==> Lengths(psi) == NCamsPsi && Lengths(mu[..]) == NCamsMu
      ensures r.Err? ==> r.fault == ValueError
      ensures r.Ok? ==> fresh(r.value) && r.value.psi == psi && r.value.mu == mu && r.value.Valid()
    {
      if Lengths(psi) != NCamsPsi {
        return Err(ValueError);
      }
      if Lengths(mu[..]) != NCamsMu {
        return Err(ValueError);
      }
      var pm := new PsiAndMu(psi, mu);
      r := Ok(pm);
    }

    /** `psi_letter` */
    function PsiLetter(): (r: nat)
      reads this, mu
      requires Valid()
      ensures r < 32 && forall k :: 0 <= k < 5 ==> BitAt(r, 4 - k) == psi[k][0]
    {
      HeadLetter(psi)
    }

    /** `move` */
    method Move()
      requires Valid()
      modifies this, mu
      ensures Valid() && State() == MoveMotor(old(State()))
    {
      var mu61 := mu[0];
      var mu37 := mu[1];
      if mu37[0] == 1 {
        var wheels := psi;
        psi := seq(|wheels|, k requires 0 <= k < |wheels| => wheels[k][1..] + wheels[k][..1]);
        assert psi == StepPsi(old(psi));
      }
      if mu61[0] == 1 {
        mu[1] := mu37[1..] + mu37[..1];
        assert mu[1] == RotWheel(mu37, 1);
      }
      mu[0] := mu61[1..] + mu61[..1];
      assert mu[0] == RotWheel(mu61, 1);
    }

    /** `psi_letter_then_move`: the letter shown before the move. */
    method PsiLetterThenMove() returns (letter: nat)
      requires Valid()
      modifies this, mu
      ensures letter == Letter(old(State())) && letter < 32
      ensures Valid() && State() == MoveMotor(old(State()))
    {
      letter := PsiLetter();
      Move();
    }

    /** `extend_psi`: n letters from a fresh simulation over the caller's wheels, which
        leaves the caller's Mu list moved on by n sprockets. */
    static method ExtendPsi(psi: seq<seq<Cam>>, mu: array<seq<Cam>>, n: nat) returns (r: Result<seq<nat>>)
      modifies mu
      ensures r.Ok? <==> Lengths(psi) == NCamsPsi && Lengths(old(mu[..])) == NCamsMu
      ensures r.Err? ==> r.fault == ValueError && mu[..] == old(mu[..])
      ensures r.Ok? ==> (mu.Length == 2
        && r.value == Extended(Motor(psi, old(mu[0]), old(mu[1])), n)
        && mu[0] == After(Motor(psi, old(mu[0]), old(mu[1])), n).mu61
        && mu[1] == After(Motor(psi, old(mu[0]), old(mu[1])), n).mu37)
    {
      var created := Create(psi, mu);
      if created.Err? {
        return Err(created.fault);
      }
      var pm := created.value;
      ghost var m0 := pm.State();
      var letters: seq<nat> := [];
      var i := 0;
      while i < n
        invariant 0 <= i <= n
        invariant pm.mu == mu && pm.Valid()
        invariant pm.State() == After(m0, i)
        invariant letters == Extended(m0, i)
        modifies pm, mu
      {
        var letter := pm.PsiLetterThenMove();
        letters := letters + [letter];
        i := i + 1;
      }
      r := Ok(letters);
    }
  }

  /** Mu-37's offset after k moves: the 1s among the first k cams of Mu-61. */
  function MuOffset(mu61: seq<Cam>, k: nat): nat
    requires |mu61| > 0
  {
    if k == 0 then 0 else MuOffset(mu61, k - 1) + mu61[(k - 1) % |mu61|]
  }

  /** The Psi wheels' offset after k moves: the 1s Mu-37 showed before each of them. */
  function PsiOffset(mu61: seq<Cam>, mu37: seq<Cam>, k: nat): nat
    requires |mu61| > 0 && |mu37| > 0
  {
    if k == 0 then 0 else PsiOffset(mu61, mu37, k - 1) + mu37[MuOffset(mu61, k - 1) % |mu37|]
  }

  /** w is w0 moved on by d cams. */
  predicate RotatedBy(w0: seq<Cam>, w: seq<Cam>, d: nat)
  {
    |w| == |w0| && |w0| > 0 && forall i :: 0 <= i < |w| ==> w[i] == w0[(i + d) % |w0|]
  }

  lemma RotatedStep(w0: seq<Cam>, w: seq<Cam>, d: nat)
    requires RotatedBy(w0, w, d)
    ensures w[0] == w0[d % |w0|]
    ensures RotatedBy(w0, RotWheel(w, 1), d + 1)
  {
    var r := RotWheel(w, 1);
    forall i | 0 <= i < |w|
      ensures r[i] == w0[(i + (d + 1)) % |w0|]
    {
      RotWheelAt(w, 1, i);
      ModAddMod(i + 1, d, |w0|);
    }
  }

  /** After k moves Mu-61 has moved on by k cams. */
  lemma {:induction false} Mu61Rotates(m: Motor, k: nat)
    requires m.Valid()
    ensures RotatedBy(m.mu61, After(m, k).mu61, k)
  {
    if k == 0 {
      RotatedByZero(m.mu61);
    } else {
      Mu61Rotates(m, k - 1);
      RotatedStep(m.mu61, After(m, k - 1).mu61, k - 1);
    }
  }

  /** After k moves Mu-37 has moved on by MuOffset(k) cams. */
  lemma {:induction false} Mu37Rotates(m: Motor, k: nat)
    requires m.Valid()
    ensures RotatedBy(m.mu37, After(m, k).mu37, MuOffset(m.mu61, k))
  {
    if k == 0 {
      RotatedByZero(m.mu37);
    } else {
      Mu37Rotates(m, k - 1);
      Mu37Step(m, k);
    }
  }

  /** One move of `Mu37Rotates`: Mu 37 moves on by one exactly when Mu 61 showed a 1. */
  lemma Mu37Step(m: Motor, k: nat)
    requires m.Valid() && k > 0
    requires RotatedBy(m.mu37, After(m, k - 1).mu37, MuOffset(m.mu61, k - 1))
    ensures RotatedBy(m.mu37, After(m, k).mu37, MuOffset(m.mu61, k))
  {
    Mu61Rotates(m, k - 1);
    Mu37Move(m, After(m, k - 1), k - 1, MuOffset(m.mu61, k - 1));
  }

  /** From a state whose Mu 61 has moved on by j and whose Mu 37 has moved on by d, a move
      takes Mu 37 on by the cam Mu 61 showed. */
  lemma Mu37Move(m: Motor, s: Motor, j: nat, d: nat)
    requires m.Valid() && s.Valid()
    requires RotatedBy(m.mu61, s.mu61, j) && RotatedBy(m.mu37, s.mu37, d)
    ensures RotatedBy(m.mu37, MoveMotor(s).mu37, d + m.mu61[j % |m.mu61|])
  {
    RotatedStep(m.mu61, s.mu61, j);
    if s.mu61[0] == 1 {
      RotatedStep(m.mu37, s.mu37, d);
    }
  }

  /** After k moves Psi wheel w has moved on by PsiOffset(k) cams. */
  lemma {:induction false} PsiRotates(m: Motor, k: nat, w: nat)
    requires m.Valid() && w < 5
    ensures RotatedBy(m.psi[w], After(m, k).psi[w], PsiOffset(m.mu61, m.mu37, k))
  {
    if k == 0 {
      RotatedByZero(m.psi[w]);
    } else {
      PsiRotates(m, k - 1, w);
      PsiStep(m, k, w);
    }
  }

  /** One move of `PsiRotates`: the Psi wheels move on by one exactly when Mu 37 showed a 1. */
  lemma PsiStep(m: Motor, k: nat, w: nat)
    requires m.Valid() && w < 5 && k > 0
    requires RotatedBy(m.psi[w], After(m, k - 1).psi[w], PsiOffset(m.mu61, m.mu37, k - 1))
    ensures RotatedBy(m.psi[w], After(m, k).psi[w], PsiOffset(m.mu61, m.mu37, k))
  {
    Mu37Rotates(m, k - 1);
    PsiMove(m, After(m, k - 1), w, MuOffset(m.mu61, k - 1), PsiOffset(m.mu61, m.mu37, k - 1));
  }

  /** From a state whose Mu 37 has moved on by d and whose Psi wheel w has moved on by e, a
      move takes Psi wheel w on by the cam Mu 37 showed. */
  lemma PsiMove(m: Motor, s: Motor, w: nat, d: nat, e: nat)
    requires m.Valid() && s.Valid() && w < 5
    requires RotatedBy(m.mu37, s.mu37, d) && RotatedBy(m.psi[w], s.psi[w], e)
    ensures RotatedBy(m.psi[w], MoveMotor(s).psi[w], e + m.mu37[d % |m.mu37|])
  {
    RotatedStep(m.mu37, s.mu37, d);
    if s.mu37[0] == 1 {
      RotatedStep(m.psi[w], s.psi[w], e);
    }
  }

  lemma RotatedByZero(w: seq<Cam>)
    requires |w| > 0
    ensures RotatedBy(w, w, 0)
  {
    forall i | 0 <= i < |w|
      ensures i % |w| == i
    {
      ModBelow(i, |w|);
    }
  }

  /** After k moves Mu-61 equals the original rotated left by k mod 61. */
  lemma Mu61AfterMoves(m: Motor, k: nat)
    requires m.Valid()
    ensures After(m, k).mu61 == RotWheel(m.mu61, k % 61)
  {
    Mu61Rotates(m, k);
    var a := After(m, k).mu61;
    var b := RotWheel(m.mu61, k % 61);
    forall i | 0 <= i < 61
      ensures a[i] == b[i]
    {
      RotWheelAt(m.mu61, k % 61, i);
      ModAddMod(k, i, 61);
    }
  }

  /** The letter after k moves, in terms of the starting wheels. */
  lemma LetterAfter(m: Motor, k: nat)
    requires m.Valid()
    ensures Letter(After(m, k)) == LetterFromImpulses(seq(5, w requires 0 <= w < 5 =>
      m.psi[w][PsiOffset(m.mu61, m.mu37, k) % |m.psi[w]|]))
  {
    var s := After(m, k);
    var col := seq(5, w requires 0 <= w < 5 => m.psi[w][PsiOffset(m.mu61, m.mu37, k) % |m.psi[w]|]);
    forall w | 0 <= w < 5
      ensures s.psi[w][0] == col[w]
    {
      HeadAfter(m, k, w);
    }
    var heads := [s.psi[0][0], s.psi[1][0], s.psi[2][0], s.psi[3][0], s.psi[4][0]];
    assert |heads| == |col|;
    assert heads == col;
  }

  /** The head of Psi wheel w after k moves is its cam PsiOffset(k) mod L. */
  lemma HeadAfter(m: Motor, k: nat, w: nat)
    requires m.Valid() && w < 5
    ensures After(m, k).psi[w][0] == m.psi[w][PsiOffset(m.mu61, m.mu37, k) % |m.psi[w]|]
  {
    PsiRotates(m, k, w);
    var off := PsiOffset(m.mu61, m.mu37, k);
    assert (0 + off) % |m.psi[w]| == off % |m.psi[w]|;
  }

  /** The closed form with all settings 0 keeps the wheels as they are. */
  lemma ZeroSettings(psi: seq<seq<Cam>>, mu61: seq<Cam>, mu37: seq<Cam>)
    requires Motor(psi, mu61, mu37).Valid()
    ensures NewPsiAndMu(psi, [mu61, mu37], [0, 0, 0, 0, 0, 0, 0]) == Wheels.PsiAndMu(psi, [mu61, mu37])
  {
    var zeros: seq<nat> := [0, 0, 0, 0, 0, 0, 0];
    assert zeros[..5] == [0, 0, 0, 0, 0] && zeros[5..] == [0, 0];
    var p := Rotated(psi, zeros[..5]);
    forall w | 0 <= w < 5
      ensures p[w] == psi[w]
    {
      RotZero(psi[w]);
    }
    RotZero(mu61);
    RotZero(mu37);
    assert Rotated([mu61, mu37], zeros[5..]) == [mu61, mu37];
  }

  lemma RotZero(w: seq<Cam>)
    ensures RotWheel(w, 0) == w
  {
    assert w[0..] == w;
  }

  /** The closed form's Mu-37 read index at sprocket j is MuOffset(j). */
  lemma {:induction false} Mu1IndicesAre(pm: Wheels.PsiAndMu, n: nat, j: nat)
    requires pm.Valid() && n >= 1 && j < n
    ensures pm.Mu1Indices(n)[j] == MuOffset(pm.mu[0], j)
  {
    if j > 0 {
      Mu1IndicesAre(pm, n, j - 1);
      ImpulseStreamAt(pm.mu[0], n - 1, j - 1);
    }
  }

  /** The closed form's Psi read index at sprocket i is PsiOffset(i). */
  lemma PsiIndicesAre(pm: Wheels.PsiAndMu, n: nat, i: nat)
    requires pm.Valid() && n >= 1 && i < n
    ensures pm.PsiIndices(n)[i] == PsiOffset(pm.mu[0], pm.mu[1], i)
  {
    var a := pm.PsiIndices(n);
    var b := pm.Mu1Indices(n);
    forall j {:trigger b[j]} | 0 <= j < i
      ensures b[j] == MuOffset(pm.mu[0], j) && a[j + 1] == a[j] + pm.mu[1][b[j] % |pm.mu[1]|]
    {
      Mu1IndicesAre(pm, n, j);
      PsiIndexStep(pm, n, j + 1);
    }
    OffsetSum(pm.mu[0], pm.mu[1], a, b, i);
  }

  /** A running total that starts at 0 and adds the Mu-37 cam at each Mu-61 offset is the
      Psi offset. */
  lemma {:induction false} OffsetSum(mu61: seq<Cam>, mu37: seq<Cam>, a: seq<nat>, b: seq<nat>, i: nat)
    requires |mu61| > 0 && |mu37| > 0 && i < |a| && i <= |b| && a[0] == 0
    requires forall j {:trigger b[j]} :: 0 <= j < i ==> b[j] == MuOffset(mu61, j) && a[j + 1] == a[j] + mu37[b[j] % |mu37|]
    ensures a[i] == PsiOffset(mu61, mu37, i)
  {
    if i > 0 {
      OffsetSum(mu61, mu37, a, b, i - 1);
      assert b[i - 1] == MuOffset(mu61, i - 1);
    }
  }

  /** The closed form's Psi index moves on by the Mu-37 cam read at the previous sprocket. */
  lemma PsiIndexStep(pm: Wheels.PsiAndMu, n: nat, i: nat)
    requires pm.Valid() && n >= 1 && 0 < i < n
    ensures pm.PsiIndices(n)[i] == pm.PsiIndices(n)[i - 1] + pm.mu[1][pm.Mu1Indices(n)[i - 1] % |pm.mu[1]|]
  {
    var e := pm.ExtMu1(n);
    assert e[i - 1] == ImpulseStream(pm.mu[1], n)[pm.Mu1Indices(n)[i - 1]];
    ImpulseStreamAt(pm.mu[1], n, pm.Mu1Indices(n)[i - 1]);
    assert pm.PsiIndices(n)[i] == pm.PsiIndices(n)[i - 1] + e[..n - 1][i - 1];
  }

  /** Closed-form letter i with all settings 0, in terms of the wheels. */
  lemma ClosedLetterAt(psi: seq<seq<Cam>>, mu61: seq<Cam>, mu37: seq<Cam>, n: nat, i: nat)
    requires Motor(psi, mu61, mu37).Valid() && n >= 1 && i < n
    ensures Wheels.PsiAndMu(psi, [mu61, mu37]).Valid()
    ensures Wheels.PsiAndMu(psi, [mu61, mu37]).Letters(n).value[i]
         == LetterFromImpulses(seq(5, w requires 0 <= w < 5 => psi[w][PsiOffset(mu61, mu37, i) % |psi[w]|]))
  {
    var pm := Wheels.PsiAndMu(psi, [mu61, mu37]);
    assert pm.Valid() by {
      assert forall w :: 0 <= w < 5 ==> |psi[w]| == NCamsPsi[w] > 0;
    }
    PsiIndicesAre(pm, n, i);
    var p := PsiOffset(mu61, mu37, i);
    var imps := Impulses(psi, n);
    assert pm.Letters(n).value[i] == pm.UnextPsi(n)[p];
    forall w | 0 <= w < 5
      ensures imps[w][p] == psi[w][p % |psi[w]|]
    {
      ImpulseStreamAt(psi[w], n, p);
    }
    assert [imps[0][p], imps[1][p], imps[2][p], imps[3][p], imps[4][p]]
        == seq(5, w requires 0 <= w < 5 => psi[w][p % |psi[w]|]);
  }

  /** The unrotated psi and mu wheels of a valid motor form valid wheels. */
  lemma PlainValid(psi: seq<seq<Cam>>, mu61: seq<Cam>, mu37: seq<Cam>)
    requires Motor(psi, mu61, mu37).Valid()
    ensures Wheels.PsiAndMu(psi, [mu61, mu37]).Valid()
  {
    assert forall w :: 0 <= w < 5 ==> |psi[w]| == NCamsPsi[w] > 0;
  }

  /** The closed form's n letters are the simulation's n letters. */
  lemma ClosedEqualsExtended(psi: seq<seq<Cam>>, mu61: seq<Cam>, mu37: seq<Cam>, n: nat)
    requires Motor(psi, mu61, mu37).Valid() && n >= 1
    ensures Wheels.PsiAndMu(psi, [mu61, mu37]).Valid()
    ensures Wheels.PsiAndMu(psi, [mu61, mu37]).Letters(n) == Some(Extended(Motor(psi, mu61, mu37), n))
  {
    PlainValid(psi, mu61, mu37);
    var closed := Wheels.PsiAndMu(psi, [mu61, mu37]).Letters(n).value;
    var sim := Extended(Motor(psi, mu61, mu37), n);
    forall i | 0 <= i < n
      ensures closed[i] == sim[i]
    {
      ClosedAgreesAt(psi, mu61, mu37, n, i);
    }
    assert closed == sim;
  }

  /** Letter i of the closed form is letter i of the simulation. */
  lemma ClosedAgreesAt(psi: seq<seq<Cam>>, mu61: seq<Cam>, mu37: seq<Cam>, n: nat, i: nat)
    requires Motor(psi, mu61, mu37).Valid() && n >= 1 && i < n
    ensures Wheels.PsiAndMu(psi, [mu61, mu37]).Valid()
    ensures Wheels.PsiAndMu(psi, [mu61, mu37]).Letters(n).value[i] == Extended(Motor(psi, mu61, mu37), n)[i]
  {
    ClosedLetterAt(psi, mu61, mu37, n, i);
    LetterAfter(Motor(psi, mu61, mu37), i);
    ExtendedAt(Motor(psi, mu61, mu37), n, i);
  }

  /** For n >= 1 sprockets and all settings 0, the closed-form `PsiAndMu.letters` of
      tests/wheels.py equals the letters of the step-by-step simulation; for n = 0 the
      closed form fails. */
  lemma ClosedFormAgrees(psi: seq<seq<Cam>>, mu61: seq<Cam>, mu37: seq<Cam>, n: nat)
    requires Motor(psi, mu61, mu37).Valid()
    ensures NewPsiAndMu(psi, [mu61, mu37], [0, 0, 0, 0, 0, 0, 0]).Valid()
    ensures n == 0 ==> NewPsiAndMu(psi, [mu61, mu37], [0, 0, 0, 0, 0, 0, 0]).Letters(n).None?
    ensures n >= 1 ==> (NewPsiAndMu(psi, [mu61, mu37], [0, 0, 0, 0, 0, 0, 0]).Letters(n)
                     == Some(Extended(Motor(psi, mu61, mu37), n)))
  {
    ZeroSettings(psi, mu61, mu37);
    PlainValid(psi, mu61, mu37);
    if n >= 1 {
      ClosedEqualsExtended(psi, mu61, mu37, n);
    }
  }

}
