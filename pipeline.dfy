/** The reference computations of tests/test_pipeline.py: the expected count of counter 0
    (impulse 1 of the tape crossed with the chi-1 wheel at a given setting) and the run
    schedule with only chi 1 stepping fast. */
module Pipeline {
  import opened Wrappers
  import opened Bits
  import opened Codecs
  import opened Wheels
  import opened StepCountVector

  /** Impulse 1 of a tape letter is its bit 4 (`& 16`). */
  function Impulse1(z: nat): Bit
  {
    BitAt(z, 4)
  }

  /** How many of the first n letters of zs have impulse 1 different from ref. */
  function CountCross(zs: seq<nat>, ref: seq<Cam>, n: nat): (r: nat)
    requires n <= |zs| && n <= |ref|
    ensures r <= n
  {
    if n == 0 then 0
    else CountCross(zs, ref, n - 1) + (if Impulse1(zs[n - 1]) != ref[n - 1] then 1 else 0)
  }

  /** `expected_count`: a chi-1 pattern of length 0 divides by zero, a tape whose length is
      not a multiple of the pattern's fails the assertion; otherwise the rotated pattern is
      repeated along the tape and the positions where impulse 1 differs are counted. */
  function ExpectedCount(zs: seq<nat>, chi1: seq<Cam>, stepping: nat): (r: Result<nat>)
    ensures |chi1| == 0 ==> r == Err(ZeroDivision)
    ensures |chi1| > 0 ==> (r.Err? <==> |zs| % |chi1| != 0)
    ensures |chi1| > 0 && r.Err? ==> r.fault == AssertionFailure
    ensures r.Ok? ==> r.value <= |zs|
  {
    if |chi1| == 0 then Err(ZeroDivision)
    else if |zs| % |chi1| != 0 then Err(AssertionFailure)
    else
      var full := Tile(RotWheel(chi1, stepping), |zs| / |chi1|);
      DivModUnique(|zs|, |chi1|, |zs| / |chi1|, 0);
      Ok(CountCross(zs, full, |zs|))
  }

  /** The chi-1 cam facing tape position i when the wheel is at setting s. */
  function ChiAt(chi1: seq<Cam>, s: nat, n: nat): (r: seq<Cam>)
    requires |chi1| > 0
    ensures |r| == n && forall i :: 0 <= i < n ==> r[i] == chi1[(i + s) % |chi1|]
  {
    seq(n, i requires 0 <= i < n => chi1[(i + s) % |chi1|])
  }

  /** The positions where impulse 1 of zs and ref differ. */
  function CrossSet(zs: seq<nat>, ref: seq<Cam>, n: nat): set<nat>
    requires n <= |zs| && n <= |ref|
  {
    set i: nat | i < n && Impulse1(zs[i]) != ref[i]
  }

  /** The running count is the size of the set of differing positions. */
  lemma {:induction false} CountCrossIsCard(zs: seq<nat>, ref: seq<Cam>, n: nat)
    requires n <= |zs| && n <= |ref|
    ensures CountCross(zs, ref, n) == |CrossSet(zs, ref, n)|
  {
    if n > 0 {
      CountCrossIsCard(zs, ref, n - 1);
      var prev := CrossSet(zs, ref, n - 1);
      if Impulse1(zs[n - 1]) != ref[n - 1] {
        assert CrossSet(zs, ref, n) == prev + {n - 1};
        assert n - 1 !in prev;
      } else {
        assert CrossSet(zs, ref, n) == prev;
      }
    }
  }

  /** The counts agree whenever the references agree on the counted prefix. */
  lemma {:induction false} CountCrossSameRef(zs: seq<nat>, a: seq<Cam>, b: seq<Cam>, n: nat)
    requires n <= |zs| && n <= |a| && n <= |b| && a[..n] == b[..n]
    ensures CountCross(zs, a, n) == CountCross(zs, b, n)
  {
    if n > 0 {
      assert a[n - 1] == a[..n][n - 1] && b[n - 1] == b[..n][n - 1];
      assert a[..n - 1] == a[..n][..n - 1] && b[..n - 1] == b[..n][..n - 1];
      CountCrossSameRef(zs, a, b, n - 1);
    }
  }

  /** For a setting within the wheel, the expected count is the number of tape positions i
      where impulse 1 differs from chi1[(i + s) mod L]; a setting beyond the wheel's length
      leaves the wheel unrotated, as Python's slices do. */
  lemma ExpectedCountClosedForm(zs: seq<nat>, chi1: seq<Cam>, s: nat)
    requires |chi1| > 0 && |zs| % |chi1| == 0
    ensures s <= |chi1| ==> ExpectedCount(zs, chi1, s) == Ok(|CrossSet(zs, ChiAt(chi1, s, |zs|), |zs|)|)
    ensures s > |chi1| ==> ExpectedCount(zs, chi1, s) == ExpectedCount(zs, chi1, 0)
  {
    var L := |chi1|;
    var reps := |zs| / L;
    DivModUnique(|zs|, L, reps, 0);
    if s <= L {
      var full := Tile(RotWheel(chi1, s), reps);
      var ref := ChiAt(chi1, s, |zs|);
      forall i | 0 <= i < |zs|
        ensures full[i] == ref[i]
      {
        TileAt(RotWheel(chi1, s), reps, i);
        RotWheelAt(chi1, s, i % L);
        ModAddMod(i, s, L);
      }
      assert full[..|zs|] == ref[..|zs|];
      CountCrossSameRef(zs, full, ref, |zs|);
      CountCrossIsCard(zs, ref, |zs|);
    } else {
      RotWheelBeyond(chi1, s);
      RotWheelBeyond(chi1, L);
      assert RotWheel(chi1, 0) == chi1;
    }
  }

  /** `step_fast_cfg` on chi 1, every other wheel unflagged. */
  const ChiOneFast: seq<SteppingCfg> := AllNoStepping[0 := StepFast]

  /** The run of `test_short_run`: from a reset vector, chi 1 steps through settings
      0, 1, ..., 40 with every other wheel at 0, and the vector first reads as ended again
      after 41 pulses, so the run visits exactly 41 settings. */
  lemma ShortRunSchedule()
    ensures forall i :: 0 <= i < Len(0) ==> Run(ChiOneFast, ZeroCounts, i) == ZeroCounts[0 := i]
    ensures forall i :: 0 < i < Len(0) ==> !Ended(ChiOneFast, Run(ChiOneFast, ZeroCounts, i))
    ensures Ended(ChiOneFast, Run(ChiOneFast, ZeroCounts, Len(0)))
  {
    forall i | 0 <= i <= Len(0)
      ensures Run(ChiOneFast, ZeroCounts, i) == ZeroCounts[0 := i % Len(0)]
    {
      FastOnlyRun(ZeroCounts, 0, i);
    }
    forall i | 0 <= i < Len(0)
      ensures Run(ChiOneFast, ZeroCounts, i) == ZeroCounts[0 := i]
    {
      ModBelow(i, Len(0));
    }
    forall i | 0 < i < Len(0)
      ensures !Ended(ChiOneFast, Run(ChiOneFast, ZeroCounts, i))
    {
      assert Run(ChiOneFast, ZeroCounts, i)[0] == i;
    }
    assert Run(ChiOneFast, ZeroCounts, Len(0)) == ZeroCounts;
  }
}
