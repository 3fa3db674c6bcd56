/** The step-count vector: twelve counters, one per wheel, each counting modulo its wheel's
    cam count, stepped by `next` pulses according to the per-wheel stepping flags, plus the
    `ended` flag and the command-bus broadcast of the counts. The closed-form expected counts
    of tests/test_step_count_vector.py are proved as lemmas about `Run`. */
module StepCountVector {
  import opened Wrappers
  import opened Codecs
  import opened Wheels

  /** The cam count of wheel w: the modulus of its step count. */
  function Len(w: nat): (r: nat)
    requires w < NWheels
    ensures r >= 1
  {
    NCamsAll[w]
  }

  const ZeroCounts: seq<nat> := seq(NWheels, _ => 0)
  const AllNoStepping: seq<SteppingCfg> := seq(NWheels, _ => NoStepping)

  const FastAndTrigger := SteppingCfg(true, false, true, false)
  const SlowStep := SteppingCfg(false, true, false, false)

  /** Every count is below its wheel's cam count. */
  predicate InRange(counts: seq<nat>)
  {
    |counts| == NWheels && forall w :: 0 <= w < NWheels ==> counts[w] < Len(w)
  }

  /** Wheel w, stepping fast with its trigger flag set, wraps to 0 on this pulse. */
  predicate Fires(cfgs: seq<SteppingCfg>, counts: seq<nat>, w: nat)
    requires |cfgs| == NWheels && |counts| == NWheels && w < NWheels
  {
    cfgs[w].fast && cfgs[w].trigger && (counts[w] + 1) % Len(w) == 0
  }

  /** The triggers of all wheels are OR'ed into one. */
  predicate Triggered(cfgs: seq<SteppingCfg>, counts: seq<nat>)
    requires |cfgs| == NWheels && |counts| == NWheels
  {
    exists w :: 0 <= w < NWheels && Fires(cfgs, counts, w)
  }

  /** A fast wheel advances on every pulse, a slow one only on a triggered pulse. */
  predicate Advances(cfg: SteppingCfg, trig: bool)
  {
    cfg.fast || (cfg.slow && trig)
  }

  /** The counts after one `next` pulse. */
  function Step(cfgs: seq<SteppingCfg>, counts: seq<nat>): (r: seq<nat>)
    requires |cfgs| == NWheels && |counts| == NWheels
    ensures |r| == NWheels
    ensures forall w :: 0 <= w < NWheels && !cfgs[w].fast && !cfgs[w].slow ==> r[w] == counts[w]
    ensures InRange(counts) ==> InRange(r)
  {
    var trig := Triggered(cfgs, counts);
    seq(NWheels, w requires 0 <= w < NWheels =>
      if Advances(cfgs[w], trig) then (counts[w] + 1) % Len(w) else counts[w])
  }

  /** The counts after n pulses with fixed configurations. */
  function Run(cfgs: seq<SteppingCfg>, counts: seq<nat>, n: nat): (r: seq<nat>)
    requires |cfgs| == NWheels && |counts| == NWheels
    ensures |r| == NWheels
    ensures InRange(counts) ==> InRange(r)
  {
    if n == 0 then counts else Step(cfgs, Run(cfgs, counts, n - 1))
  }

  /** `ended`: every wheel not flagged to be ignored is at count 0. */
  predicate Ended(cfgs: seq<SteppingCfg>, counts: seq<nat>)
    requires |cfgs| == NWheels && |counts| == NWheels
  {
    forall w :: 0 <= w < NWheels && !cfgs[w].ignRpt ==> counts[w] == 0
  }

  /** The step-count vector as the device holds it: counts and stepping flags. */
  class StepCountVector {
    var counts: seq<nat>
    var cfgs: seq<SteppingCfg>

    ghost predicate Valid()
      reads this
    {
      |cfgs| == NWheels && InRange(counts)
    }

    constructor ()
      ensures Valid() && counts == ZeroCounts && cfgs == AllNoStepping
    {
      counts := ZeroCounts;
      cfgs := AllNoStepping;
    }

    /** `reset_step_count_vector`: all counts to 0, flags kept. */
    method Reset()
      requires Valid()
      modifies this
      ensures Valid() && counts == ZeroCounts && cfgs == old(cfgs)
    {
      counts := ZeroCounts;
    }

    /** `set_step_count_vector_config`: replaces the flags of one wheel. */
    method SetConfig(w: nat, cfg: SteppingCfg)
      requires Valid() && w < NWheels
      modifies this
      ensures Valid() && cfgs == old(cfgs)[w := cfg] && counts == old(counts)
    {
      cfgs := cfgs[w := cfg];
    }

    /** `next_step_count_vector`: one stepping pulse. */
    method Next()
      requires Valid()
      modifies this
      ensures Valid() && cfgs == old(cfgs) && counts == Step(old(cfgs), old(counts))
    {
      counts := Step(cfgs, counts);
    }

    /** `read_step_count_vector_ended`: 1 when the run has ended, else 0. */
    method ReadEnded() returns (r: nat)
      requires Valid()
      ensures r == 0 || r == 1
      ensures r == 1 <==> Ended(cfgs, counts)
    {
      r := if Ended(cfgs, counts) then 1 else 0;
    }

    /** `emit_cmds_step_count_vector`: the sixteen bytes seen on the command bus, one cycle
        late: an idle 0, the preamble, the broadcast body id, the twelve counts, an idle 0. */
    method EmitCmds() returns (frame: seq<nat>)
      requires Valid()
      ensures |frame| == 16
      ensures frame[0] == 0 && frame[1] == 0x2d && frame[2] == 0x3f && frame[15] == 0
      ensures frame[3..15] == counts
      ensures forall w :: 0 <= w < NWheels ==> frame[3 + w] < Len(w)
    {
      frame := [0, 0x2d, 0x3f] + counts + [0];
    }
  }

  // ----- Closed forms from a reset vector -----

  /** Pulse j (counted from 1) fires a trigger: some fast triggering wheel wraps on it. */
  predicate FiresAt(cfgs: seq<SteppingCfg>, j: nat)
    requires |cfgs| == NWheels
  {
    exists w :: 0 <= w < NWheels && cfgs[w].fast && cfgs[w].trigger && j % Len(w) == 0
  }

  /** How many of pulses 1..n fire a trigger. */
  function Pulses(cfgs: seq<SteppingCfg>, n: nat): (r: nat)
    requires |cfgs| == NWheels
    ensures r <= n
  {
    if n == 0 then 0 else Pulses(cfgs, n - 1) + (if FiresAt(cfgs, n) then 1 else 0)
  }

  /** The count of wheel w after n pulses from zero. */
  function Expected(cfgs: seq<SteppingCfg>, n: nat, w: nat): nat
    requires |cfgs| == NWheels && w < NWheels
  {
    if cfgs[w].fast then n % Len(w)
    else if cfgs[w].slow then Pulses(cfgs, n) % Len(w)
    else 0
  }

  /** From a reset vector, a fast wheel counts n mod L, a slow wheel counts the triggered
      pulses mod L (at most one advance per pulse, however many wheels fire), and an
      unflagged wheel stays at 0. */
  lemma {:induction false} RunFromZero(cfgs: seq<SteppingCfg>, n: nat)
    requires |cfgs| == NWheels
    ensures forall w :: 0 <= w < NWheels ==> Run(cfgs, ZeroCounts, n)[w] == Expected(cfgs, n, w)
  {
    if n > 0 {
      RunFromZero(cfgs, n - 1);
      RunFromZeroStep(cfgs, n - 1, n);
    }
  }

  /** One pulse of `RunFromZero`: the closed form for m pulses gives the one for n = m + 1. */
  lemma RunFromZeroStep(cfgs: seq<SteppingCfg>, m: nat, n: nat)
    requires |cfgs| == NWheels && n == m + 1
    requires forall w :: 0 <= w < NWheels ==> Run(cfgs, ZeroCounts, m)[w] == Expected(cfgs, m, w)
    ensures forall w :: 0 <= w < NWheels ==> Run(cfgs, ZeroCounts, n)[w] == Expected(cfgs, n, w)
  {
    var prev := Run(cfgs, ZeroCounts, m);
    assert Run(cfgs, ZeroCounts, n) == Step(cfgs, prev);
    TriggeredFromZero(cfgs, m, n);
    forall w | 0 <= w < NWheels
      ensures Step(cfgs, prev)[w] == Expected(cfgs, n, w)
    {
      WheelFromZeroStep(cfgs, prev, m, n, w);
    }
  }

  /** One pulse of one wheel of `RunFromZero`. */
  lemma WheelFromZeroStep(cfgs: seq<SteppingCfg>, prev: seq<nat>, m: nat, n: nat, w: nat)
    requires |cfgs| == NWheels && |prev| == NWheels && n == m + 1 && w < NWheels
    requires prev[w] == Expected(cfgs, m, w)
    requires Triggered(cfgs, prev) <==> FiresAt(cfgs, n)
    ensures Step(cfgs, prev)[w] == Expected(cfgs, n, w)
  {
    if cfgs[w].fast {
      ModAddMod(m, 1, Len(w));
    } else if cfgs[w].slow {
      ModAddMod(Pulses(cfgs, m), 1, Len(w));
    }
  }

  /** After m pulses from zero, the next pulse triggers exactly when pulse n = m + 1 is one
      where a fast triggering wheel comes round to 0. */
  lemma TriggeredFromZero(cfgs: seq<SteppingCfg>, m: nat, n: nat)
    requires |cfgs| == NWheels && n == m + 1
    requires forall w :: 0 <= w < NWheels ==> Run(cfgs, ZeroCounts, m)[w] == Expected(cfgs, m, w)
    ensures Triggered(cfgs, Run(cfgs, ZeroCounts, m)) <==> FiresAt(cfgs, n)
  {
    var prev := Run(cfgs, ZeroCounts, m);
    forall w | 0 <= w < NWheels && cfgs[w].fast && cfgs[w].trigger
      ensures Fires(cfgs, prev, w) <==> n % Len(w) == 0
    {
      ModAddMod(m, 1, Len(w));
    }
  }

  /** The quotient by len rises by one exactly on the multiples of len. */
  lemma DivStep(n: nat, len: nat)
    requires len > 0
    ensures (n + 1) / len == n / len + (if (n + 1) % len == 0 then 1 else 0)
  {
    var q, r := n / len, n % len;
    assert n == q * len + r;
    if r + 1 < len {
      DivModUnique(n + 1, len, q, r + 1);
    } else {
      DivModUnique(n + 1, len, q + 1, 0);
    }
  }

  /** With one fast triggering wheel f, pulse j fires exactly when L_f divides j. */
  lemma {:induction false} PulsesOfOne(cfgs: seq<SteppingCfg>, f: nat, n: nat)
    requires |cfgs| == NWheels && f < NWheels && cfgs[f].fast && cfgs[f].trigger
    requires forall w :: 0 <= w < NWheels && w != f ==> !(cfgs[w].fast && cfgs[w].trigger)
    ensures Pulses(cfgs, n) == n / Len(f)
  {
    if n > 0 {
      PulsesOfOne(cfgs, f, n - 1);
      DivStep(n - 1, Len(f));
      assert FiresAt(cfgs, n) <==> n % Len(f) == 0;
    }
  }

  /** Without a fast triggering wheel no pulse fires. */
  lemma {:induction false} NoPulses(cfgs: seq<SteppingCfg>, n: nat)
    requires |cfgs| == NWheels
    requires forall w :: 0 <= w < NWheels ==> !(cfgs[w].fast && cfgs[w].trigger)
    ensures Pulses(cfgs, n) == 0
  {
    if n > 0 {
      NoPulses(cfgs, n - 1);
    }
  }

  /** Wheel f flagged fcfg, wheel s flagged scfg, every other wheel unflagged. */
  function PairCfgs(f: nat, fcfg: SteppingCfg, s: nat, scfg: SteppingCfg): (r: seq<SteppingCfg>)
    ensures |r| == NWheels
  {
    seq(NWheels, w => if w == f then fcfg else if w == s then scfg else NoStepping)
  }

  /** `test_long_run_stepping`: with f fast and triggering and s slow, after i pulses
      count_f = i mod L_f and count_s = (i div L_f) mod L_s; the others stay 0. */
  lemma LongRun(f: nat, s: nat, i: nat)
    requires f < NWheels && s < NWheels && f != s
    ensures var c := Run(PairCfgs(f, FastAndTrigger, s, SlowStep), ZeroCounts, i);
      && c[f] == i % Len(f)
      && c[s] == (i / Len(f)) % Len(s)
      && forall w :: 0 <= w < NWheels && w != f && w != s ==> c[w] == 0
  {
    var cfgs := PairCfgs(f, FastAndTrigger, s, SlowStep);
    RunFromZero(cfgs, i);
    PulsesOfOne(cfgs, f, i);
    assert Expected(cfgs, i, s) == (i / Len(f)) % Len(s);
  }

  /** `test_untriggered_long_run_stepping`: with f fast but not triggering, s never moves. */
  lemma UntriggeredRun(f: nat, s: nat, i: nat)
    requires f < NWheels && s < NWheels && f != s
    ensures var c := Run(PairCfgs(f, StepFast, s, SlowStep), ZeroCounts, i);
      && c[f] == i % Len(f)
      && forall w :: 0 <= w < NWheels && w != f ==> c[w] == 0
  {
    var cfgs := PairCfgs(f, StepFast, s, SlowStep);
    RunFromZero(cfgs, i);
    NoPulses(cfgs, i);
    assert Expected(cfgs, i, s) == 0 % Len(s);
  }

  /** The number of pulses j in 1..n on which wheel a or wheel b wraps to 0: the cumulative
      sum of the test's `step_p`, whose entry for pulse 0 is cleared. */
  function EitherWraps(la: nat, lb: nat, n: nat): (r: nat)
    requires la > 0 && lb > 0
    ensures r <= n
  {
    if n == 0 then 0 else EitherWraps(la, lb, n - 1) + (if n % la == 0 || n % lb == 0 then 1 else 0)
  }

  /** Wheels a and b fast and triggering, wheel s slow, the rest unflagged. */
  function FrenziedCfgs(a: nat, b: nat, s: nat): (r: seq<SteppingCfg>)
    ensures |r| == NWheels
  {
    seq(NWheels, w => if w == a || w == b then FastAndTrigger else if w == s then SlowStep else NoStepping)
  }

  lemma {:induction false} FrenziedPulses(a: nat, b: nat, s: nat, n: nat)
    requires a < NWheels && b < NWheels && s < NWheels && s != a && s != b
    ensures Pulses(FrenziedCfgs(a, b, s), n) == EitherWraps(Len(a), Len(b), n)
  {
    if n > 0 {
      FrenziedPulses(a, b, s, n - 1);
      var cfgs := FrenziedCfgs(a, b, s);
      assert FiresAt(cfgs, n) <==> n % Len(a) == 0 || n % Len(b) == 0 by {
        if n % Len(a) == 0 {
          assert cfgs[a].fast && cfgs[a].trigger;
        } else if n % Len(b) == 0 {
          assert cfgs[b].fast && cfgs[b].trigger;
        }
      }
    }
  }

  /** `test_frenzied_fantasy_stepping`: with a and b fast and triggering and s slow, s counts
      the pulses on which a or b wraps, once per pulse even when both wrap together. */
  lemma FrenziedRun(a: nat, b: nat, s: nat, i: nat)
    requires a < NWheels && b < NWheels && s < NWheels && s != a && s != b
    ensures var c := Run(FrenziedCfgs(a, b, s), ZeroCounts, i);
      && c[a] == i % Len(a)
      && c[b] == i % Len(b)
      && c[s] == EitherWraps(Len(a), Len(b), i) % Len(s)
      && forall w :: 0 <= w < NWheels && w != a && w != b && w != s ==> c[w] == 0
  {
    var cfgs := FrenziedCfgs(a, b, s);
    RunFromZero(cfgs, i);
    FrenziedPulses(a, b, s, i);
    assert Expected(cfgs, i, s) == EitherWraps(Len(a), Len(b), i) % Len(s);
  }

  // ----- Loading target counts -----

  /** Only wheel i stepping fast: a pulse advances wheel i by one and nothing else. */
  lemma FastOnlyStep(counts: seq<nat>, i: nat)
    requires |counts| == NWheels && i < NWheels
    ensures Step(AllNoStepping[i := StepFast], counts) == counts[i := (counts[i] + 1) % Len(i)]
  {
    var cfgs := AllNoStepping[i := StepFast];
    assert !Triggered(cfgs, counts);
  }

  /** n such pulses add n to wheel i modulo its cam count. */
  lemma {:induction false} FastOnlyRun(counts: seq<nat>, i: nat, n: nat)
    requires |counts| == NWheels && i < NWheels && counts[i] < Len(i)
    ensures Run(AllNoStepping[i := StepFast], counts, n) == counts[i := (counts[i] + n) % Len(i)]
  {
    if n == 0 {
      ModBelow(counts[i], Len(i));
      assert counts[i := counts[i]] == counts;
    } else {
      FastOnlyRun(counts, i, n - 1);
      var prev := counts[i := (counts[i] + n - 1) % Len(i)];
      FastOnlyStep(prev, i);
      ModAddMod(counts[i] + n - 1, 1, Len(i));
      assert prev[i := (prev[i] + 1) % Len(i)] == counts[i := (counts[i] + n) % Len(i)];
    }
  }

  // ----- The `ended` table -----

  /** `_nzat`: count 3 on the listed wheels, 0 elsewhere; an index past the last wheel
      raises IndexError. */
  method NzAt(idxs: seq<nat>) returns (r: Result<seq<nat>>)
    ensures r.Ok? <==> forall k :: 0 <= k < |idxs| ==> idxs[k] < NWheels
    ensures r.Ok? ==> r.value == NzCounts(idxs)
  {
    var counts := ZeroCounts;
    for k := 0 to |idxs|
      invariant |counts| == NWheels
      invariant forall j :: 0 <= j < k ==> idxs[j] < NWheels
      invariant forall w :: 0 <= w < NWheels ==> counts[w] == (if w in idxs[..k] then 3 else 0)
    {
      if idxs[k] >= NWheels {
        return Err(IndexError);
      }
      assert idxs[..k + 1] == idxs[..k] + [idxs[k]];
      counts := counts[idxs[k] := 3];
    }
    assert idxs[..|idxs|] == idxs;
    return Ok(counts);
  }

  function NzCounts(idxs: seq<nat>): (r: seq<nat>)
    ensures |r| == NWheels
  {
    seq(NWheels, w => if w in idxs then 3 else 0)
  }

  /** `_ignat`: the ignore flag set on the listed wheels only. */
  method IgnAt(idxs: seq<nat>) returns (r: Result<seq<bool>>)
    ensures r.Ok? <==> forall k :: 0 <= k < |idxs| ==> idxs[k] < NWheels
    ensures r.Ok? ==> |r.value| == NWheels
    ensures r.Ok? ==> forall w :: 0 <= w < NWheels ==> (r.value[w] <==> w in idxs)
  {
    var ps := seq(NWheels, _ => false);
    for k := 0 to |idxs|
      invariant |ps| == NWheels
      invariant forall j :: 0 <= j < k ==> idxs[j] < NWheels
      invariant forall w :: 0 <= w < NWheels ==> (ps[w] <==> w in idxs[..k])
    {
      if idxs[k] >= NWheels {
        return Err(IndexError);
      }
      assert idxs[..k + 1] == idxs[..k] + [idxs[k]];
      ps := ps[idxs[k] := true];
    }
    assert idxs[..|idxs|] == idxs;
    return Ok(ps);
  }

  /** Every wheel unflagged except for its ignore flag, taken from ps. */
  function IgnoreCfgs(ps: seq<bool>): (r: seq<SteppingCfg>)
    requires |ps| == NWheels
    ensures |r| == NWheels
  {
    seq(NWheels, w requires 0 <= w < NWheels => SteppingCfg(false, false, false, ps[w]))
  }

  /** `test_next_ended`: with count 3 on the wheels in nz and 0 elsewhere, the run has ended
      exactly when every wheel in nz is ignored. */
  lemma EndedTable(nz: seq<nat>, ps: seq<bool>)
    requires |ps| == NWheels
    ensures Ended(IgnoreCfgs(ps), NzCounts(nz)) <==> forall w :: 0 <= w < NWheels && w in nz ==> ps[w]
  {
    if !Ended(IgnoreCfgs(ps), NzCounts(nz)) {
      var w :| 0 <= w < NWheels && !IgnoreCfgs(ps)[w].ignRpt && NzCounts(nz)[w] != 0;
      assert w in nz && !ps[w];
    } else {
      forall w | 0 <= w < NWheels && w in nz
        ensures ps[w]
      {
        assert NzCounts(nz)[w] == 3;
      }
    }
  }
}
