/** The scenarios of tests/test_step_count_vector.py run against the session model: each
    method issues the same session calls as its test and promises the values that test
    expects. */
module StepCountVectorTests {
  import opened Wrappers
  import opened Codecs
  import opened Wheels
  import opened StepCountVector
  import opened Session

  /** `_stepping_pretest`: configs cleared and the vector reset leave every count at 0. */
  method SteppingPretest(c: Colossus) returns (values: seq<nat>)
    requires c.Valid()
    modifies c, c.scv
    ensures c.Valid() && c.scv.cfgs == AllNoStepping && c.scv.counts == ZeroCounts
    ensures values == ZeroCounts
  {
    c.ResetAllStepCountVectorConfigs();
    c.ResetStepCountVector();
    values := c.ReadStepCountVectorValues();
  }

  /** `test_long_run_stepping`. */
  method LongRunStepping(c: Colossus, f: nat, s: nat, n: nat) returns (rows: seq<seq<nat>>)
    requires c.Valid() && f < NWheels && s < NWheels && f != s
    modifies c, c.scv
    ensures |rows| == n
    ensures forall i :: 0 <= i < n ==> |rows[i]| == NWheels
    ensures forall i :: 0 <= i < n ==> rows[i][f] == i % Len(f) && rows[i][s] == (i / Len(f)) % Len(s)
    ensures forall i, w :: 0 <= i < n && 0 <= w < NWheels && w != f && w != s ==> rows[i][w] == 0
  {
    var _ := SteppingPretest(c);
    c.SetStepCountVectorConfig(f, FastAndTrigger);
    c.SetStepCountVectorConfig(s, SlowStep);
    assert c.scv.cfgs == PairCfgs(f, FastAndTrigger, s, SlowStep);
    rows := c.ReadStepCountVectorValuesThenStep(n);
    forall i | 0 <= i < n
      ensures |rows[i]| == NWheels
      ensures rows[i][f] == i % Len(f) && rows[i][s] == (i / Len(f)) % Len(s)
      ensures forall w :: 0 <= w < NWheels && w != f && w != s ==> rows[i][w] == 0
    {
      LongRun(f, s, i);
    }
  }

  /** `test_untriggered_long_run_stepping`. */
  method UntriggeredLongRunStepping(c: Colossus, f: nat, s: nat, n: nat) returns (rows: seq<seq<nat>>)
    requires c.Valid() && f < NWheels && s < NWheels && f != s
    modifies c, c.scv
    ensures |rows| == n
    ensures forall i :: 0 <= i < n ==> |rows[i]| == NWheels && rows[i][f] == i % Len(f)
    ensures forall i, w :: 0 <= i < n && 0 <= w < NWheels && w != f ==> rows[i][w] == 0
  {
    var _ := SteppingPretest(c);
    c.SetStepCountVectorConfig(f, StepFast);
    c.SetStepCountVectorConfig(s, SlowStep);
    assert c.scv.cfgs == PairCfgs(f, StepFast, s, SlowStep);
    rows := c.ReadStepCountVectorValuesThenStep(n);
    forall i | 0 <= i < n
      ensures |rows[i]| == NWheels && rows[i][f] == i % Len(f)
      ensures forall w :: 0 <= w < NWheels && w != f ==> rows[i][w] == 0
    {
      UntriggeredRun(f, s, i);
    }
  }

  /** `test_frenzied_fantasy_stepping`, with wheels 4 and 3 fast and triggering and wheel 2 slow. */
  method FrenziedFantasyStepping(c: Colossus, n: nat) returns (rows: seq<seq<nat>>)
    requires c.Valid()
    modifies c, c.scv
    ensures |rows| == n
    ensures forall i :: 0 <= i < n ==> |rows[i]| == NWheels
    ensures forall i :: 0 <= i < n ==>
      rows[i][4] == i % Len(4) && rows[i][3] == i % Len(3) && rows[i][2] == EitherWraps(Len(4), Len(3), i) % Len(2)
    ensures forall i, w :: 0 <= i < n && 0 <= w < NWheels && w != 4 && w != 3 && w != 2 ==> rows[i][w] == 0
  {
    var _ := SteppingPretest(c);
    c.SetStepCountVectorConfig(4, FastAndTrigger);
    c.SetStepCountVectorConfig(3, FastAndTrigger);
    c.SetStepCountVectorConfig(2, SlowStep);
    assert c.scv.cfgs == FrenziedCfgs(4, 3, 2);
    rows := c.ReadStepCountVectorValuesThenStep(n);
    forall i | 0 <= i < n
      ensures |rows[i]| == NWheels
      ensures rows[i][4] == i % Len(4) && rows[i][3] == i % Len(3) && rows[i][2] == EitherWraps(Len(4), Len(3), i) % Len(2)
      ensures forall w :: 0 <= w < NWheels && w != 4 && w != 3 && w != 2 ==> rows[i][w] == 0
    {
      FrenziedRun(4, 3, 2, i);
    }
  }

  /** `test_command_stream`: half of each wheel's cam count loaded, then broadcast. */
  method CommandStream(c: Colossus) returns (values: seq<nat>, frame: seq<nat>)
    requires c.Valid()
    modifies c, c.scv
    ensures values == HalfCounts()
    ensures frame == [0, 0x2d, 0x3f] + HalfCounts() + [0]
  {
    var _ := SteppingPretest(c);
    var tgt := HalfCounts();
    c.SetStepCountVectorValues(tgt);
    LoadedCountsExact(tgt);
    assert LoadedCounts(tgt) == tgt;
    values := c.ReadStepCountVectorValues();
    frame := c.EmitCmdsStepCountVector();
    assert frame == frame[..3] + frame[3..15] + [frame[15]];
  }

  /** `[(n // 2) for n in N_CAMS_ALL]`. */
  function HalfCounts(): (r: seq<nat>)
    ensures |r| == NWheels && forall w :: 0 <= w < NWheels ==> r[w] < Len(w)
  {
    seq(NWheels, w requires 0 <= w < NWheels => Len(w) / 2)
  }

  /** `test_next_ended`: counts 3 on the wheels in nz, every wheel's flags cleared except
      its ignore flag from ps; `ended` reads 1 exactly when each wheel in nz is ignored. */
  method NextEnded(c: Colossus, nz: seq<nat>, ps: seq<bool>) returns (ended: nat)
    requires c.Valid() && |ps| == NWheels
    requires forall k :: 0 <= k < |nz| ==> nz[k] < NWheels
    modifies c, c.scv
    ensures ended == 1 <==> forall w :: 0 <= w < NWheels && w in nz ==> ps[w]
    ensures ended == 0 <==> exists w :: 0 <= w < NWheels && w in nz && !ps[w]
  {
    var counts := NzAt(nz);
    c.SetStepCountVectorValues(counts.value);
    LoadedCountsExact(counts.value);
    assert c.scv.counts == NzCounts(nz);
    for i := 0 to NWheels
      invariant c.Valid() && c.scv.counts == NzCounts(nz)
      invariant forall w :: 0 <= w < i ==> c.scv.cfgs[w] == SteppingCfg(false, false, false, ps[w])
    {
      c.SetStepCountVectorConfig(i, SteppingCfg(false, false, false, ps[i]));
    }
    assert c.scv.cfgs == IgnoreCfgs(ps);
    ended := c.ReadStepCountVectorEnded();
    EndedTable(nz, ps);
  }
}
