/** The chi-3/chi-4 setting run of tests/test_chi34_setting_run.py and
    tests/sample_long_run.py: the reference score "3+4." of every (chi3, chi4) setting pair,
    the enumeration in (chi4, chi3) order with the threshold filter, and the two stepping
    schedules (chi 3 fast and chi 4 slow, or both fast) under which the device visits those
    pairs. */
module Chi34 {
  import opened Bits
  import opened Codecs
  import opened Wheels
  import opened StepCountVector

  /** `set_total_threshold`: a setting is printed when its score is below this. */
  const SetTotalThreshold := 7873

  function Xor(a: Bit, b: Bit): (r: Bit)
    ensures r == 1 <==> a != b
  {
    if a == b then 0 else 1
  }

  /** `delta_stream`: each impulse xor-ed with the one before it; one shorter than the
      input, and empty for an empty input. */
  function DeltaStream(x: seq<Bit>): (r: seq<Bit>)
    ensures |r| == if |x| == 0 then 0 else |x| - 1
    ensures forall i :: 0 <= i < |r| ==> (r[i] == 0 <==> x[i + 1] == x[i])
  {
    if |x| == 0 then [] else seq(|x| - 1, i requires 0 <= i < |x| - 1 => Xor(x[i + 1], x[i]))
  }

  /** The inverse of `DeltaStream`: the stream with first impulse b whose deltas are d. */
  function Integrate(b: Bit, d: seq<Bit>): (r: seq<Bit>)
    ensures |r| == |d| + 1 && r[0] == b
    decreases |d|
  {
    if |d| == 0 then [b] else [b] + Integrate(Xor(b, d[0]), d[1..])
  }

  /** A stream is recovered from its first impulse and its deltas. */
  lemma {:induction false} IntegrateDelta(x: seq<Bit>)
    requires |x| > 0
    ensures Integrate(x[0], DeltaStream(x)) == x
  {
    if |x| > 1 {
      var d := DeltaStream(x);
      assert d[1..] == DeltaStream(x[1..]);
      assert Xor(x[0], d[0]) == x[1];
      IntegrateDelta(x[1..]);
      assert x == [x[0]] + x[1..];
    }
  }

  /** Position i of the deltas is the xor of positions i + 1 and i. */
  lemma DeltaAt(x: seq<Bit>, i: nat)
    requires i + 1 < |x|
    ensures DeltaStream(x)[i] == Xor(x[i + 1], x[i])
  {
  }

  /** The deltas of an integrated stream are the ones it was built from. */
  lemma {:induction false} DeltaIntegrate(b: Bit, d: seq<Bit>)
    ensures DeltaStream(Integrate(b, d)) == d
    decreases |d|
  {
    if |d| > 0 {
      var tail := Integrate(Xor(b, d[0]), d[1..]);
      DeltaIntegrate(Xor(b, d[0]), d[1..]);
      var x := Integrate(b, d);
      assert x == [b] + tail;
      var e := DeltaStream(x);
      forall i | 0 <= i < |d|
        ensures e[i] == d[i]
      {
        DeltaAt(x, i);
        if i == 0 {
          assert x[1] == tail[0];
        } else {
          assert x[i + 1] == tail[i] && x[i] == tail[i - 1];
          DeltaAt(tail, i - 1);
          assert DeltaStream(tail)[i - 1] == d[1..][i - 1];
        }
      }
      assert |e| == |d|;
    }
  }

  /** How many impulses of s are 0. */
  function CountZeros(s: seq<Bit>): (r: nat)
    ensures r <= |s|
  {
    if |s| == 0 then 0 else CountZeros(s[..|s| - 1]) + (if s[|s| - 1] == 0 then 1 else 0)
  }

  /** The set of positions of s holding 0. */
  function ZeroSet(s: seq<Bit>): set<nat>
  {
    set i: nat | i < |s| && s[i] == 0
  }

  /** The running count is the size of the set of zero positions. */
  lemma {:induction false} CountZerosIsCard(s: seq<Bit>)
    ensures CountZeros(s) == |ZeroSet(s)|
  {
    if |s| > 0 {
      var front := s[..|s| - 1];
      CountZerosIsCard(front);
      if s[|s| - 1] == 0 {
        assert ZeroSet(s) == ZeroSet(front) + {|s| - 1};
        assert |s| - 1 !in ZeroSet(front);
      } else {
        assert ZeroSet(s) == ZeroSet(front);
      }
    }
  }

  /** The chi pattern with chi 3 at setting c3, chi 4 at c4 and the others at 0. */
  function Chi34Wheels(chi: seq<seq<Cam>>, c3: nat, c4: nat): (r: Chi)
    requires |chi| == 5 && NonEmptyWheels(chi)
    ensures r.Valid()
  {
    NewChi(chi, [0, 0, c3, c4, 0])
  }

  /** Impulse 3 xor impulse 4 of the de-chi (`Z ^ chi letters`): bit k of a xor b is bit k
      of a xor bit k of b, and impulses 3 and 4 are bits 2 and 1. */
  function Stream34(z: seq<nat>, chi: seq<seq<Cam>>, c3: nat, c4: nat): (r: seq<Bit>)
    requires |chi| == 5 && NonEmptyWheels(chi)
    ensures |r| == |z|
  {
    var letters := Chi34Wheels(chi, c3, c4).Letters(|z|);
    seq(|z|, i requires 0 <= i < |z| =>
      Xor(Xor(BitAt(z[i], 2), BitAt(letters[i] as nat, 2)), Xor(BitAt(z[i], 1), BitAt(letters[i] as nat, 1))))
  }

  /** Position i of the stream reads chi 3 at cam (i + c3) mod L3 and chi 4 at cam
      (i + c4) mod L4. */
  lemma Stream34At(z: seq<nat>, chi: seq<seq<Cam>>, c3: nat, c4: nat, i: nat)
    requires |chi| == 5 && NonEmptyWheels(chi) && c3 <= |chi[2]| && c4 <= |chi[3]| && i < |z|
    ensures Stream34(z, chi, c3, c4)[i] ==
      Xor(Xor(BitAt(z[i], 2), chi[2][(i + c3) % |chi[2]|]), Xor(BitAt(z[i], 1), chi[3][(i + c4) % |chi[3]|]))
  {
    var settings := [0, 0, c3, c4, 0];
    ChiLettersAt(chi, settings, |z|, i);
    var col := seq(5, k requires 0 <= k < 5 => chi[k][(i + settings[k]) % |chi[k]|]);
    LetterFromCams(col);
  }

  /** `dot3p4`: the positions where impulse 3 + 4 of the de-chi repeats the previous one;
      at most one fewer than the tape length. */
  function Dot3p4(z: seq<nat>, chi: seq<seq<Cam>>, c3: nat, c4: nat): (r: nat)
    requires |chi| == 5 && NonEmptyWheels(chi)
    ensures r <= if |z| == 0 then 0 else |z| - 1
  {
    CountZeros(DeltaStream(Stream34(z, chi, c3, c4)))
  }

  /** Position i + 1 of x repeats position i. */
  predicate Repeats(x: seq<Bit>, i: nat)
  {
    i + 1 < |x| && x[i + 1] == x[i]
  }

  /** The zeros of the deltas are the positions whose successor repeats them. */
  lemma ZeroSetOfDelta(x: seq<Bit>)
    ensures ZeroSet(DeltaStream(x)) == set i: nat | i < |x| && Repeats(x, i)
  {
    var d := DeltaStream(x);
    var rep := set i: nat | i < |x| && Repeats(x, i);
    forall i: nat
      ensures i in ZeroSet(d) <==> i in rep
    {
      if i + 1 < |x| {
        assert d[i] == 0 <==> x[i + 1] == x[i];
      }
    }
  }

  /** The score counts the tape positions i whose impulse 3 + 4 equals that of position i + 1. */
  lemma Dot3p4Counts(z: seq<nat>, chi: seq<seq<Cam>>, c3: nat, c4: nat)
    requires |chi| == 5 && NonEmptyWheels(chi)
    ensures Dot3p4(z, chi, c3, c4) == |set i: nat | i < |z| && Repeats(Stream34(z, chi, c3, c4), i)|
  {
    var x := Stream34(z, chi, c3, c4);
    CountZerosIsCard(DeltaStream(x));
    ZeroSetOfDelta(x);
  }

  /** One record of `exp_results`. */
  datatype Candidate = Candidate(chi3: nat, chi4: nat, dot: nat)

  /** A table of scores whose rows all have width len3 > 0. */
  predicate Table(t: seq<seq<nat>>, len3: nat)
  {
    len3 > 0 && forall r :: 0 <= r < |t| ==> |t[r]| == len3
  }

  /** The scores of all settings pairs: row c4 holds the pairs with chi 4 at c4, column c3
      the pair with chi 3 at c3. */
  function Scores(z: seq<nat>, chi: seq<seq<Cam>>): (t: seq<seq<nat>>)
    requires |chi| == 5 && NonEmptyWheels(chi)
    ensures Table(t, |chi[2]|) && |t| == |chi[3]|
  {
    seq(|chi[3]|, c4 requires 0 <= c4 < |chi[3]| =>
      seq(|chi[2]|, c3 requires 0 <= c3 < |chi[2]| => Dot3p4(z, chi, c3, c4)))
  }

  /** Entry (c4, c3) of the table is the score of chi 3 at c3 and chi 4 at c4. */
  lemma ScoresAt(z: seq<nat>, chi: seq<seq<Cam>>, c3: nat, c4: nat)
    requires |chi| == 5 && NonEmptyWheels(chi) && c3 < |chi[2]| && c4 < |chi[3]|
    ensures Scores(z, chi)[c4][c3] == Dot3p4(z, chi, c3, c4)
  {
  }

  /** Candidate k of the enumeration of a table: the row is the outer index, the column the
      inner one. */
  function PairAt(t: seq<seq<nat>>, len3: nat, k: nat): (c: Candidate)
    requires Table(t, len3) && k < |t| * len3
    ensures c.chi3 < len3 && c.chi4 < |t| && k == c.chi4 * len3 + c.chi3
    ensures c.dot == t[c.chi4][c.chi3]
  {
    DivModSplit(k, len3);
    DivBelow(k, len3, |t|);
    Candidate(k % len3, k / len3, t[k / len3][k % len3])
  }

  /** All candidates of a table in enumeration order. */
  function Pairs(t: seq<seq<nat>>, len3: nat): (r: seq<Candidate>)
    requires Table(t, len3)
    ensures |r| == |t| * len3
    ensures forall k :: 0 <= k < |r| ==> r[k] == PairAt(t, len3, k)
  {
    seq(|t| * len3, k requires 0 <= k < |t| * len3 => PairAt(t, len3, k))
  }

  /** All L3 * L4 candidates in enumeration order: chi 4 outermost, chi 3 innermost. */
  function Enumerate(z: seq<nat>, chi: seq<seq<Cam>>): (r: seq<Candidate>)
    requires |chi| == 5 && NonEmptyWheels(chi)
    ensures |r| == |chi[3]| * |chi[2]|
  {
    Pairs(Scores(z, chi), |chi[2]|)
  }

  /** `[r for r in records if r[2] < set_total_threshold]`. */
  function Filter(rs: seq<Candidate>): (r: seq<Candidate>)
    ensures |r| <= |rs|
  {
    if |rs| == 0 then []
    else Filter(rs[..|rs| - 1]) + (if rs[|rs| - 1].dot < SetTotalThreshold then [rs[|rs| - 1]] else [])
  }

  /** The filter keeps exactly the candidates scoring below the threshold. */
  lemma {:induction false} FilterMembers(rs: seq<Candidate>)
    ensures forall c :: c in Filter(rs) <==> c in rs && c.dot < SetTotalThreshold
  {
    if |rs| > 0 {
      var front := rs[..|rs| - 1];
      FilterMembers(front);
      assert rs == front + [rs[|rs| - 1]];
    }
  }

  /** The order of settings: by chi 4, then by chi 3. */
  predicate Before(a: Candidate, b: Candidate)
  {
    a.chi4 < b.chi4 || (a.chi4 == b.chi4 && a.chi3 < b.chi3)
  }

  predicate StrictlySorted(s: seq<Candidate>)
  {
    forall i, j :: 0 <= i < j < |s| ==> Before(s[i], s[j])
  }

  /** The filter keeps the order of what it keeps. */
  lemma {:induction false} FilterSorted(rs: seq<Candidate>)
    requires StrictlySorted(rs)
    ensures StrictlySorted(Filter(rs))
  {
    if |rs| > 0 {
      var front := rs[..|rs| - 1];
      var last := rs[|rs| - 1];
      FilterSorted(front);
      FilterMembers(front);
      forall c | c in Filter(front)
        ensures Before(c, last)
      {
        var i :| 0 <= i < |front| && front[i] == c;
      }
    }
  }

  /** Of two numbers, the smaller has the smaller quotient by L, or the same quotient and
      the smaller remainder. */
  lemma DivOrder(k: nat, k': nat, L: nat)
    requires L > 0 && k < k'
    ensures k / L < k' / L || (k / L == k' / L && k % L < k' % L)
  {
    if k' / L < k / L {
      MulMono(k' / L + 1, k / L, L);
      assert false;
    }
  }

  /** The enumeration of a table is in strictly increasing (row, column) order. */
  lemma PairsSorted(t: seq<seq<nat>>, len3: nat)
    requires Table(t, len3)
    ensures StrictlySorted(Pairs(t, len3))
  {
    var e := Pairs(t, len3);
    forall i, j | 0 <= i < j < |e|
      ensures Before(e[i], e[j])
    {
      DivOrder(i, j, len3);
    }
  }

  /** Position c4 * L3 + c3 of an L3-by-L4 enumeration, chi 4 outermost, is inside it. */
  lemma PairPosition(len3: nat, len4: nat, c3: nat, c4: nat)
    requires c3 < len3 && c4 < len4
    ensures c4 * len3 + c3 < len4 * len3
  {
    MulMono(c4 + 1, len4, len3);
  }

  /** The candidate for row c4 and column c3 sits at position c4 * L3 + c3. */
  lemma PairAtOf(t: seq<seq<nat>>, len3: nat, c3: nat, c4: nat)
    requires Table(t, len3) && c3 < len3 && c4 < |t|
    ensures c4 * len3 + c3 < |t| * len3
    ensures PairAt(t, len3, c4 * len3 + c3) == Candidate(c3, c4, t[c4][c3])
  {
    PairPosition(len3, |t|, c3, c4);
    DivModUnique(c4 * len3 + c3, len3, c4, c3);
  }

  /** The enumeration of a table holds exactly its entries, each with its row and column. */
  lemma PairsMembers(t: seq<seq<nat>>, len3: nat, c: Candidate)
    requires Table(t, len3)
    ensures c in Pairs(t, len3) <==> c.chi3 < len3 && c.chi4 < |t| && c.dot == t[c.chi4][c.chi3]
  {
    var e := Pairs(t, len3);
    if c.chi3 < len3 && c.chi4 < |t| && c.dot == t[c.chi4][c.chi3] {
      PairAtOf(t, len3, c.chi3, c.chi4);
      assert e[c.chi4 * len3 + c.chi3] == c;
    }
  }

  /** records holds the first |records| candidates of the enumeration of a table. */
  predicate PairsPrefix(t: seq<seq<nat>>, len3: nat, records: seq<Candidate>)
    requires Table(t, len3)
  {
    |records| <= |t| * len3 && forall k :: 0 <= k < |records| ==> records[k] == PairAt(t, len3, k)
  }

  /** Appending the candidate for (c3, c4) at position c4 * L3 + c3 extends the prefix. */
  lemma PairsPrefixSnoc(t: seq<seq<nat>>, len3: nat, records: seq<Candidate>, c3: nat, c4: nat)
    requires Table(t, len3) && c3 < len3 && c4 < |t|
    requires PairsPrefix(t, len3, records) && |records| == c4 * len3 + c3
    ensures PairsPrefix(t, len3, records + [Candidate(c3, c4, t[c4][c3])])
  {
    PairAtOf(t, len3, c3, c4);
    var next := records + [Candidate(c3, c4, t[c4][c3])];
    forall k | 0 <= k < |next|
      ensures next[k] == PairAt(t, len3, k)
    {
      if k < |records| {
        assert next[k] == records[k];
      }
    }
  }

  /** A prefix as long as the enumeration is the enumeration. */
  lemma PairsPrefixFull(t: seq<seq<nat>>, len3: nat, records: seq<Candidate>)
    requires Table(t, len3) && PairsPrefix(t, len3, records) && |records| == |t| * len3
    ensures records == Pairs(t, len3)
  {
  }

  /** `exp_results`: the nested loops append one candidate per (chi4, chi3) pair, chi 4
      outermost, then the list is filtered. */
  method ExpResults(z: seq<nat>, chi: seq<seq<Cam>>) returns (results: seq<Candidate>)
    requires |chi| == 5 && NonEmptyWheels(chi)
    ensures results == Filter(Enumerate(z, chi))
  {
    ghost var t := Scores(z, chi);
    var records: seq<Candidate> := [];
    for chi4 := 0 to |chi[3]|
      invariant |records| == chi4 * |chi[2]|
      invariant PairsPrefix(t, |chi[2]|, records)
    {
      for chi3 := 0 to |chi[2]|
        invariant |records| == chi4 * |chi[2]| + chi3
        invariant PairsPrefix(t, |chi[2]|, records)
      {
        PairsPrefixSnoc(t, |chi[2]|, records, chi3, chi4);
        ScoresAt(z, chi, chi3, chi4);
        var dot := Dot3p4(z, chi, chi3, chi4);
        records := records + [Candidate(chi3, chi4, dot)];
      }
      assert chi4 * |chi[2]| + |chi[2]| == (chi4 + 1) * |chi[2]|;
    }
    PairsPrefixFull(t, |chi[2]|, records);
    results := Filter(records);
  }

  /** The candidates of the enumeration are exactly the settings pairs with their scores. */
  predicate IsSetting(z: seq<nat>, chi: seq<seq<Cam>>, c: Candidate)
    requires |chi| == 5 && NonEmptyWheels(chi)
  {
    c.chi3 < |chi[2]| && c.chi4 < |chi[3]| && c.dot == Dot3p4(z, chi, c.chi3, c.chi4)
  }

  /** A candidate is in the enumeration exactly when it is a settings pair with its score. */
  lemma EnumerateMembers(z: seq<nat>, chi: seq<seq<Cam>>, c: Candidate)
    requires |chi| == 5 && NonEmptyWheels(chi)
    ensures c in Enumerate(z, chi) <==> IsSetting(z, chi, c)
  {
    PairsMembers(Scores(z, chi), |chi[2]|, c);
    if c.chi3 < |chi[2]| && c.chi4 < |chi[3]| {
      ScoresAt(z, chi, c.chi3, c.chi4);
    }
  }

  /** The enumeration's results are ordered and are exactly the pairs scoring below the
      threshold. */
  lemma ExpectedResultsFacts(z: seq<nat>, chi: seq<seq<Cam>>)
    requires |chi| == 5 && NonEmptyWheels(chi)
    ensures StrictlySorted(Filter(Enumerate(z, chi)))
    ensures forall c :: c in Filter(Enumerate(z, chi)) <==> IsSetting(z, chi, c) && c.dot < SetTotalThreshold
  {
    var e := Enumerate(z, chi);
    PairsSorted(Scores(z, chi), |chi[2]|);
    FilterSorted(e);
    FilterMembers(e);
    forall c: Candidate
      ensures c in e <==> IsSetting(z, chi, c)
    {
      EnumerateMembers(z, chi, c);
    }
  }

  /** A list without members is empty. */
  lemma NoMembersEmpty(s: seq<Candidate>)
    ensures (forall c :: c !in s) ==> |s| == 0
  {
    if |s| > 0 {
      assert s[0] in s;
    }
  }

  /** Two candidates each at or before the other are the same candidate. */
  lemma BeforeAntisym(x: Candidate, y: Candidate)
    requires x == y || Before(x, y)
    requires y == x || Before(y, x)
    ensures x == y
  {
  }

  /** With the same head and the same members, strictly ordered lists have tails with the
      same members. */
  lemma TailMembers(a: seq<Candidate>, b: seq<Candidate>)
    requires StrictlySorted(a) && StrictlySorted(b) && |a| > 0 && |b| > 0 && a[0] == b[0]
    requires forall c :: c in a <==> c in b
    ensures forall c :: c in a[1..] <==> c in b[1..]
  {
    forall c: Candidate | c in a[1..]
      ensures c in b[1..]
    {
      var k' :| 0 <= k' < |a| - 1 && a[1..][k'] == c;
      var k := k' + 1;
      assert a[k] == c && Before(a[0], a[k]);
      assert c in b;
      var m :| 0 <= m < |b| && b[m] == c;
      assert m != 0;
      assert b[m] == b[1..][m - 1];
    }
    forall c: Candidate | c in b[1..]
      ensures c in a[1..]
    {
      var k' :| 0 <= k' < |b| - 1 && b[1..][k'] == c;
      var k := k' + 1;
      assert b[k] == c && Before(b[0], b[k]);
      assert c in a;
      var m :| 0 <= m < |a| && a[m] == c;
      assert m != 0;
      assert a[m] == a[1..][m - 1];
    }
  }

  /** Two strictly ordered lists holding the same elements are equal. */
  lemma {:induction false} SortedUnique(a: seq<Candidate>, b: seq<Candidate>)
    requires StrictlySorted(a) && StrictlySorted(b)
    requires forall c :: c in a <==> c in b
    ensures a == b
  {
    if |a| == 0 || |b| == 0 {
      assert forall c :: c !in a && c !in b;
      NoMembersEmpty(a);
      NoMembersEmpty(b);
    } else {
      assert a[0] in b;
      var j :| 0 <= j < |b| && b[j] == a[0];
      assert b[0] in a;
      var i :| 0 <= i < |a| && a[i] == b[0];
      assert b[0] == a[0] || Before(b[0], a[0]);
      assert a[0] == b[0] || Before(a[0], b[0]);
      BeforeAntisym(a[0], b[0]);
      TailMembers(a, b);
      SortedUnique(a[1..], b[1..]);
      assert a == [a[0]] + a[1..] && b == [b[0]] + b[1..];
    }
  }

  // ----- The device's stepping schedules -----

  /** Fast-slow mode: chi 3 fast and triggering, chi 4 slow (its trigger flag set too). */
  const FastSlowCfgs: seq<SteppingCfg> :=
    AllNoStepping[2 := FastAndTrigger][3 := SteppingCfg(false, true, true, false)]

  /** Both-fast mode: chi 3 and chi 4 both step fast. */
  const BothFastCfgs: seq<SteppingCfg> := AllNoStepping[2 := StepFast][3 := StepFast]

  /** The (chi3, chi4) pair a vector holds, scored as the reference scores it. */
  function VisitAt(z: seq<nat>, chi: seq<seq<Cam>>, counts: seq<nat>): Candidate
    requires |chi| == 5 && NonEmptyWheels(chi) && |counts| == NWheels
  {
    Candidate(counts[2], counts[3], Dot3p4(z, chi, counts[2], counts[3]))
  }

  /** The pairs held after 0, 1, ..., n - 1 pulses from the vector start. */
  function Visited(z: seq<nat>, chi: seq<seq<Cam>>, cfgs: seq<SteppingCfg>, start: seq<nat>, n: nat): (r: seq<Candidate>)
    requires |chi| == 5 && NonEmptyWheels(chi) && |cfgs| == NWheels && |start| == NWheels
    ensures |r| == n && forall i :: 0 <= i < n ==> r[i] == VisitAt(z, chi, Run(cfgs, start, i))
  {
    seq(n, i requires 0 <= i < n => VisitAt(z, chi, Run(cfgs, start, i)))
  }

  /** The records the device prints over the first n pulses from the vector start: the
      visited pairs scoring below the threshold. */
  function DeviceRecords(z: seq<nat>, chi: seq<seq<Cam>>, cfgs: seq<SteppingCfg>, start: seq<nat>, n: nat): seq<Candidate>
    requires |chi| == 5 && NonEmptyWheels(chi) && |cfgs| == NWheels && |start| == NWheels
  {
    Filter(Visited(z, chi, cfgs, start, n))
  }

  /** With no ignore flags and every wheel but chi 3 and chi 4 at 0, the vector has ended
      exactly when both are at 0. */
  lemma EndedOnChi34(cfgs: seq<SteppingCfg>, c: seq<nat>)
    requires |cfgs| == NWheels && |c| == NWheels
    requires forall w :: 0 <= w < NWheels ==> !cfgs[w].ignRpt
    requires forall w :: 0 <= w < NWheels && w != 2 && w != 3 ==> c[w] == 0
    ensures Ended(cfgs, c) <==> c[2] == 0 && c[3] == 0
  {
    if c[2] == 0 && c[3] == 0 {
      forall w | 0 <= w < NWheels
        ensures c[w] == 0
      {
      }
    }
  }

  /** Fast-slow mode: after i pulses chi 3 is at i mod 29 and chi 4 at (i div 29) mod 26,
      and the vector first reads as ended again after 754 pulses. */
  lemma FastSlowSchedule(i: nat)
    ensures Run(FastSlowCfgs, ZeroCounts, i)[2] == i % 29
    ensures Run(FastSlowCfgs, ZeroCounts, i)[3] == (i / 29) % 26
    ensures Ended(FastSlowCfgs, Run(FastSlowCfgs, ZeroCounts, i)) <==> i % 754 == 0
  {
    var cfgs := FastSlowCfgs;
    RunFromZero(cfgs, i);
    PulsesOfOne(cfgs, 2, i);
    var c := Run(cfgs, ZeroCounts, i);
    assert c[2] == i % 29 && c[3] == (i / 29) % 26;
    forall w | 0 <= w < NWheels && w != 2 && w != 3
      ensures c[w] == 0
    {
      assert Expected(cfgs, i, w) == 0;
    }
    EndedOnChi34(cfgs, c);
    var q := i / 754;
    var r := i % 754;
    DivModUnique(i, 29, 26 * q + r / 29, r % 29);
    DivModUnique(i / 29, 26, q, r / 29);
  }

  /** Fast-slow mode over 754 pulses from the reset vector yields the reference results, in
      order. */
  lemma FastSlowRecords(z: seq<nat>, chi: seq<seq<Cam>>)
    requires |chi| == 5 && NonEmptyWheels(chi) && |chi[2]| == 29 && |chi[3]| == 26
    ensures DeviceRecords(z, chi, FastSlowCfgs, ZeroCounts, 754) == Filter(Enumerate(z, chi))
  {
    var visited := Visited(z, chi, FastSlowCfgs, ZeroCounts, 754);
    var e := Enumerate(z, chi);
    forall i | 0 <= i < 754
      ensures visited[i] == e[i]
    {
      FastSlowSchedule(i);
      var c := PairAt(Scores(z, chi), 29, i);
      DivModUnique(i, 29, c.chi4, c.chi3);
      DivModUnique(i / 29, 26, 0, i / 29);
      ScoresAt(z, chi, i % 29, i / 29);
    }
    assert visited == e;
  }

  /** The index whose residues modulo 29 and 26 are a and b: 494 is 1 mod 29 and 0 mod 26,
      261 is 0 mod 29 and 1 mod 26. */
  function CrtIndex(a: nat, b: nat): nat
  {
    (494 * a + 261 * b) % 754
  }

  /** Every index below 754 is recovered from its residues modulo 29 and 26. */
  lemma CrtIndexOfResidues(i: nat)
    requires i < 754
    ensures CrtIndex(i % 29, i % 26) == i
  {
    var q, q' := i / 29, i / 26;
    var x := 494 * (i % 29) + 261 * (i % 26);
    assert x == i + 754 * (i - 19 * q - 9 * q');
    DivModUnique(x, 754, i - 19 * q - 9 * q', i);
  }

  /** Every pair of residues is reached by its index. */
  lemma CrtResidues(a: nat, b: nat)
    requires a < 29 && b < 26
    ensures CrtIndex(a, b) < 754 && CrtIndex(a, b) % 29 == a && CrtIndex(a, b) % 26 == b
  {
    var x := 494 * a + 261 * b;
    var k, i := x / 754, x % 754;
    assert x == 754 * k + i;
    var q3 := 17 * a + 9 * b - 26 * k;
    assert i == 29 * q3 + a;
    DivModUnique(i, 29, q3, a);
    var q4 := 19 * a + 10 * b - 29 * k;
    assert i == 26 * q4 + b;
    DivModUnique(i, 26, q4, b);
  }

  /** An index is a multiple of 754 exactly when it is a multiple of both 29 and 26. */
  lemma CrtZero(i: nat)
    ensures (i % 29 == 0 && i % 26 == 0) <==> i % 754 == 0
  {
    var q, r := i / 754, i % 754;
    DivModUnique(i, 29, 26 * q + r / 29, r % 29);
    DivModUnique(i, 26, 29 * q + r / 26, r % 26);
    CrtIndexOfResidues(r);
  }

  /** Both-fast mode: after i pulses chi 3 is at i mod 29 and chi 4 at i mod 26, and the
      vector first reads as ended again after 754 pulses. */
  lemma BothFastSchedule(i: nat)
    ensures Run(BothFastCfgs, ZeroCounts, i)[2] == i % 29
    ensures Run(BothFastCfgs, ZeroCounts, i)[3] == i % 26
    ensures Ended(BothFastCfgs, Run(BothFastCfgs, ZeroCounts, i)) <==> i % 754 == 0
  {
    var cfgs := BothFastCfgs;
    RunFromZero(cfgs, i);
    var c := Run(cfgs, ZeroCounts, i);
    assert c[2] == i % 29 && c[3] == i % 26;
    forall w | 0 <= w < NWheels && w != 2 && w != 3
      ensures c[w] == 0
    {
      assert Expected(cfgs, i, w) == 0;
    }
    EndedOnChi34(cfgs, c);
    CrtZero(i);
  }

  /** In both-fast mode two different pulses below 754 visit different pairs. */
  lemma BothFastDistinct(i: nat, j: nat)
    requires i < j < 754
    ensures (i % 29, i % 26) != (j % 29, j % 26)
  {
    CrtIndexOfResidues(i);
    CrtIndexOfResidues(j);
  }

  /** Every pair visited in both-fast mode is a setting pair with its score. */
  lemma BothFastSound(z: seq<nat>, chi: seq<seq<Cam>>, c: Candidate)
    requires |chi| == 5 && NonEmptyWheels(chi) && |chi[2]| == 29 && |chi[3]| == 26
    requires c in Visited(z, chi, BothFastCfgs, ZeroCounts, 754)
    ensures IsSetting(z, chi, c)
  {
    var visited := Visited(z, chi, BothFastCfgs, ZeroCounts, 754);
    var i :| 0 <= i < 754 && visited[i] == c;
    BothFastVisit(z, chi, i);
  }

  /** The pair held after i < 754 pulses in both-fast mode is a settings pair. */
  lemma BothFastVisit(z: seq<nat>, chi: seq<seq<Cam>>, i: nat)
    requires |chi| == 5 && NonEmptyWheels(chi) && |chi[2]| == 29 && |chi[3]| == 26 && i < 754
    ensures IsSetting(z, chi, VisitAt(z, chi, Run(BothFastCfgs, ZeroCounts, i)))
  {
    BothFastSchedule(i);
    VisitAtIsSetting(z, chi, Run(BothFastCfgs, ZeroCounts, i));
  }

  /** A vector whose chi 3 and chi 4 are within their wheels holds a settings pair. */
  lemma VisitAtIsSetting(z: seq<nat>, chi: seq<seq<Cam>>, counts: seq<nat>)
    requires |chi| == 5 && NonEmptyWheels(chi) && |counts| == NWheels
    requires counts[2] < |chi[2]| && counts[3] < |chi[3]|
    ensures IsSetting(z, chi, VisitAt(z, chi, counts))
  {
  }

  /** Every setting pair is visited in both-fast mode, at pulse CrtIndex. */
  lemma BothFastComplete(z: seq<nat>, chi: seq<seq<Cam>>, c: Candidate)
    requires |chi| == 5 && NonEmptyWheels(chi) && |chi[2]| == 29 && |chi[3]| == 26
    requires IsSetting(z, chi, c)
    ensures c in Visited(z, chi, BothFastCfgs, ZeroCounts, 754)
  {
    var visited := Visited(z, chi, BothFastCfgs, ZeroCounts, 754);
    CrtResidues(c.chi3, c.chi4);
    var i := CrtIndex(c.chi3, c.chi4);
    BothFastSchedule(i);
    assert visited[i] == c;
  }

  /** Both-fast mode: sorting the device's records by (chi4, chi3) reproduces the reference
      results. The visited pairs are pairwise different, so the sorted list is strictly
      ordered; it is characterised as the strictly ordered list of the same records. */
  lemma BothFastRecords(z: seq<nat>, chi: seq<seq<Cam>>, sorted: seq<Candidate>)
    requires |chi| == 5 && NonEmptyWheels(chi) && |chi[2]| == 29 && |chi[3]| == 26
    requires StrictlySorted(sorted)
    requires forall c :: c in sorted <==> c in DeviceRecords(z, chi, BothFastCfgs, ZeroCounts, 754)
    ensures sorted == Filter(Enumerate(z, chi))
  {
    var visited := Visited(z, chi, BothFastCfgs, ZeroCounts, 754);
    FilterMembers(visited);
    ExpectedResultsFacts(z, chi);
    forall c: Candidate
      ensures c in visited <==> IsSetting(z, chi, c)
    {
      if c in visited {
        BothFastSound(z, chi, c);
      }
      if IsSetting(z, chi, c) {
        BothFastComplete(z, chi, c);
      }
    }
    SortedUnique(sorted, Filter(Enumerate(z, chi)));
  }
}
