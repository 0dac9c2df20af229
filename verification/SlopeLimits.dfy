/**
 How much of a series the slope withstands: the exact boundary at which a single
 step shows, and the exact number of samples a line needs to be reported.
 */
module SlopeLimits {
  import opened RealSort
  import opened Sequences
  import opened TheilSen

  // ---------------------------------------------------------------------------
  // Counting rises
  // ---------------------------------------------------------------------------

  // From `first`, the next `k` samples stay level and all later ones are higher.
  ghost predicate RisesAfter(first: Sample, rest: seq<Sample>, k: nat) {
    forall i :: 0 <= i < |rest| ==>
      && first.t < rest[i].t
      && (if i < k then rest[i].r == first.r else rest[i].r > first.r)
  }

  lemma SlopeSign(rise: real, run: real)
    requires run > 0.0
    ensures rise / run > 0.0 <==> rise > 0.0
    ensures rise / run == 0.0 <==> rise == 0.0
  {
    var q := rise / run;
    assert rise == q * run;
    assert q > 0.0 ==> q * run > 0.0;
    assert q < 0.0 ==> q * run < 0.0;
  }

  lemma {:induction false} SlopesFromRise(first: Sample, rest: seq<Sample>, k: nat)
    requires RisesAfter(first, rest, k)
    ensures Below(SlopesFrom(first, rest), 0.0) == 0
    ensures Above(SlopesFrom(first, rest), 0.0) == |rest| - Min(k, |rest|)
  {
    if rest != [] {
      var init := rest[..|rest| - 1];
      SlopesFromRise(first, init, k);
      RiseAt(first, rest, k, |rest| - 1);
      LastSlope(SlopesFrom(first, init), SlopesFrom(first, rest), |init| < k);
    }
  }

  lemma LastSlope(earlier: seq<real>, slopes: seq<real>, level: bool)
    requires slopes != [] && slopes[..|slopes| - 1] == earlier
    requires if level then slopes[|slopes| - 1] == 0.0 else slopes[|slopes| - 1] > 0.0
    ensures Below(slopes, 0.0) == Below(earlier, 0.0)
    ensures Above(slopes, 0.0) == Above(earlier, 0.0) + if level then 0 else 1
  {
  }

  lemma RiseAt(first: Sample, rest: seq<Sample>, k: nat, i: nat)
    requires RisesAfter(first, rest, k) && i < |rest|
    ensures first.t < rest[i].t
    ensures var slope := (rest[i].r - first.r) / (rest[i].t - first.t);
            if i < k then slope == 0.0 else slope > 0.0
  {
    SlopeSign(rest[i].r - first.r, rest[i].t - first.t);
  }

  // ---------------------------------------------------------------------------
  // A single step
  // ---------------------------------------------------------------------------

  ghost predicate StepsAt(samples: seq<Sample>, k: nat, base: real, delta: real) {
    forall i :: 0 <= i < |samples| ==> samples[i].r == if i < k then base else base + delta
  }

  ghost predicate StepsOnLine(samples: seq<Sample>, k: nat, m: real, base: real, delta: real) {
    forall i :: 0 <= i < |samples| ==>
      samples[i].r == m * samples[i].t + (if i < k then base else base + delta)
  }

  lemma PairwiseCounts(samples: seq<Sample>, k: nat)
    requires samples != [] && RisesAfter(samples[0], samples[1..], k)
    ensures Below(Pairwise(samples), 0.0) == Below(Pairwise(samples[1..]), 0.0)
    ensures Above(Pairwise(samples), 0.0)
         == |samples| - 1 - Min(k, |samples| - 1) + Above(Pairwise(samples[1..]), 0.0)
  {
    SlopesFromRise(samples[0], samples[1..], k);
    CountsOfConcat(SlopesFrom(samples[0], samples[1..]), Pairwise(samples[1..]), 0.0);
  }

  lemma StepRises(samples: seq<Sample>, k: nat, base: real, delta: real)
    requires samples != [] && Increasing(samples) && StepsAt(samples, k, base, delta) && delta > 0.0
    ensures StepsAt(samples[1..], if k == 0 then 0 else k - 1, base, delta)
    ensures RisesAfter(samples[0], samples[1..], if k == 0 then |samples| - 1 else k - 1)
  {
  }

  lemma StepPairs(n: int, k: int)
    ensures (n - k) + (k - 1) * (n - k) == k * (n - k)
  {
  }

  lemma {:induction false} StepCounts(samples: seq<Sample>, k: nat, base: real, delta: real)
    requires Increasing(samples) && k <= |samples|
    requires StepsAt(samples, k, base, delta) && delta > 0.0
    ensures Below(Pairwise(samples), 0.0) == 0
    ensures Above(Pairwise(samples), 0.0) == k * (|samples| - k)
  {
    if samples != [] {
      FirstIsEarliest(samples);
      StepRises(samples, k, base, delta);
      PairwiseCounts(samples, if k == 0 then |samples| - 1 else k - 1);
      StepCounts(samples[1..], if k == 0 then 0 else k - 1, base, delta);
      StepPairs(|samples|, k);
    }
  }

  lemma StepUp(samples: seq<Sample>, k: nat, base: real, delta: real)
    requires Increasing(samples) && 0 < k < |samples|
    requires StepsAt(samples, k, base, delta) && delta > 0.0
    ensures var n := |samples|;
            if 4 * (k * (n - k)) < n * (n - 1) then Slope(samples) == 0.0 else Slope(samples) > 0.0
  {
    PairCount(samples);
    StepCounts(samples, k, base, delta);
    assert |samples| * (|samples| - 1) > 0;
    MedianByRank(Pairwise(samples), 0.0);
  }

  lemma {:induction false} AffineAt(samples: seq<Sample>, c: real, d: real, e: real, i: nat)
    requires i < |samples|
    ensures Affine(samples, c, d, e)[i] == Move(samples[i], c, d, e)
  {
    if i < |samples| - 1 {
      AffineAt(samples[..|samples| - 1], c, d, e, i);
    }
  }

  lemma AffineKeepsTimes(samples: seq<Sample>, c: real, d: real, e: real)
    requires Increasing(samples)
    ensures Increasing(Affine(samples, c, d, e))
  {
    forall i, j | 0 <= i < j < |samples|
      ensures Affine(samples, c, d, e)[i].t < Affine(samples, c, d, e)[j].t
    {
      AffineAt(samples, c, d, e, i);
      AffineAt(samples, c, d, e, j);
    }
  }

  lemma StepDown(samples: seq<Sample>, k: nat, base: real, delta: real)
    requires Increasing(samples) && 0 < k < |samples|
    requires StepsAt(samples, k, base, delta) && delta < 0.0
    ensures var n := |samples|;
            if 4 * (k * (n - k)) < n * (n - 1) then Slope(samples) == 0.0 else Slope(samples) < 0.0
  {
    var mirrored := Affine(samples, -1.0, 0.0, 0.0);
    AffineKeepsTimes(samples, -1.0, 0.0, 0.0);
    forall i | 0 <= i < |mirrored|
      ensures mirrored[i].r == if i < k then -base else -base + -delta
    {
      AffineAt(samples, -1.0, 0.0, 0.0, i);
    }
    StepUp(mirrored, k, -base, -delta);
    SlopeIsEquivariant(samples, -1.0, 0.0, 0.0);
    assert Slope(mirrored) == -Slope(samples);
  }

  // A series that is flat but for one step after its first `k` samples has slope
  // zero exactly when 4k(n-k) < n(n-1); otherwise the step reads as a slope of its
  // own sign. A single step is not ignored wherever it falls.
  lemma StepShowsAtTheBoundary(samples: seq<Sample>, k: nat, base: real, delta: real)
    requires Increasing(samples) && 0 < k < |samples|
    requires StepsAt(samples, k, base, delta) && delta != 0.0
    ensures var n := |samples|; Slope(samples) == 0.0 <==> 4 * (k * (n - k)) < n * (n - 1)
    ensures Slope(samples) == 0.0 || (Slope(samples) > 0.0 <==> delta > 0.0)
  {
    if delta > 0.0 {
      StepUp(samples, k, base, delta);
    } else {
      StepDown(samples, k, base, delta);
    }
  }

  // The series less a line of slope `m`.
  lemma StepOnLineLevelled(samples: seq<Sample>, k: nat, m: real, base: real, delta: real)
    requires StepsOnLine(samples, k, m, base, delta)
    ensures StepsAt(Affine(samples, 1.0, -m, 0.0), k, base, delta)
  {
    var level := Affine(samples, 1.0, -m, 0.0);
    forall i | 0 <= i < |level|
      ensures level[i].r == if i < k then base else base + delta
    {
      AffineAt(samples, 1.0, -m, 0.0, i);
    }
  }

  // A steady leak with one step on top is reported exactly up to the same boundary,
  // and too high or too low, as the step goes, past it.
  lemma StepOnLineShowsAtTheBoundary(samples: seq<Sample>, k: nat, m: real, base: real, delta: real)
    requires Increasing(samples) && 0 < k < |samples|
    requires StepsOnLine(samples, k, m, base, delta) && delta != 0.0
    ensures var n := |samples|; Slope(samples) == m <==> 4 * (k * (n - k)) < n * (n - 1)
    ensures Slope(samples) == m || (Slope(samples) > m <==> delta > 0.0)
  {
    StepOnLineLevelled(samples, k, m, base, delta);
    AffineKeepsTimes(samples, 1.0, -m, 0.0);
    SlopeOfRaised(samples, -m, 0.0);
    StepShowsAtTheBoundary(Affine(samples, 1.0, -m, 0.0), k, base, delta);
  }

  lemma PairsExist(samples: seq<Sample>)
    requires Increasing(samples) && |samples| >= 2
    ensures Pairwise(samples) != []
  {
    PairCount(samples);
    assert |samples| * (|samples| - 1) > 0;
  }

  lemma ScaleByOne(x: real, d: real)
    ensures Scale(x, 1.0, d) == x + d
  {
  }

  // Adding a line adds its slope.
  lemma SlopeOfRaised(samples: seq<Sample>, m: real, b: real)
    requires Increasing(samples) && |samples| >= 2
    ensures Slope(Affine(samples, 1.0, m, b)) == Slope(samples) + m
  {
    PairsExist(samples);
    SlopeIsEquivariant(samples, 1.0, m, b);
    ScaleByOne(Slope(samples), m);
  }

  // A series that leaks nothing and steps once, half way, is reported as a leak.
  lemma StepHalfWayReadsAsALeak()
    ensures Slope([Sample(0.0, 5.0), Sample(1.0, 5.0), Sample(2.0, 6.0), Sample(3.0, 6.0)]) > 0.0
  {
    StepUp([Sample(0.0, 5.0), Sample(1.0, 5.0), Sample(2.0, 6.0), Sample(3.0, 6.0)], 2, 5.0, 1.0);
  }

  // ---------------------------------------------------------------------------
  // A line through some of the samples
  // ---------------------------------------------------------------------------

  // The first `g` samples are level and every later one is higher than all before.
  ghost predicate IsHinge(samples: seq<Sample>, g: nat) {
    && Increasing(samples)
    && forall i, j :: 0 <= i < j < |samples| ==>
         if j < g then samples[j].r == samples[i].r else samples[j].r > samples[i].r
  }

  lemma HingeRisesFromFirst(samples: seq<Sample>, g: nat)
    requires samples != [] && IsHinge(samples, g)
    ensures IsHinge(samples[1..], if g == 0 then 0 else g - 1)
    ensures RisesAfter(samples[0], samples[1..], if g == 0 then 0 else g - 1)
  {
  }

  lemma {:induction false} HingeCounts(samples: seq<Sample>, g: nat)
    requires IsHinge(samples, g) && g <= |samples|
    ensures Below(Pairwise(samples), 0.0) == 0
    ensures 2 * Above(Pairwise(samples), 0.0) + g * (g - 1) == |samples| * (|samples| - 1)
  {
    if samples != [] {
      HingeRisesFromFirst(samples, g);
      PairwiseCounts(samples, if g == 0 then 0 else g - 1);
      HingeCounts(samples[1..], if g == 0 then 0 else g - 1);
      ChooseTwo(|samples|);
      ChooseTwo(g);
    }
  }

  function HingePoint(i: nat, g: nat): Sample {
    Sample(i as real, if i < g then 0.0 else (i - g + 1) as real)
  }

  function Hinge(n: nat, g: nat): (samples: seq<Sample>)
    ensures |samples| == n
    ensures forall i :: 0 <= i < n ==> samples[i] == HingePoint(i, g)
  {
    if n == 0 then [] else Hinge(n - 1, g) + [HingePoint(n - 1, g)]
  }

  lemma HingePointOnLine(i: nat, g: nat)
    ensures IsOn(HingePoint(i, g), 0.0, 0.0) <==> i < g
  {
  }

  lemma {:induction false} PrefixOnLine(samples: seq<Sample>, g: nat, m: real, b: real)
    requires forall i :: 0 <= i < |samples| ==> (IsOn(samples[i], m, b) <==> i < g)
    ensures OnLine(samples, m, b) == Min(|samples|, g)
  {
    if samples != [] {
      PrefixOnLine(samples[..|samples| - 1], g, m, b);
    }
  }

  lemma HingeOnLine(n: nat, g: nat)
    ensures OnLine(Hinge(n, g), 0.0, 0.0) == Min(n, g)
  {
    forall i | 0 <= i < n
      ensures IsOn(Hinge(n, g)[i], 0.0, 0.0) <==> i < g
    {
      HingePointOnLine(i, g);
    }
    PrefixOnLine(Hinge(n, g), g, 0.0, 0.0);
  }

  lemma MovedOntoLine(s: Sample, m: real, b: real)
    ensures IsOn(Move(s, 1.0, m, b), m, b) <==> IsOn(s, 0.0, 0.0)
  {
  }

  lemma {:induction false} OnLineOfAffine(samples: seq<Sample>, m: real, b: real)
    ensures OnLine(Affine(samples, 1.0, m, b), m, b) == OnLine(samples, 0.0, 0.0)
  {
    if samples != [] {
      var init, last := samples[..|samples| - 1], samples[|samples| - 1];
      OnLineOfAffine(init, m, b);
      MovedOntoLine(last, m, b);
      assert Affine(samples, 1.0, m, b)[..|samples| - 1] == Affine(init, 1.0, m, b);
    }
  }

  lemma HingeRises(n: nat, g: nat)
    requires g <= n && n >= 2
    requires 2 * (g * (g - 1)) <= n * (n - 1)
    ensures IsHinge(Hinge(n, g), g) && Slope(Hinge(n, g)) > 0.0
  {
    var samples := Hinge(n, g);
    HingeCounts(samples, g);
    PairCount(samples);
    assert n * (n - 1) > 0;
    MedianByRank(Pairwise(samples), 0.0);
  }

  lemma RaisedHingeDefeatsLine(n: nat, g: nat, m: real, b: real)
    requires 2 <= n && g <= n && 2 * (g * (g - 1)) <= n * (n - 1)
    ensures var samples := Affine(Hinge(n, g), 1.0, m, b);
            |samples| == n && Increasing(samples) && OnLine(samples, m, b) >= g && Slope(samples) > m
  {
    var hinge := Hinge(n, g);
    HingeRises(n, g);
    HingeOnLine(n, g);
    OnLineOfAffine(hinge, m, b);
    AffineKeepsTimes(hinge, 1.0, m, b);
    SlopeOfRaised(hinge, m, b);
  }

  // A line through `g` of `n` samples is reported exactly whatever the others do
  // if and only if 2g(g-1) > n(n-1): below that, some series defeats it.
  lemma BreakdownIsSharp(n: nat, g: nat, m: real, b: real)
    requires 2 <= n && g <= n
    ensures (forall samples ::
               |samples| == n && Increasing(samples) && OnLine(samples, m, b) >= g ==> Slope(samples) == m)
        <==> 2 * (g * (g - 1)) > n * (n - 1)
  {
    if 2 * (g * (g - 1)) > n * (n - 1) {
      forall samples | |samples| == n && Increasing(samples) && OnLine(samples, m, b) >= g
        ensures Slope(samples) == m
      {
        MajorityLineIsReported(samples, m, b, g);
      }
    } else {
      RaisedHingeDefeatsLine(n, g, m, b);
    }
  }
}
