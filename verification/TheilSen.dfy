/**
 The slope of a memory series: the median of the slopes between every pair of
 samples. Values are exact reals, so rounding is not part of the model.
 */
module TheilSen {
  import opened RealSort

  // Seconds and bytes.
  datatype Sample = Sample(t: real, r: real)

  // The slopes from `first` to every later sample with a later time.
  function SlopesFrom(first: Sample, rest: seq<Sample>): seq<real> {
    if rest == [] then []
    else
      var last := rest[|rest| - 1];
      var earlier := SlopesFrom(first, rest[..|rest| - 1]);
      if last.t > first.t then earlier + [(last.r - first.r) / (last.t - first.t)] else earlier
  }

  function Pairwise(samples: seq<Sample>): seq<real> {
    if samples == [] then []
    else SlopesFrom(samples[0], samples[1..]) + Pairwise(samples[1..])
  }

  function Middle(sorted: seq<real>): real
    requires sorted != []
  {
    var mid := |sorted| / 2;
    if |sorted| % 2 == 1 then sorted[mid] else (sorted[mid - 1] + sorted[mid]) / 2.0
  }

  function Slope(samples: seq<Sample>): real {
    var slopes := Pairwise(samples);
    if slopes == [] then 0.0 else Middle(Sorted(slopes))
  }

  method MeasureSlope(samples: seq<Sample>) returns (slope: real)
    ensures slope == Slope(samples)
  {
    var slopes := Pairwise(samples);
    if slopes == [] {
      return 0.0;
    }
    var pairwise := SortedCopy(slopes);
    ghost var sorted := pairwise[..];
    var mid := pairwise.Length / 2;
    assert pairwise[mid] == sorted[mid];
    if pairwise.Length % 2 == 1 {
      slope := pairwise[mid];
    } else {
      slope := (pairwise[mid - 1] + pairwise[mid]) / 2.0;
    }
  }

  // ---------------------------------------------------------------------------
  // The middle of the sorted order
  // ---------------------------------------------------------------------------

  // The two positions the middle is the mean of; one and the same for an odd count.
  lemma MiddleIsMean(s: seq<real>)
    requires s != []
    ensures Middle(s) == (s[(|s| - 1) / 2] + s[|s| / 2]) / 2.0
  {
  }

  lemma SortedRank(s: seq<real>, v: real, i: nat)
    requires i < |s|
    ensures Sorted(s)[i] < v <==> i < Below(s, v)
    ensures Sorted(s)[i] > v <==> i >= |s| - Above(s, v)
  {
    SortedIsSorted(s);
    CountsOfSorted(s, v);
    RankInSorted(Sorted(s), v, i);
  }

  // A value with fewer than half of all slopes on either side is the median; one
  // with at least half above it, and fewer than half below, lies below the median.
  lemma MedianByRank(s: seq<real>, v: real)
    requires s != [] && 2 * Below(s, v) < |s|
    ensures 2 * Above(s, v) < |s| ==> Middle(Sorted(s)) == v
    ensures 2 * Above(s, v) >= |s| ==> Middle(Sorted(s)) > v
  {
    MiddleIsMean(Sorted(s));
    SortedRank(s, v, (|s| - 1) / 2);
    SortedRank(s, v, |s| / 2);
  }

  lemma MedianHalves(s: seq<real>)
    requires s != []
    ensures var m := Middle(Sorted(s));
            && 2 * Below(s, m) <= |s| && 2 * Above(s, m) <= |s|
            && Sorted(s)[(|s| - 1) / 2] <= m <= Sorted(s)[|s| / 2]
  {
    var m, i, j := Middle(Sorted(s)), (|s| - 1) / 2, |s| / 2;
    MiddleIsMean(Sorted(s));
    SortedIsSorted(s);
    SortedRank(s, m, i);
    SortedRank(s, m, j);
  }

  lemma SortedFrom(s: seq<real>, i: nat)
    requires i < |s|
    ensures Sorted(s)[i] in s
  {
    SortedIsPermutation(s);
    assert Sorted(s)[i] in multiset(Sorted(s));
  }

  // The slope lies between two of the pairwise slopes, with at most half of them
  // below it and at most half above.
  lemma SlopeIsAMedian(samples: seq<Sample>)
    requires Pairwise(samples) != []
    ensures var slopes, slope := Pairwise(samples), Slope(samples);
            && 2 * Below(slopes, slope) <= |slopes|
            && 2 * Above(slopes, slope) <= |slopes|
            && exists lo, hi :: lo in slopes && hi in slopes && lo <= slope <= hi
  {
    var slopes := Pairwise(samples);
    MedianHalves(slopes);
    SortedFrom(slopes, (|slopes| - 1) / 2);
    SortedFrom(slopes, |slopes| / 2);
  }

  // ---------------------------------------------------------------------------
  // Pairs
  // ---------------------------------------------------------------------------

  ghost predicate Increasing(samples: seq<Sample>) {
    forall i, j :: 0 <= i < j < |samples| ==> samples[i].t < samples[j].t
  }

  lemma {:induction false} SlopesFromCount(first: Sample, rest: seq<Sample>)
    requires forall s :: s in rest ==> first.t < s.t
    ensures |SlopesFrom(first, rest)| == |rest|
  {
    if rest != [] {
      SlopesFromCount(first, rest[..|rest| - 1]);
    }
  }

  lemma FirstIsEarliest(samples: seq<Sample>)
    requires samples != [] && Increasing(samples)
    ensures Increasing(samples[1..])
    ensures forall s :: s in samples[1..] ==> samples[0].t < s.t
  {
  }

  ghost predicate IsSlopeOf(slope: real, a: Sample, b: Sample) {
    a.t < b.t && slope == (b.r - a.r) / (b.t - a.t)
  }

  lemma {:induction false} SlopesFromEach(first: Sample, rest: seq<Sample>, slope: real)
    ensures slope in SlopesFrom(first, rest) <==> exists j :: 0 <= j < |rest| && IsSlopeOf(slope, first, rest[j])
  {
    if rest != [] {
      var init, last := rest[..|rest| - 1], rest[|rest| - 1];
      SlopesFromEach(first, init, slope);
      if slope in SlopesFrom(first, init) {
        var j :| 0 <= j < |init| && IsSlopeOf(slope, first, init[j]);
        assert IsSlopeOf(slope, first, rest[j]);
      } else if slope in SlopesFrom(first, rest) {
        assert IsSlopeOf(slope, first, last);
      }
      forall j | 0 <= j < |rest| && IsSlopeOf(slope, first, rest[j])
        ensures slope in SlopesFrom(first, rest)
      {
        assert j < |init| ==> IsSlopeOf(slope, first, init[j]);
      }
    }
  }

  ghost predicate IsPairSlope(slope: real, samples: seq<Sample>) {
    exists i, j :: 0 <= i < j < |samples| && IsSlopeOf(slope, samples[i], samples[j])
  }

  lemma PairsSplitFirst(slope: real, samples: seq<Sample>)
    requires samples != []
    ensures IsPairSlope(slope, samples) <==>
              || (exists j :: 0 <= j < |samples| - 1 && IsSlopeOf(slope, samples[0], samples[1..][j]))
              || IsPairSlope(slope, samples[1..])
  {
    if IsPairSlope(slope, samples) {
      var i, j :| 0 <= i < j < |samples| && IsSlopeOf(slope, samples[i], samples[j]);
      if i == 0 {
        assert IsSlopeOf(slope, samples[0], samples[1..][j - 1]);
      } else {
        assert IsSlopeOf(slope, samples[1..][i - 1], samples[1..][j - 1]);
      }
    }
    if j :| 0 <= j < |samples| - 1 && IsSlopeOf(slope, samples[0], samples[1..][j]) {
      assert IsSlopeOf(slope, samples[0], samples[j + 1]);
    }
    if IsPairSlope(slope, samples[1..]) {
      var i, j :| 0 <= i < j < |samples[1..]| && IsSlopeOf(slope, samples[1..][i], samples[1..][j]);
      assert IsSlopeOf(slope, samples[i + 1], samples[j + 1]);
    }
  }

  // The slopes are those between an earlier sample and a later one at a later time,
  // whatever the times: a pair that does not advance is left out.
  lemma {:induction false} PairwiseIsEveryPair(samples: seq<Sample>, slope: real)
    ensures slope in Pairwise(samples) <==> IsPairSlope(slope, samples)
  {
    if samples != [] {
      PairwiseIsEveryPair(samples[1..], slope);
      SlopesFromEach(samples[0], samples[1..], slope);
      PairsSplitFirst(slope, samples);
    }
  }

  lemma ChooseTwo(n: int)
    ensures n * (n - 1) == 2 * (n - 1) + (n - 1) * (n - 2)
  {
  }

  // Every pair of samples counts.
  lemma {:induction false} PairCount(samples: seq<Sample>)
    requires Increasing(samples)
    ensures 2 * |Pairwise(samples)| == |samples| * (|samples| - 1)
  {
    if samples != [] {
      FirstIsEarliest(samples);
      SlopesFromCount(samples[0], samples[1..]);
      PairCount(samples[1..]);
      ChooseTwo(|samples|);
    }
  }

  // ---------------------------------------------------------------------------
  // Equivariance
  // ---------------------------------------------------------------------------

  function Scale(x: real, c: real, d: real): real {
    c * x + d
  }

  function Move(s: Sample, c: real, d: real, e: real): (r: Sample)
    ensures r.t == s.t
  {
    Sample(s.t, c * s.r + d * s.t + e)
  }

  // The series scaled by `c`, on top of a line of slope `d`.
  function Affine(samples: seq<Sample>, c: real, d: real, e: real): (r: seq<Sample>)
    ensures |r| == |samples|
  {
    if samples == [] then []
    else Affine(samples[..|samples| - 1], c, d, e) + [Move(samples[|samples| - 1], c, d, e)]
  }

  function Scaled(s: seq<real>, c: real, d: real): (r: seq<real>)
    ensures |r| == |s|
  {
    if s == [] then [] else Scaled(s[..|s| - 1], c, d) + [Scale(s[|s| - 1], c, d)]
  }

  lemma {:induction false} AffineSplitsFirst(samples: seq<Sample>, c: real, d: real, e: real)
    requires samples != []
    ensures Affine(samples, c, d, e) == [Move(samples[0], c, d, e)] + Affine(samples[1..], c, d, e)
  {
    if |samples| > 1 {
      var init := samples[..|samples| - 1];
      AffineSplitsFirst(init, c, d, e);
      assert init[1..] == samples[1..][..|samples| - 2];
    }
  }

  lemma ScaledOfAppend(s: seq<real>, x: real, c: real, d: real)
    ensures Scaled(s + [x], c, d) == Scaled(s, c, d) + [Scale(x, c, d)]
  {
    assert (s + [x])[..|s|] == s;
  }

  lemma {:induction false} ScaledOfConcat(a: seq<real>, b: seq<real>, c: real, d: real)
    ensures Scaled(a + b, c, d) == Scaled(a, c, d) + Scaled(b, c, d)
  {
    if b == [] {
      assert a + b == a;
    } else {
      ScaledOfConcat(a, b[..|b| - 1], c, d);
      assert (a + b)[..|a + b| - 1] == a + b[..|b| - 1];
    }
  }

  lemma SlopeOfMoved(a: Sample, b: Sample, c: real, d: real, e: real)
    requires a.t < b.t
    ensures (Move(b, c, d, e).r - Move(a, c, d, e).r) / (b.t - a.t) == Scale((b.r - a.r) / (b.t - a.t), c, d)
  {
    var dt, dr := b.t - a.t, b.r - a.r;
    var q := dr / dt;
    assert dr == q * dt;
    assert Move(b, c, d, e).r - Move(a, c, d, e).r == c * dr + d * dt;
    assert c * dr + d * dt == (c * q + d) * dt;
    assert ((c * q + d) * dt) / dt == c * q + d;
  }

  lemma {:induction false} SlopesFromAffine(first: Sample, rest: seq<Sample>, c: real, d: real, e: real)
    ensures SlopesFrom(Move(first, c, d, e), Affine(rest, c, d, e)) == Scaled(SlopesFrom(first, rest), c, d)
  {
    if rest != [] {
      var init, last := rest[..|rest| - 1], rest[|rest| - 1];
      SlopesFromAffine(first, init, c, d, e);
      var moved := Affine(rest, c, d, e);
      assert moved[..|rest| - 1] == Affine(init, c, d, e) && moved[|rest| - 1] == Move(last, c, d, e);
      if last.t > first.t {
        SlopeOfMoved(first, last, c, d, e);
        ScaledOfAppend(SlopesFrom(first, init), (last.r - first.r) / (last.t - first.t), c, d);
      }
    }
  }

  lemma {:induction false} PairwiseAffine(samples: seq<Sample>, c: real, d: real, e: real)
    ensures Pairwise(Affine(samples, c, d, e)) == Scaled(Pairwise(samples), c, d)
  {
    if samples != [] {
      PairwiseAffine(samples[1..], c, d, e);
      SlopesFromAffine(samples[0], samples[1..], c, d, e);
      AffineSplitsFirst(samples, c, d, e);
      assert Affine(samples, c, d, e)[1..] == Affine(samples[1..], c, d, e);
      ScaledOfConcat(SlopesFrom(samples[0], samples[1..]), Pairwise(samples[1..]), c, d);
    }
  }

  lemma ScaleOrder(x: real, y: real, c: real, d: real)
    ensures c > 0.0 ==> (Scale(x, c, d) < Scale(y, c, d) <==> x < y)
    ensures c < 0.0 ==> (Scale(x, c, d) < Scale(y, c, d) <==> x > y)
  {
    var gap := y - x;
    assert Scale(y, c, d) - Scale(x, c, d) == c * gap;
    if c > 0.0 {
      assert gap > 0.0 ==> c * gap > 0.0;
      assert gap <= 0.0 ==> c * gap <= 0.0;
    } else if c < 0.0 {
      assert gap > 0.0 ==> c * gap < 0.0;
      assert gap <= 0.0 ==> c * gap >= 0.0;
    }
  }

  lemma {:induction false} CountsOfScaled(s: seq<real>, c: real, d: real, v: real)
    ensures c > 0.0 ==> Below(Scaled(s, c, d), Scale(v, c, d)) == Below(s, v)
    ensures c > 0.0 ==> Above(Scaled(s, c, d), Scale(v, c, d)) == Above(s, v)
    ensures c < 0.0 ==> Below(Scaled(s, c, d), Scale(v, c, d)) == Above(s, v)
    ensures c < 0.0 ==> Above(Scaled(s, c, d), Scale(v, c, d)) == Below(s, v)
  {
    if s != [] {
      var init, last := s[..|s| - 1], s[|s| - 1];
      CountsOfScaled(init, c, d, v);
      CountsOfAppend(Scaled(init, c, d), Scale(last, c, d), Scale(v, c, d));
      ScaleOrder(last, v, c, d);
      ScaleOrder(v, last, c, d);
    }
  }

  lemma Unscale(y: real, c: real, d: real)
    requires c != 0.0
    ensures Scale((y - d) / c, c, d) == y
  {
  }

  // Scaling keeps the sorted order, or reverses it.
  lemma SortedOfScaled(s: seq<real>, c: real, d: real, i: nat, j: nat)
    requires c != 0.0 && i < |s|
    requires j == if c > 0.0 then i else |s| - 1 - i
    ensures Sorted(Scaled(s, c, d))[i] == Scale(Sorted(s)[j], c, d)
  {
    var scaled := Scaled(s, c, d);
    var y := Sorted(scaled)[i];
    var v := (y - d) / c;
    Unscale(y, c, d);
    SortedRank(scaled, y, i);
    CountsOfScaled(s, c, d, v);
    SortedRank(s, v, j);
    assert Sorted(s)[j] == v;
  }

  lemma {:induction false} ScaledByZero(s: seq<real>, d: real)
    ensures Below(Scaled(s, 0.0, d), d) == 0 && Above(Scaled(s, 0.0, d), d) == 0
  {
    if s != [] {
      ScaledByZero(s[..|s| - 1], d);
      CountsOfAppend(Scaled(s[..|s| - 1], 0.0, d), Scale(s[|s| - 1], 0.0, d), d);
    }
  }

  lemma MeanOfScaled(a: real, b: real, c: real, d: real)
    ensures (Scale(a, c, d) + Scale(b, c, d)) / 2.0 == Scale((a + b) / 2.0, c, d)
  {
  }

  lemma MiddleOfReordered(s: seq<real>, t: seq<real>, c: real, d: real)
    requires |s| == |t| > 0
    requires var i, j := (|s| - 1) / 2, |s| / 2;
             || (t[i] == Scale(s[i], c, d) && t[j] == Scale(s[j], c, d))
             || (t[i] == Scale(s[j], c, d) && t[j] == Scale(s[i], c, d))
    ensures Middle(t) == Scale(Middle(s), c, d)
  {
    MiddleIsMean(s);
    MiddleIsMean(t);
    MeanOfScaled(s[(|s| - 1) / 2], s[|s| / 2], c, d);
  }

  lemma MiddleOfScaled(s: seq<real>, c: real, d: real)
    requires s != []
    ensures Middle(Sorted(Scaled(s, c, d))) == Scale(Middle(Sorted(s)), c, d)
  {
    if c == 0.0 {
      ScaledByZero(s, d);
      MedianByRank(Scaled(s, c, d), d);
    } else {
      var i, j := (|s| - 1) / 2, |s| / 2;
      SortedOfScaled(s, c, d, i, if c > 0.0 then i else j);
      SortedOfScaled(s, c, d, j, if c > 0.0 then j else i);
      MiddleOfReordered(Sorted(s), Sorted(Scaled(s, c, d)), c, d);
    }
  }

  // Scaling a series by any factor, a negative one included, and adding a line
  // scales the slope and adds the slope of the line, as long as there is a pair
  // of samples to see it; without one the slope is zero whatever is added.
  lemma SlopeIsEquivariant(samples: seq<Sample>, c: real, d: real, e: real)
    ensures Slope(Affine(samples, c, d, e)) == Scale(Slope(samples), c, d)
        <==> Pairwise(samples) != [] || d == 0.0
  {
    PairwiseAffine(samples, c, d, e);
    if Pairwise(samples) != [] {
      MiddleOfScaled(Pairwise(samples), c, d);
    }
  }

  // ---------------------------------------------------------------------------
  // Breakdown
  // ---------------------------------------------------------------------------

  predicate IsOn(s: Sample, m: real, b: real) {
    s.r == m * s.t + b
  }

  // How many samples lie on the line of slope `m` through `b`.
  function OnLine(samples: seq<Sample>, m: real, b: real): (n: nat)
    ensures n <= |samples|
  {
    if samples == [] then 0
    else OnLine(samples[..|samples| - 1], m, b) + if IsOn(samples[|samples| - 1], m, b) then 1 else 0
  }

  lemma {:induction false} OnLineSplitsFirst(samples: seq<Sample>, m: real, b: real)
    requires samples != []
    ensures OnLine(samples, m, b) == OnLine(samples[1..], m, b) + if IsOn(samples[0], m, b) then 1 else 0
  {
    if |samples| == 1 {
      assert samples[..0] == samples[1..] == [];
    } else {
      OnLineSplitsFirst(samples[..|samples| - 1], m, b);
      assert samples[..|samples| - 1][1..] == samples[1..][..|samples| - 2];
    }
  }

  lemma SlopeOnLine(first: Sample, last: Sample, m: real, b: real)
    requires first.t < last.t && IsOn(first, m, b) && IsOn(last, m, b)
    ensures (last.r - first.r) / (last.t - first.t) == m
  {
    assert last.r - first.r == m * (last.t - first.t);
  }

  lemma {:induction false} OffSlopesFrom(first: Sample, rest: seq<Sample>, m: real, b: real)
    requires IsOn(first, m, b)
    requires forall s :: s in rest ==> first.t < s.t
    ensures Below(SlopesFrom(first, rest), m) + Above(SlopesFrom(first, rest), m) <= |rest| - OnLine(rest, m, b)
  {
    if rest != [] {
      var init, last := rest[..|rest| - 1], rest[|rest| - 1];
      OffSlopesFrom(first, init, m, b);
      var slope := (last.r - first.r) / (last.t - first.t);
      CountsOfAppend(SlopesFrom(first, init), slope, m);
      if IsOn(last, m, b) {
        SlopeOnLine(first, last, m, b);
      }
    }
  }

  lemma {:induction false} BelowAndAbove(s: seq<real>, v: real)
    ensures Below(s, v) + Above(s, v) <= |s|
  {
    if s != [] {
      BelowAndAbove(s[..|s| - 1], v);
    }
  }

  // The slopes from one sample that differ from `m`.
  lemma OffSlopesFromFirst(samples: seq<Sample>, m: real, b: real)
    requires samples != [] && Increasing(samples)
    ensures var slopes := SlopesFrom(samples[0], samples[1..]);
            Below(slopes, m) + Above(slopes, m)
            <= |samples| - 1 - if IsOn(samples[0], m, b) then OnLine(samples[1..], m, b) else 0
  {
    FirstIsEarliest(samples);
    if IsOn(samples[0], m, b) {
      OffSlopesFrom(samples[0], samples[1..], m, b);
    } else {
      BelowAndAbove(SlopesFrom(samples[0], samples[1..]), m);
      SlopesFromCount(samples[0], samples[1..]);
    }
  }

  // Of all pairs, at least those between two samples on the line have its slope.
  lemma {:induction false} OffSlopes(samples: seq<Sample>, m: real, b: real)
    requires Increasing(samples)
    ensures var n, g := |samples|, OnLine(samples, m, b);
            2 * (Below(Pairwise(samples), m) + Above(Pairwise(samples), m)) + g * (g - 1) <= n * (n - 1)
  {
    if samples != [] {
      OffSlopesFromFirst(samples, m, b);
      OffSlopes(samples[1..], m, b);
      OnLineSplitsFirst(samples, m, b);
      CountsOfConcat(SlopesFrom(samples[0], samples[1..]), Pairwise(samples[1..]), m);
      ChooseTwo(|samples|);
      ChooseTwo(OnLine(samples, m, b));
    }
  }

  lemma ProductGrows(a: int, b: int, c: int)
    requires a <= b && c >= 0
    ensures a * c <= b * c
  {
    assert b * c - a * c == (b - a) * c;
  }

  lemma PairsGrow(g: nat, on: nat)
    requires g <= on
    ensures g * (g - 1) <= on * (on - 1)
  {
    if g > 0 {
      ProductGrows(g, on, g - 1);
      ProductGrows(g - 1, on - 1, on);
    }
  }

  // A line through enough of the samples is reported exactly, whatever the rest
  // of the series does: at `g` of `n` samples with 2g(g-1) > n(n-1).
  lemma MajorityLineIsReported(samples: seq<Sample>, m: real, b: real, g: nat)
    requires Increasing(samples) && OnLine(samples, m, b) >= g
    requires 2 * (g * (g - 1)) > |samples| * (|samples| - 1)
    ensures Slope(samples) == m
  {
    PairsGrow(g, OnLine(samples, m, b));
    PairCount(samples);
    OffSlopes(samples, m, b);
    MedianByRank(Pairwise(samples), m);
  }

  // A leak that grows steadily is reported in full.
  lemma SteadyLeakIsReported(samples: seq<Sample>, m: real, b: real)
    requires |samples| >= 2 && Increasing(samples)
    requires forall s :: s in samples ==> IsOn(s, m, b)
    ensures Slope(samples) == m
  {
    AllOnLine(samples, m, b);
    var n := |samples|;
    assert n * (n - 1) > 0;
    MajorityLineIsReported(samples, m, b, n);
  }

  lemma {:induction false} AllOnLine(samples: seq<Sample>, m: real, b: real)
    requires forall s :: s in samples ==> IsOn(s, m, b)
    ensures OnLine(samples, m, b) == |samples|
  {
    if samples != [] {
      AllOnLine(samples[..|samples| - 1], m, b);
    }
  }
}
