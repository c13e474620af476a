/**
 * Trace processing (abby/processing.py): cropping the NOP padding out of a
 * power trace, the falling-edge rule that turns a filtered clock into cycle
 * indexes, and the choice of the clock peak among spectrum bins.
 *
 * The Fourier transform and the Butterworth filter are floating-point steps;
 * their outputs (the spectrum bins, the filtered clock) are inputs here.
 */
module Processing {
  import opened Common

  /** Length of the quiet window searched for; fixed, whatever `samples_per_cycle` is. */
  const Window: nat := 450

  /** Python's `ValueError` from `max()`/`min()` of an empty selection. */
  datatype CropError = CropBoundaryNotFound

  function Abs(x: real): real { if x < 0.0 then -x else x }

  /** A sample is quiet when `np.abs(sample) > threshold` is false. */
  predicate Quiet(x: real, threshold: real)
  {
    Abs(x) <= threshold
  }

  function MinNat(a: nat, b: nat): nat { if a <= b then a else b }

  /** `np.all(above_ts[x : x + 450] == 0)`: the (possibly truncated) window from x is quiet. */
  predicate IsRunStart(trace: seq<real>, threshold: real, x: nat)
    requires x < |trace|
  {
    forall k :: x <= k < MinNat(x + Window, |trace|) ==> Quiet(trace[k], threshold)
  }

  predicate StrictlyIncreasing(s: seq<nat>)
  {
    forall i, j :: 0 <= i < j < |s| ==> s[i] < s[j]
  }

  /** The run starts among indexes 0..n-1, in increasing order. */
  function RunStartsBelow(trace: seq<real>, threshold: real, n: nat): (r: seq<nat>)
    requires n <= |trace|
    ensures StrictlyIncreasing(r)
    ensures forall x: nat :: x in r <==> x < n && IsRunStart(trace, threshold, x)
  {
    if n == 0 then []
    else
      var r := RunStartsBelow(trace, threshold, n - 1);
      assert forall i :: 0 <= i < |r| ==> r[i] in r;
      if IsRunStart(trace, threshold, n - 1) then r + [n - 1] else r
  }

  /** `index_ts`: every index of the trace that starts a quiet window. */
  function RunStarts(trace: seq<real>, threshold: real): seq<nat>
  {
    RunStartsBelow(trace, threshold, |trace|)
  }

  function Reals(s: seq<nat>): (r: seq<real>)
    ensures |r| == |s|
    ensures forall i :: 0 <= i < |s| ==> r[i] == s[i] as real
  {
    if s == [] then [] else Reals(s[..|s| - 1]) + [s[|s| - 1] as real]
  }

  /** `index_ts[index_ts < p]`. */
  function Below(s: seq<nat>, p: real): (r: seq<nat>)
    ensures forall x {:trigger x in r} :: x in r <==> x in s && (x as real) < p
  {
    if s == [] then [] else Below(s[..|s| - 1], p) + (if (s[|s| - 1] as real) < p then [s[|s| - 1]] else [])
  }

  /** `index_ts[index_ts > p]`. */
  function Above(s: seq<nat>, p: real): (r: seq<nat>)
    ensures forall x {:trigger x in r} :: x in r <==> x in s && (x as real) > p
  {
    if s == [] then [] else Above(s[..|s| - 1], p) + (if (s[|s| - 1] as real) > p then [s[|s| - 1]] else [])
  }

  function SeqMax(s: seq<nat>): (m: nat)
    requires |s| > 0
    ensures m in s && forall x :: x in s ==> x <= m
  {
    if |s| == 1 then s[0]
    else
      var m := SeqMax(s[..|s| - 1]);
      assert forall x :: x in s ==> x in s[..|s| - 1] || x == s[|s| - 1];
      if s[|s| - 1] > m then s[|s| - 1] else m
  }

  function SeqMin(s: seq<nat>): (m: nat)
    requires |s| > 0
    ensures m in s && forall x :: x in s ==> m <= x
  {
    if |s| == 1 then s[0]
    else
      var m := SeqMin(s[..|s| - 1]);
      assert forall x :: x in s ==> x in s[..|s| - 1] || x == s[|s| - 1];
      if s[|s| - 1] < m then s[|s| - 1] else m
  }

  /** NumPy slice `trace[lo:hi]` for `0 <= lo, hi`: clamped to the length, empty when lo >= hi. */
  function Slice(trace: seq<real>, lo: nat, hi: nat): (r: seq<real>)
  {
    var h := MinNat(hi, |trace|);
    if lo < h then trace[lo..h] else []
  }

  /**
   * The splitting step of `crop_cycles` on the run starts: they are split at
   * their mean p; the crop begins 450 samples after the last start below p and
   * ends at the first start above p. A start equal to p is on neither side;
   * an empty side raises.
   */
  function CropAt(trace: seq<real>, starts: seq<nat>): (r: Result<seq<real>, CropError>)
    ensures r.Ok? <==> (|starts| > 0 &&
      (exists x :: x in starts && (x as real) < Mean(Reals(starts))) &&
      (exists y :: y in starts && (y as real) > Mean(Reals(starts))))
  {
    if |starts| == 0 then Err(CropBoundaryNotFound)
    else
      var p := Mean(Reals(starts));
      var before := Below(starts, p);
      var after := Above(starts, p);
      if |before| == 0 || |after| == 0 then
        assert forall x :: x in starts && (x as real) < p ==> x in before;
        assert forall y :: y in starts && (y as real) > p ==> y in after;
        Err(CropBoundaryNotFound)
      else
        assert before[0] in before && after[0] in after;
        Ok(Slice(trace, SeqMax(before) + Window, SeqMin(after)))
  }

  /**
   * `crop_cycles(trace, threshold, samples_per_cycle)`: the part of the trace
   * between the quiet windows that lie on either side of the mean window
   * start. The last argument is unused, as in the source, so the window
   * stays 450 samples whatever it is. The split points are unique
   * (SplitPointsUnique).
   */
  function CropCycles(trace: seq<real>, threshold: real, samplesPerCycle: int): (r: Result<seq<real>, CropError>)
    ensures r.Ok? <==> exists x: nat, y: nat :: SplitPoints(RunStarts(trace, threshold), x, y)
    ensures r.Ok? ==> exists x: nat, y: nat :: SplitPoints(RunStarts(trace, threshold), x, y) && r.value == Slice(trace, x + Window, y)
  {
    var starts := RunStarts(trace, threshold);
    CropAtSplit(trace, starts);
    CropAt(trace, starts)
  }

  /** The split succeeds exactly when there are split points, and then cuts the trace at them. */
  lemma CropAtSplit(trace: seq<real>, starts: seq<nat>)
    ensures CropAt(trace, starts).Ok? <==> exists x: nat, y: nat :: SplitPoints(starts, x, y)
    ensures CropAt(trace, starts).Ok? ==>
      exists x: nat, y: nat :: SplitPoints(starts, x, y) && CropAt(trace, starts).value == Slice(trace, x + Window, y)
  {
    forall x: nat, y: nat | SplitPoints(starts, x, y)
      ensures CropAt(trace, starts).Ok?
    {
      SplitPointsOk(trace, starts, x, y);
    }
    if CropAt(trace, starts).Ok? {
      var x0, y0 := CropBounds(trace, starts);
    }
  }

  /** A start on each side of the mean lets the split succeed. */
  lemma SplitPointsOk(trace: seq<real>, starts: seq<nat>, x: nat, y: nat)
    requires SplitPoints(starts, x, y)
    ensures CropAt(trace, starts).Ok?
  {
    var p := Mean(Reals(starts));
    assert x in starts && (x as real) < p;
    assert y in starts && (y as real) > p;
  }

  /** There is only one pair of split points. */
  lemma SplitPointsUnique(starts: seq<nat>, x: nat, y: nat, x0: nat, y0: nat)
    requires SplitPoints(starts, x, y) && SplitPoints(starts, x0, y0)
    ensures x == x0 && y == y0
  {
    var p := Mean(Reals(starts));
    assert x0 in starts && (x0 as real) < p && y0 in starts && (y0 as real) > p;
    assert x in starts && (x as real) < p && y in starts && (y as real) > p;
  }

  /**
   * x is the greatest run start below the mean of all run starts, and y the
   * least one above it.
   */
  predicate SplitPoints(starts: seq<nat>, x: nat, y: nat)
  {
    |starts| > 0 && x in starts && y in starts &&
    (x as real) < Mean(Reals(starts)) < (y as real) &&
    (forall z :: z in starts && (z as real) < Mean(Reals(starts)) ==> z <= x) &&
    (forall z :: z in starts && (z as real) > Mean(Reals(starts)) ==> y <= z)
  }

  /**
   * Where a successful crop starts and ends: 450 samples after the greatest
   * run start below the mean p of all run starts, and at the least run start
   * above p.
   */
  lemma CropBounds(trace: seq<real>, starts: seq<nat>) returns (x: nat, y: nat)
    requires CropAt(trace, starts).Ok?
    ensures SplitPoints(starts, x, y)
    ensures CropAt(trace, starts).value == Slice(trace, x + Window, y)
  {
    var p := Mean(Reals(starts));
    var before := Below(starts, p);
    var after := Above(starts, p);
    x := SeqMax(before);
    y := SeqMin(after);
    assert forall z :: z in starts && (z as real) < p ==> z in before;
    assert forall z :: z in starts && (z as real) > p ==> z in after;
  }

  /** A successful crop is a contiguous part of the input. */
  lemma CropIsSlice(trace: seq<real>, threshold: real, spc: int)
    requires CropCycles(trace, threshold, spc).Ok?
    ensures exists lo, hi :: 0 <= lo <= hi <= |trace| && CropCycles(trace, threshold, spc).value == trace[lo..hi]
  {
    var x, y := CropBounds(trace, RunStarts(trace, threshold));
    var h := MinNat(y, |trace|);
    if x + Window < h {
      assert CropCycles(trace, threshold, spc).value == trace[x + Window..h];
    } else {
      assert CropCycles(trace, threshold, spc).value == trace[0..0];
    }
  }

  /** A trace without a single quiet sample has no run start, so cropping it raises. */
  lemma CropLoudTraceFails(trace: seq<real>, threshold: real, spc: int)
    requires forall k :: 0 <= k < |trace| ==> !Quiet(trace[k], threshold)
    ensures CropCycles(trace, threshold, spc) == Err(CropBoundaryNotFound)
  {
    var starts := RunStarts(trace, threshold);
    forall x: nat | x < |trace| ensures !IsRunStart(trace, threshold, x) {
      assert x <= x < MinNat(x + Window, |trace|);
      assert !Quiet(trace[x], threshold);
    }
    IncreasingUnique(starts, []);
  }

  // ---------------------------------------------------------------------
  // The padding theorem: a loud section between two equally long quiet
  // paddings of at least 450 samples is cropped out exactly.
  // ---------------------------------------------------------------------

  function Range(lo: nat, n: nat): (r: seq<nat>)
    ensures |r| == n
    ensures forall i :: 0 <= i < n ==> r[i] == lo + i
  {
    if n == 0 then [] else Range(lo, n - 1) + [lo + n - 1]
  }

  /** The last element of an increasing sequence is the greatest. */
  lemma LastIsGreatest(s: seq<nat>)
    requires StrictlyIncreasing(s) && s != []
    ensures forall x :: x in s ==> x <= s[|s| - 1]
  {
    forall x | x in s ensures x <= s[|s| - 1] {
      var i :| 0 <= i < |s| && s[i] == x;
    }
  }

  /** Two increasing sequences with the same elements end with the same element. */
  lemma SameLast(s: seq<nat>, t: seq<nat>)
    requires StrictlyIncreasing(s) && StrictlyIncreasing(t) && s != [] && t != []
    requires forall x :: x in s <==> x in t
    ensures s[|s| - 1] == t[|t| - 1]
  {
    assert s[|s| - 1] in t && t[|t| - 1] in s;
    LastIsGreatest(s);
    LastIsGreatest(t);
  }

  /** Dropping that common last element keeps the elements the same. */
  lemma SameBeforeLast(s: seq<nat>, t: seq<nat>, s': seq<nat>, t': seq<nat>)
    requires StrictlyIncreasing(s) && StrictlyIncreasing(t) && s != [] && t != []
    requires forall x :: x in s <==> x in t
    requires s[|s| - 1] == t[|t| - 1]
    requires s' == s[..|s| - 1] && t' == t[..|t| - 1]
    ensures forall x :: x in s' <==> x in t'
  {
    forall x ensures x in s' <==> x in t' {
      if x in s' {
        var i :| 0 <= i < |s'| && s'[i] == x;
        assert x < s[|s| - 1] && x in t;
        assert t == t' + [t[|t| - 1]];
      }
      if x in t' {
        var i :| 0 <= i < |t'| && t'[i] == x;
        assert x < t[|t| - 1] && x in s;
        assert s == s' + [s[|s| - 1]];
      }
    }
  }

  /** Two increasing sequences with the same elements are equal. */
  lemma {:induction false} IncreasingUnique(s: seq<nat>, t: seq<nat>)
    requires StrictlyIncreasing(s) && StrictlyIncreasing(t)
    requires forall x :: x in s <==> x in t
    ensures s == t
    decreases |s| + |t|
  {
    assert s != [] ==> s[|s| - 1] in t;
    assert t != [] ==> t[|t| - 1] in s;
    if s != [] && t != [] {
      SameLast(s, t);
      var s', t' := s[..|s| - 1], t[..|t| - 1];
      SameBeforeLast(s, t, s', t');
      assert StrictlyIncreasing(s') && StrictlyIncreasing(t');
      IncreasingUnique(s', t');
      assert s == s' + [s[|s| - 1]] && t == t' + [t[|t| - 1]];
    }
  }

  /** Twice the sum lo + (lo + 1) + ... + (lo + n - 1), by recursion. */
  function TwiceRangeSum(lo: nat, n: nat): int
  {
    if n == 0 then 0 else TwiceRangeSum(lo, n - 1) + 2 * (lo + n - 1)
  }

  lemma {:induction false} SumRange(lo: nat, n: nat)
    ensures 2.0 * Sum(Reals(Range(lo, n))) == TwiceRangeSum(lo, n) as real
  {
    if n > 0 {
      SumRange(lo, n - 1);
      var s := Reals(Range(lo, n));
      assert s[..n - 1] == Reals(Range(lo, n - 1));
      assert s[n - 1] == (lo + n - 1) as real;
      assert Sum(s) == Sum(s[..n - 1]) + (lo + n - 1) as real;
    }
  }

  lemma SumConcat(a: seq<nat>, b: seq<nat>)
    ensures Sum(Reals(a + b)) == Sum(Reals(a)) + Sum(Reals(b))
  {
    assert Reals(a + b) == Reals(a) + Reals(b);
    SumAppend(Reals(a), Reals(b));
  }

  /** Which indexes of a padded trace start a quiet window. */
  lemma PaddedRunStart(trace: seq<real>, threshold: real, a: nat, q: nat, m: nat, x: nat)
    requires q >= Window && m > 0
    requires a + 2 * q + m < |trace|
    requires forall k :: 0 <= k < |trace| ==>
      (Quiet(trace[k], threshold) <==> (a <= k < a + q || a + q + m <= k < a + 2 * q + m))
    requires x < |trace|
    ensures IsRunStart(trace, threshold, x) <==>
      (a <= x < a + q - Window + 1 || a + q + m <= x < a + q + m + q - Window + 1)
  {
    var b := a + q + m;
    if a <= x < a + q - Window + 1 || b <= x < b + q - Window + 1 {
    } else if x < a || (a + q <= x < b) || b + q <= x {
      assert !Quiet(trace[x], threshold);
      assert x <= x < MinNat(x + Window, |trace|);
    } else if x < a + q {
      assert !Quiet(trace[a + q], threshold);
      assert x <= a + q < MinNat(x + Window, |trace|);
    } else {
      assert !Quiet(trace[b + q], threshold);
      assert x <= b + q < MinNat(x + Window, |trace|);
    }
  }

  /** The run starts of a padded trace: the first q - 449 indexes of each padding. */
  lemma {:induction false} PaddedStarts(trace: seq<real>, threshold: real, a: nat, q: nat, m: nat)
    requires q >= Window && m > 0
    requires a + 2 * q + m < |trace|
    requires forall k :: 0 <= k < |trace| ==>
      (Quiet(trace[k], threshold) <==> (a <= k < a + q || a + q + m <= k < a + 2 * q + m))
    ensures RunStarts(trace, threshold) == Range(a, q - Window + 1) + Range(a + q + m, q - Window + 1)
  {
    var n := q - Window + 1;
    var starts := RunStarts(trace, threshold);
    var expected := Range(a, n) + Range(a + q + m, n);
    RangeMembers(a, n);
    RangeMembers(a + q + m, n);
    forall x: nat ensures x in starts <==> x in expected {
      if x < |trace| {
        PaddedRunStart(trace, threshold, a, q, m, x);
      }
    }
    assert StrictlyIncreasing(expected);
    IncreasingUnique(starts, expected);
  }

  /** A sequence of 2n values summing to n * k has mean k / 2. */
  lemma HalfMean(s: seq<real>, n: nat, k: nat)
    requires n > 0 && |s| == 2 * n
    requires Sum(s) == (n * k) as real
    ensures Mean(s) == (k as real) / 2.0
  {
    var nr := n as real;
    assert (n * k) as real == nr * (k as real);
    assert (2 * n) as real == 2.0 * nr;
    assert nr * (k as real) == (k as real / 2.0) * (2.0 * nr);
  }

  lemma HalveSums(sa: real, sb: real, ta: int, tb: int, half: int)
    requires 2.0 * sa == ta as real && 2.0 * sb == tb as real && ta + tb == 2 * half
    ensures sa + sb == half as real
  {
  }

  /** Closed form of the two sums together: n times the sum of the two runs' ends. */
  lemma {:induction false} TwoRuns(a: nat, b: nat, n: nat)
    ensures TwiceRangeSum(a, n) + TwiceRangeSum(b, n) == 2 * (n * (a + b + n - 1))
  {
    if n > 0 {
      TwoRuns(a, b, n - 1);
      var m := n - 1;
      assert m * (a + b + m - 1) + (a + b + 2 * m) == n * (a + b + n - 1) by {
        assert n * (a + b + n - 1) == m * (a + b + m) + (a + b + m);
        assert m * (a + b + m) == m * (a + b + m - 1) + m;
      }
    }
  }

  lemma RangeMembers(lo: nat, n: nat)
    ensures forall x :: x in Range(lo, n) <==> lo <= x < lo + n
  {
    forall x | lo <= x < lo + n ensures x in Range(lo, n) {
      assert Range(lo, n)[x - lo] == x;
    }
  }

  lemma SumTwoRuns(a: nat, b: nat, n: nat)
    ensures Sum(Reals(Range(a, n) + Range(b, n))) == (n * (a + b + n - 1)) as real
  {
    SumConcat(Range(a, n), Range(b, n));
    SumRange(a, n);
    SumRange(b, n);
    TwoRuns(a, b, n);
    HalveSums(Sum(Reals(Range(a, n))), Sum(Reals(Range(b, n))), TwiceRangeSum(a, n), TwiceRangeSum(b, n),
      n * (a + b + n - 1));
  }

  /** The mean of two runs of n consecutive indexes lies halfway between their middles. */
  lemma PaddedMean(a: nat, b: nat, n: nat)
    requires n > 0
    ensures |Range(a, n) + Range(b, n)| > 0
    ensures Mean(Reals(Range(a, n) + Range(b, n))) == (a + b + n - 1) as real / 2.0
  {
    SumTwoRuns(a, b, n);
    HalfMean(Reals(Range(a, n) + Range(b, n)), n, a + b + n - 1);
  }

  /** Two runs of n indexes from a and from b > a + n have a start on each side of their mean. */
  lemma PaddedSplit(starts: seq<nat>, a: nat, b: nat, n: nat)
    requires n > 0 && a + n < b
    requires starts == Range(a, n) + Range(b, n)
    ensures a + n - 1 in starts && b in starts
    ensures ((a + n - 1) as real) < Mean(Reals(starts)) < (b as real)
  {
    PaddedMean(a, b, n);
    RangeMembers(a, n);
    RangeMembers(b, n);
  }

  /**
   * The greatest start below the mean and the least start above it, when
   * the starts are two runs of n indexes from a and from b > a + n.
   */
  lemma PaddedBounds(starts: seq<nat>, a: nat, b: nat, n: nat, x: nat, y: nat)
    requires n > 0 && a + n < b
    requires starts == Range(a, n) + Range(b, n)
    requires SplitPoints(starts, x, y)
    ensures x == a + n - 1 && y == b
  {
    PaddedMean(a, b, n);
    RangeMembers(a, n);
    RangeMembers(b, n);
    assert a + n - 1 in starts && b in starts;
  }

  /** Run starts that are two runs of n indexes, from a and from b > a + n, make the crop succeed. */
  lemma CropAtPaddedOk(trace: seq<real>, a: nat, b: nat, n: nat)
    requires n > 0 && a + n < b
    ensures CropAt(trace, Range(a, n) + Range(b, n)).Ok?
  {
    PaddedSplit(Range(a, n) + Range(b, n), a, b, n);
  }

  /** Where a successful crop with such run starts begins and ends. */
  lemma CropAtPaddedValue(trace: seq<real>, starts: seq<nat>, a: nat, b: nat, n: nat, lo: nat)
    requires n > 0 && a + n < b && lo == a + n - 1 + Window
    requires starts == Range(a, n) + Range(b, n) && CropAt(trace, starts).Ok?
    ensures CropAt(trace, starts).value == Slice(trace, lo, b)
  {
    var x, y := CropBounds(trace, starts);
    assert x + Window == lo && y == b by {
      PaddedBounds(starts, a, b, n, x, y);
    }
  }

  /**
   * With such run starts the crop is the part of the trace from 450 past the
   * end of the first run (lo) up to the start of the second (b).
   */
  lemma CropAtPadded(trace: seq<real>, starts: seq<nat>, a: nat, b: nat, n: nat, lo: nat, s: seq<real>)
    requires n > 0 && a + n < b && lo == a + n - 1 + Window
    requires starts == Range(a, n) + Range(b, n) && s == Slice(trace, lo, b)
    ensures CropAt(trace, starts) == Ok(s)
  {
    CropAtPaddedOk(trace, a, b, n);
    CropAtPaddedValue(trace, starts, a, b, n, lo);
  }

  /** The same with the padding written as q quiet samples around m loud ones. */
  lemma CropAtSection(trace: seq<real>, a: nat, q: nat, m: nat)
    requires q >= Window && m > 0 && a + q + m <= |trace|
    ensures CropAt(trace, Range(a, q - Window + 1) + Range(a + q + m, q - Window + 1)) == Ok(trace[a + q..a + q + m])
  {
    CropAtPadded(trace, Range(a, q - Window + 1) + Range(a + q + m, q - Window + 1),
      a, a + q + m, q - Window + 1, a + q, trace[a + q..a + q + m]);
  }

  /** Cropping a trace goes through its run starts only. */
  lemma CropOfRunStarts(trace: seq<real>, threshold: real, spc: int, starts: seq<nat>)
    requires RunStarts(trace, threshold) == starts
    ensures CropCycles(trace, threshold, spc) == CropAt(trace, starts)
  {
  }

  /**
   * A trace made of a loud prefix of length a, q quiet samples, a loud section
   * of m > 0 samples, q quiet samples again and a non-empty loud suffix crops
   * to exactly the loud section (q >= 450).
   */
  lemma CropPaddedSection(trace: seq<real>, threshold: real, spc: int, a: nat, q: nat, m: nat)
    requires q >= Window && m > 0
    requires a + 2 * q + m < |trace|
    requires forall k :: 0 <= k < |trace| ==>
      (Quiet(trace[k], threshold) <==> (a <= k < a + q || a + q + m <= k < a + 2 * q + m))
    ensures CropCycles(trace, threshold, spc) == Ok(trace[a + q..a + q + m])
  {
    PaddedStarts(trace, threshold, a, q, m);
    CropOfRunStarts(trace, threshold, spc, Range(a, q - Window + 1) + Range(a + q + m, q - Window + 1));
    CropAtSection(trace, a, q, m);
  }

  function Repeat(v: real, n: nat): (r: seq<real>)
    ensures |r| == n && forall i :: 0 <= i < n ==> r[i] == v
  {
    if n == 0 then [] else Repeat(v, n - 1) + [v]
  }

  /** Where the example trace is quiet: inside its two zero paddings. */
  lemma ExampleQuiet(t: seq<real>, k: nat)
    requires t == Repeat(1.0, k) + Repeat(0.0, k) + Repeat(1.0, 10) + Repeat(0.0, k) + Repeat(1.0, k)
    ensures forall i :: 0 <= i < |t| ==>
      (Quiet(t[i], 0.5) <==> (k <= i < 2 * k || 2 * k + 10 <= i < 3 * k + 10))
  {
    var loud, quiet := Repeat(1.0, k), Repeat(0.0, k);
    forall i | 0 <= i < |t|
      ensures Quiet(t[i], 0.5) <==> (k <= i < 2 * k || 2 * k + 10 <= i < 3 * k + 10)
    {
      if i < k {
        assert t[i] == loud[i];
      } else if i < 2 * k {
        assert t[i] == quiet[i - k];
      } else if i < 2 * k + 10 {
        assert t[i] == Repeat(1.0, 10)[i - 2 * k];
      } else if i < 3 * k + 10 {
        assert t[i] == quiet[i - 2 * k - 10];
      } else {
        assert t[i] == loud[i - 3 * k - 10];
      }
    }
  }

  /** The repository's own example: ten loud samples between two 500-sample zero paddings. */
  lemma CropExample(t: seq<real>, k: nat)
    requires k == 500
    requires t == Repeat(1.0, k) + Repeat(0.0, k) + Repeat(1.0, 10) + Repeat(0.0, k) + Repeat(1.0, k)
    ensures CropCycles(t, 0.5, 1) == Ok(Repeat(1.0, 10))
  {
    ExampleQuiet(t, k);
    ExampleSection(t, k);
    CropPaddedSection(t, 0.5, 1, k, k, 10);
  }

  lemma ExampleSection(t: seq<real>, k: nat)
    requires k == 500
    requires t == Repeat(1.0, k) + Repeat(0.0, k) + Repeat(1.0, 10) + Repeat(0.0, k) + Repeat(1.0, k)
    ensures t[2 * k..2 * k + 10] == Repeat(1.0, 10)
  {
  }

  // ---------------------------------------------------------------------
  // find_cycles: the falling-edge rule on the already filtered clock.
  // ---------------------------------------------------------------------

  /** `(clock[:-1] > 0) & (clock[1:] < 0)` at index i. */
  predicate FallingEdge(clock: seq<real>, i: nat)
  {
    i + 1 < |clock| && clock[i] > 0.0 && clock[i + 1] < 0.0
  }

  /** `np.where(...)[0]` over the first n indexes. */
  function FallingEdgesBelow(clock: seq<real>, n: nat): (r: seq<nat>)
    ensures StrictlyIncreasing(r)
    ensures forall i: nat :: i in r <==> i < n && FallingEdge(clock, i)
  {
    if n == 0 then []
    else
      var r := FallingEdgesBelow(clock, n - 1);
      assert forall i :: 0 <= i < |r| ==> r[i] in r;
      if FallingEdge(clock, n - 1) then r + [n - 1] else r
  }

  /** The cycle indexes returned by `find_cycles`, given its filtered clock. */
  function FallingEdges(clock: seq<real>): seq<nat>
  {
    FallingEdgesBelow(clock, |clock|)
  }

  /**
   * Falling edges are increasing, leave room for the next sample, and are
   * never adjacent (the sample after an edge is negative, so it cannot start
   * another one). A zero sample is not an edge on either side.
   */
  lemma FallingEdgesShape(clock: seq<real>)
    ensures var r := FallingEdges(clock);
      StrictlyIncreasing(r) &&
      (forall k :: 0 <= k < |r| ==> r[k] + 2 <= |clock|) &&
      (forall k :: 0 <= k < |r| - 1 ==> r[k] + 1 < r[k + 1]) &&
      (forall i :: 0 <= i < |clock| && clock[i] == 0.0 ==> i !in r && (i == 0 || i - 1 !in r))
  {
    var r := FallingEdges(clock);
    forall k | 0 <= k < |r| - 1 ensures r[k] + 1 < r[k + 1] {
      assert r[k] in r && r[k + 1] in r;
      assert FallingEdge(clock, r[k]) && FallingEdge(clock, r[k + 1]);
    }
    forall k | 0 <= k < |r| ensures r[k] + 2 <= |clock| {
      assert r[k] in r;
    }
  }

  // ---------------------------------------------------------------------
  // find_clock_freq_phase: selecting the clock peak among the spectrum bins.
  // ---------------------------------------------------------------------

  /** One bin of the normalised real FFT: its frequency, |X_k| and its angle in degrees. */
  datatype Bin = Bin(freq: real, magnitude: real, angle: real)

  datatype ClockError = DidNotFind | FoundMultiple

  /** A bin at or above the threshold, within the precision of the estimate (both inclusive). */
  predicate Candidate(b: Bin, estimated: real, precision: real, threshold: real)
  {
    b.magnitude >= threshold && Abs(b.freq - estimated) <= precision
  }

  /** Indexes below n of the candidate bins, in increasing order. */
  function CandidatesBelow(bins: seq<Bin>, estimated: real, precision: real, threshold: real, n: nat): (r: seq<nat>)
    requires n <= |bins|
    ensures StrictlyIncreasing(r)
    ensures forall k: nat :: k in r <==> k < n && Candidate(bins[k], estimated, precision, threshold)
  {
    if n == 0 then []
    else
      var r := CandidatesBelow(bins, estimated, precision, threshold, n - 1);
      assert forall i :: 0 <= i < |r| ==> r[i] in r;
      if Candidate(bins[n - 1], estimated, precision, threshold) then r + [n - 1] else r
  }

  /**
   * Peak selection of `find_clock_freq_phase`: "Did not find" without a
   * candidate, "Found multiple" with more than one, otherwise the single
   * candidate's frequency and angle.
   */
  function FindClockFreqPhase(bins: seq<Bin>, estimated: real, precision: real, threshold: real): (r: Result<(real, real), ClockError>)
    ensures r == Err(DidNotFind) <==> forall k :: 0 <= k < |bins| ==> !Candidate(bins[k], estimated, precision, threshold)
    ensures r == Err(FoundMultiple) <==>
      exists j, k :: 0 <= j < k < |bins| && Candidate(bins[j], estimated, precision, threshold) &&
        Candidate(bins[k], estimated, precision, threshold)
    ensures r.Ok? ==> exists k :: (0 <= k < |bins| && Candidate(bins[k], estimated, precision, threshold) &&
      r.value == (bins[k].freq, bins[k].angle) &&
      forall j :: 0 <= j < |bins| && j != k ==> !Candidate(bins[j], estimated, precision, threshold))
  {
    var found := CandidatesBelow(bins, estimated, precision, threshold, |bins|);
    if |found| < 1 then
      assert forall k: nat :: k < |bins| && Candidate(bins[k], estimated, precision, threshold) ==> k in found;
      Err(DidNotFind)
    else if |found| > 1 then
      assert found[0] in found && found[1] in found;
      Err(FoundMultiple)
    else
      assert found[0] in found;
      assert forall k: nat :: k < |bins| && Candidate(bins[k], estimated, precision, threshold) ==> k == found[0] by {
        forall k: nat | k < |bins| && Candidate(bins[k], estimated, precision, threshold) ensures k == found[0] {
          assert k in found;
        }
      }
      Ok((bins[found[0]].freq, bins[found[0]].angle))
  }
}
