/**
 * Leakage statistics (abby/evaluation.py): Welch's t-test per sample index,
 * Pearson correlation per sample index, and the key-byte brute force that
 * correlates samples with the 16-bit Hamming weight of an intermediate value.
 *
 * The statistics are exact rationals. A statistic with a square root in its
 * denominator is kept as a `Ratio(num, radicand)`, standing for
 * num / sqrt(radicand); `Denotes` says which real number that is. A ratio
 * with radicand 0 is IEEE NaN when num is 0 and an infinity otherwise.
 */
module Evaluation {
  import opened Common

  /** num / sqrt(radicand), with radicand >= 0. */
  datatype Ratio = Ratio(num: real, radicand: real)

  /**
   * Errors raised on the way: trace sets whose widths do not broadcast in `ttest_ind`, `traces[0]` of no
   * traces, and the checks of `pearsonr` and of the brute force.
   */
  datatype StatError = ShapeMismatch | IndexError | LengthMismatch | TooFewSamples | AssertionFailed

  /** 0/0: the NaN that `np.nan_to_num(..., nan=0)` replaces. */
  predicate IsNaN(q: Ratio)
  {
    q.num == 0.0 && q.radicand == 0.0
  }

  /** A non-zero numerator over a zero radicand: an infinity, which `nan=0` leaves alone. */
  predicate IsInfinite(q: Ratio)
  {
    q.num != 0.0 && q.radicand == 0.0
  }

  /** r is the value of q: same sign as the numerator and r * r * radicand == num * num. */
  predicate Denotes(q: Ratio, r: real)
  {
    q.radicand > 0.0 && r * r * q.radicand == q.num * q.num &&
    (r > 0.0 <==> q.num > 0.0) && (r < 0.0 <==> q.num < 0.0)
  }

  /** `np.nan_to_num(x, nan=0)` on one entry: only NaN becomes 0. */
  function NanToZero(q: Ratio): (r: Ratio)
    ensures IsNaN(q) ==> Denotes(r, 0.0)
    ensures !IsNaN(q) ==> r == q
  {
    if IsNaN(q) then Ratio(0.0, 1.0) else q
  }

  function NanToZeroAll(s: seq<Ratio>): (r: seq<Ratio>)
    ensures |r| == |s| && forall i :: 0 <= i < |s| ==> r[i] == NanToZero(s[i])
  {
    seq(|s|, i requires 0 <= i < |s| => NanToZero(s[i]))
  }

  lemma SquareNonNegative(x: real)
    ensures x * x >= 0.0
  {
  }

  /** Only zero has a square that is not positive. */
  lemma ZeroSquare(c: real)
    requires c * c <= 0.0
    ensures c == 0.0
  {
    ZeroSelfProduct(c, c);
  }

  /** The same fact with the two factors named apart, which the solver handles more reliably. */
  lemma ZeroSelfProduct(c: real, d: real)
    requires c == d && c * d <= 0.0
    ensures c == 0.0
  {
    if c > 0.0 {
      PositiveProduct(c, d);
    } else if c < 0.0 {
      PositiveProduct(-c, -d);
    }
  }

  /** Every non-zero number has a positive square. */
  lemma SquarePositive(c: real)
    requires c != 0.0
    ensures c * c > 0.0
  {
    if c * c <= 0.0 {
      ZeroSquare(c);
    }
  }

  lemma PositiveProduct(c: real, d: real)
    requires c > 0.0 && d > 0.0
    ensures c * d > 0.0 && (-c) * (-d) > 0.0
  {
  }

  /** A ratio denotes at most one real number. */
  lemma DenotesUnique(q: Ratio, r1: real, r2: real)
    requires Denotes(q, r1) && Denotes(q, r2)
    ensures r1 == r2
  {
    assert r1 * r1 * q.radicand == r2 * r2 * q.radicand;
    assert r1 * r1 == r2 * r2 by {
      assert (r1 * r1 - r2 * r2) * q.radicand == 0.0;
    }
    assert (r1 - r2) * (r1 + r2) == 0.0;
    assert r1 == r2 || r1 == -r2;
    assert r1 == -r2 ==> r1 == 0.0;
  }

  /** A ratio whose squared numerator is at most its radicand denotes a number in [-1, 1]. */
  lemma DenotesBounded(q: Ratio, r: real)
    requires Denotes(q, r) && q.num * q.num <= q.radicand
    ensures -1.0 <= r <= 1.0
  {
    var rr := r * r;
    assert rr * q.radicand == q.num * q.num;
    assert (rr - 1.0) * q.radicand <= 0.0;
    assert rr <= 1.0 by {
      PositiveFactor(q.radicand, 1.0 - rr);
    }
    assert r > 1.0 ==> r * r > 1.0 * r;
    assert r < -1.0 ==> r * r > -1.0 * r;
  }

  // ---------------------------------------------------------------------
  // Sums of products, deviations and the Cauchy-Schwarz inequality.
  // ---------------------------------------------------------------------

  /** Sum of a[i] * b[i]. */
  function Dot(a: seq<real>, b: seq<real>): real
    requires |a| == |b|
  {
    if a == [] then 0.0 else Dot(a[..|a| - 1], b[..|b| - 1]) + a[|a| - 1] * b[|b| - 1]
  }

  lemma {:induction false} DotSelfNonNegative(a: seq<real>)
    ensures Dot(a, a) >= 0.0
  {
    if a != [] {
      DotSelfNonNegative(a[..|a| - 1]);
      SquareNonNegative(a[|a| - 1]);
    }
  }

  lemma {:induction false} DotSymmetric(a: seq<real>, b: seq<real>)
    requires |a| == |b|
    ensures Dot(a, b) == Dot(b, a)
  {
    if a != [] {
      DotSymmetric(a[..|a| - 1], b[..|b| - 1]);
    }
  }

  /** Negating one side negates the sum of products. */
  lemma {:induction false} DotNegate(a: seq<real>, b: seq<real>)
    requires |a| == |b|
    ensures Dot(a, Negate(b)) == -Dot(a, b)
  {
    if a != [] {
      assert Negate(b)[..|b| - 1] == Negate(b[..|b| - 1]);
      DotNegate(a[..|a| - 1], b[..|b| - 1]);
    }
  }

  /** The step of Cauchy-Schwarz: 2xyC <= A y^2 + B x^2 whenever C^2 <= AB. */
  lemma CrossTerm(A: real, B: real, C: real, x: real, y: real)
    requires A >= 0.0 && B >= 0.0 && C * C <= A * B
    ensures 2.0 * x * y * C <= A * y * y + B * x * x
  {
    var e := A * y * y + B * x * x - 2.0 * x * y * C;
    if A == 0.0 {
      assert C * C <= 0.0;
      ZeroSquare(C);
      SquareNonNegative(x);
      assert B * (x * x) >= 0.0;
    } else {
      assert A * e == (A * y - x * C) * (A * y - x * C) + x * x * (A * B - C * C);
      SquareNonNegative(A * y - x * C);
      SquareNonNegative(x);
      assert x * x * (A * B - C * C) >= 0.0;
      assert A * e >= 0.0;
      PositiveFactor(A, e);
    }
  }

  lemma PositiveFactor(a: real, e: real)
    requires a > 0.0 && a * e >= 0.0
    ensures e >= 0.0
  {
  }

  /** Cauchy-Schwarz: (sum a_i b_i)^2 <= (sum a_i^2)(sum b_i^2). */
  lemma {:induction false} CauchySchwarz(a: seq<real>, b: seq<real>)
    requires |a| == |b|
    ensures Dot(a, b) * Dot(a, b) <= Dot(a, a) * Dot(b, b)
  {
    if a != [] {
      var a', b' := a[..|a| - 1], b[..|b| - 1];
      var x, y := a[|a| - 1], b[|b| - 1];
      CauchySchwarz(a', b');
      DotSelfNonNegative(a');
      DotSelfNonNegative(b');
      var A, B, C := Dot(a', a'), Dot(b', b'), Dot(a', b');
      CrossTerm(A, B, C, x, y);
      assert (C + x * y) * (C + x * y) == C * C + 2.0 * x * y * C + x * x * y * y;
      assert (A + x * x) * (B + y * y) == A * B + A * y * y + B * x * x + x * x * y * y;
    }
  }

  // ---------------------------------------------------------------------
  // Means, deviations, variances.
  // ---------------------------------------------------------------------

  /** x[i] - mean(x), for every i. */
  function Deviations(x: seq<real>): (d: seq<real>)
    requires |x| > 0
    ensures |d| == |x| && forall i :: 0 <= i < |x| ==> d[i] == x[i] - Mean(x)
  {
    seq(|x|, i requires 0 <= i < |x| => x[i] - Mean(x))
  }

  function Negate(x: seq<real>): (r: seq<real>)
    ensures |r| == |x| && forall i :: 0 <= i < |x| ==> r[i] == -x[i]
  {
    seq(|x|, i requires 0 <= i < |x| => -x[i])
  }

  lemma {:induction false} SumNegate(x: seq<real>)
    ensures Sum(Negate(x)) == -Sum(x)
  {
    if x != [] {
      assert Negate(x)[..|x| - 1] == Negate(x[..|x| - 1]);
      SumNegate(x[..|x| - 1]);
    }
  }

  lemma NegateQuotient(a: real, n: real)
    requires n > 0.0
    ensures (-a) / n == -(a / n)
  {
    var q := a / n;
    assert q * n == a;
    assert (-q) * n == -a;
  }

  lemma NegateDeviations(x: seq<real>)
    requires |x| > 0
    ensures Mean(Negate(x)) == -Mean(x)
    ensures Deviations(Negate(x)) == Negate(Deviations(x))
  {
    SumNegate(x);
    var n := |x| as real;
    assert Mean(Negate(x)) == (-Sum(x)) / n;
    NegateQuotient(Sum(x), n);
    forall i | 0 <= i < |x|
      ensures Deviations(Negate(x))[i] == Negate(Deviations(x))[i]
    {
    }
  }

  /** Sum of squared deviations, sum (x_i - mean)^2. */
  function SquaredDeviations(x: seq<real>): (s: real)
    requires |x| > 0
    ensures s >= 0.0
  {
    DotSelfNonNegative(Deviations(x));
    Dot(Deviations(x), Deviations(x))
  }

  /** Sample variance with one delta degree of freedom (`ddof=1`). */
  function Variance(x: seq<real>): (v: real)
    requires |x| >= 2
    ensures v >= 0.0
  {
    SquaredDeviations(x) / ((|x| - 1) as real)
  }

  // ---------------------------------------------------------------------
  // Welch's t-test (`scipy.stats.ttest_ind(..., equal_var=False)`).
  // ---------------------------------------------------------------------

  /**
   * Welch's t of two samples: (mean(a) - mean(b)) / sqrt(var(a)/|a| + var(b)/|b|).
   * With fewer than two values on a side the variance is 0/0, so t is NaN.
   */
  function Welch(a: seq<real>, b: seq<real>): (q: Ratio)
    ensures q.radicand >= 0.0
    ensures (|a| < 2 || |b| < 2) ==> IsNaN(q)
  {
    if |a| < 2 || |b| < 2 then Ratio(0.0, 0.0)
    else Ratio(Mean(a) - Mean(b), Variance(a) / (|a| as real) + Variance(b) / (|b| as real))
  }

  /** Swapping the two samples negates t. */
  lemma WelchAntisymmetric(a: seq<real>, b: seq<real>)
    ensures Welch(b, a) == Ratio(-Welch(a, b).num, Welch(a, b).radicand)
  {
  }

  /** Two constant samples give NaN (then 0) when their means agree, an infinity otherwise. */
  lemma WelchConstant(a: seq<real>, b: seq<real>)
    requires |a| >= 2 && |b| >= 2
    requires SquaredDeviations(a) == 0.0 && SquaredDeviations(b) == 0.0
    ensures Mean(a) == Mean(b) ==> IsNaN(Welch(a, b))
    ensures Mean(a) != Mean(b) ==> IsInfinite(Welch(a, b))
  {
  }

  /** A sample whose values are not all equal has positive squared deviation. */
  lemma {:induction false} SpreadPositive(x: seq<real>, i: nat, j: nat)
    requires i < |x| && j < |x| && x[i] != x[j]
    ensures SquaredDeviations(x) > 0.0
  {
    var d := Deviations(x);
    if SquaredDeviations(x) == 0.0 {
      DeviationsZero(d, i);
      DeviationsZero(d, j);
    }
  }

  /** When a sum of squares is zero, every term is zero. */
  lemma {:induction false} DeviationsZero(d: seq<real>, i: nat)
    requires i < |d| && Dot(d, d) == 0.0
    ensures d[i] == 0.0
  {
    var n := |d| - 1;
    DotSelfNonNegative(d[..n]);
    SquareNonNegative(d[n]);
    assert Dot(d[..n], d[..n]) == 0.0 && d[n] * d[n] == 0.0;
    ZeroSquare(d[n]);
    if i < n {
      DeviationsZero(d[..n], i);
      assert d[..n][i] == d[i];
    }
  }

  /** Column j of a set of traces. */
  function Column(m: seq<seq<real>>, j: nat): (c: seq<real>)
    requires forall r :: 0 <= r < |m| ==> j < |m[r]|
    ensures |c| == |m| && forall r :: 0 <= r < |m| ==> c[r] == m[r][j]
  {
    seq(|m|, r requires 0 <= r < |m| => m[r][j])
  }

  /** Every trace holds `width` samples. */
  predicate Rectangular(m: seq<seq<real>>, width: nat)
  {
    forall r :: 0 <= r < |m| ==> |m[r]| == width
  }

  /**
   * `ttest`: Welch's t per sample index, NaN replaced by 0 and nothing else replaced. `ttest_ind` broadcasts
   * the two widths like any other axis: a set of width 1 is compared with every column of the other set, and
   * widths that differ otherwise raise ValueError.
   */
  function TTest(set1: seq<seq<real>>, set2: seq<seq<real>>, width1: nat, width2: nat): (t: Result<seq<Ratio>, StatError>)
    requires Rectangular(set1, width1) && Rectangular(set2, width2)
    ensures t.Err? <==> !Broadcastable(width1, width2)
    ensures t.Err? ==> t.error == ShapeMismatch
    ensures t.Ok? ==> |t.value| == BroadcastLength(width1, width2)
    ensures width1 == width2 ==>
      t.Ok? && forall j :: 0 <= j < width1 ==> t.value[j] == NanToZero(Welch(Column(set1, j), Column(set2, j)))
  {
    if !Broadcastable(width1, width2) then Err(ShapeMismatch)
    else
      var k := BroadcastLength(width1, width2);
      Ok(seq(k, j requires 0 <= j < k => BroadcastEntry(set1, set2, width1, width2, j)))
  }

  /** Entry j of `ttest` once the widths are broadcast: a set of width 1 contributes its only column. */
  function BroadcastEntry(set1: seq<seq<real>>, set2: seq<seq<real>>, width1: nat, width2: nat, j: nat): (q: Ratio)
    requires Rectangular(set1, width1) && Rectangular(set2, width2)
    requires Broadcastable(width1, width2) && j < BroadcastLength(width1, width2)
    ensures width1 == width2 ==> q == NanToZero(Welch(Column(set1, j), Column(set2, j)))
  {
    var j1 := if width1 == 1 then 0 else j;
    var j2 := if width2 == 1 then 0 else j;
    NanToZero(Welch(Column(set1, j1), Column(set2, j2)))
  }

  /** A set of a single sample index is compared with every sample index of the other set. */
  lemma TTestBroadcast(set1: seq<seq<real>>, set2: seq<seq<real>>, width2: nat)
    requires Rectangular(set1, 1) && Rectangular(set2, width2)
    ensures var t := TTest(set1, set2, 1, width2);
      t.Ok? && |t.value| == width2 &&
      forall j :: 0 <= j < width2 ==> t.value[j] == NanToZero(Welch(Column(set1, 0), Column(set2, j)))
  {
  }

  /** Swapping the two trace sets negates every entry, NaN replacement included. */
  lemma TTestSwapped(set1: seq<seq<real>>, set2: seq<seq<real>>, width1: nat, width2: nat)
    requires Rectangular(set1, width1) && Rectangular(set2, width2)
    ensures var t := TTest(set1, set2, width1, width2);
      var u := TTest(set2, set1, width2, width1);
      t.Ok? == u.Ok? &&
      (t.Ok? ==> |u.value| == |t.value| &&
                 forall j :: 0 <= j < |t.value| ==> u.value[j] == Ratio(-t.value[j].num, t.value[j].radicand))
  {
    var t := TTest(set1, set2, width1, width2);
    var u := TTest(set2, set1, width2, width1);
    if t.Ok? {
      forall j | 0 <= j < |t.value|
        ensures u.value[j] == Ratio(-t.value[j].num, t.value[j].radicand)
      {
        var a := Column(set1, if width1 == 1 then 0 else j);
        var b := Column(set2, if width2 == 1 then 0 else j);
        assert t.value[j] == BroadcastEntry(set1, set2, width1, width2, j);
        WelchAntisymmetric(a, b);
        assert t.value[j] == NanToZero(Welch(a, b));
        assert u.value[j] == NanToZero(Welch(b, a));
      }
    }
  }

  /** Entries of `ttest`: zero where t was NaN, the t statistic otherwise (infinities kept). */
  lemma TTestEntries(set1: seq<seq<real>>, set2: seq<seq<real>>, width: nat, j: nat)
    requires Rectangular(set1, width) && Rectangular(set2, width) && j < width
    ensures var w := Welch(Column(set1, j), Column(set2, j));
      var t := TTest(set1, set2, width, width).value[j];
      (IsNaN(w) ==> Denotes(t, 0.0)) &&
      (IsInfinite(w) ==> IsInfinite(t)) &&
      (w.radicand > 0.0 ==> forall r :: Denotes(t, r) <==> Denotes(w, r))
  {
  }

  /** Welch's t of two two-value samples. */
  lemma WelchPairs(a0: real, a1: real, b0: real, b1: real)
    ensures Welch([a0, a1], [b0, b1]) ==
      Ratio((a0 + a1) / 2.0 - (b0 + b1) / 2.0, (a0 - a1) * (a0 - a1) / 4.0 + (b0 - b1) * (b0 - b1) / 4.0)
  {
    PairStats(a0, a1);
    PairStats(b0, b1);
  }

  /** The example of `ttest`'s documentation: [0, 0, 0, 0, -1, 1]. */
  lemma TTestExample()
    ensures var t := TTest([[0.0, 0.0, 0.0, 1.0, 0.0, 0.0], [0.0, 0.0, 1.0, 0.0, 0.0, 1.0]],
                           [[0.0, 0.0, 0.0, 1.0, 1.0, 0.0], [0.0, 0.0, 1.0, 0.0, 0.0, 0.0]], 6, 6).value;
      Denotes(t[0], 0.0) && Denotes(t[1], 0.0) && Denotes(t[2], 0.0) &&
      Denotes(t[3], 0.0) && Denotes(t[4], -1.0) && Denotes(t[5], 1.0)
  {
    var s1 := [[0.0, 0.0, 0.0, 1.0, 0.0, 0.0], [0.0, 0.0, 1.0, 0.0, 0.0, 1.0]];
    var s2 := [[0.0, 0.0, 0.0, 1.0, 1.0, 0.0], [0.0, 0.0, 1.0, 0.0, 0.0, 0.0]];
    assert Column(s1, 0) == [0.0, 0.0] && Column(s2, 0) == [0.0, 0.0];
    assert Column(s1, 1) == [0.0, 0.0] && Column(s2, 1) == [0.0, 0.0];
    assert Column(s1, 2) == [0.0, 1.0] && Column(s2, 2) == [0.0, 1.0];
    assert Column(s1, 3) == [1.0, 0.0] && Column(s2, 3) == [1.0, 0.0];
    assert Column(s1, 4) == [0.0, 0.0] && Column(s2, 4) == [1.0, 0.0];
    assert Column(s1, 5) == [0.0, 1.0] && Column(s2, 5) == [0.0, 0.0];
    WelchExampleEqual(0.0, 0.0);
    WelchExampleEqual(0.0, 1.0);
    WelchExampleEqual(1.0, 0.0);
    WelchExampleApart();
  }

  /** Two equal samples of two values: NaN when both are constant, t = 0 otherwise; either way 0 after `nan=0`. */
  lemma WelchExampleEqual(a0: real, a1: real)
    ensures Denotes(NanToZero(Welch([a0, a1], [a0, a1])), 0.0)
  {
    WelchPairs(a0, a1, a0, a1);
    var q := Welch([a0, a1], [a0, a1]);
    assert q.num == 0.0;
    if a0 != a1 {
      SquarePositive(a0 - a1);
    } else {
      assert q.radicand == 0.0;
    }
  }

  /** Columns 4 and 5 of the example: t = -1 and t = 1. */
  lemma WelchExampleApart()
    ensures Denotes(NanToZero(Welch([0.0, 0.0], [1.0, 0.0])), -1.0)
    ensures Denotes(NanToZero(Welch([0.0, 1.0], [0.0, 0.0])), 1.0)
  {
    WelchPairs(0.0, 0.0, 1.0, 0.0);
    WelchPairs(0.0, 1.0, 0.0, 0.0);
  }

  /** Mean and squared deviation of a two-value sample. */
  lemma PairStats(x: real, y: real)
    ensures Mean([x, y]) == (x + y) / 2.0
    ensures SquaredDeviations([x, y]) == (x - y) * (x - y) / 2.0
  {
    var s := [x, y];
    assert s[..1] == [x];
    assert [x][..0] == [];
    assert Sum([x]) == x;
    assert Sum(s) == Sum([x]) + y;
    var m := (x + y) / 2.0;
    assert Mean(s) == m;
    var d := Deviations(s);
    var h := (x - y) / 2.0;
    assert d[0] == h && d[1] == -h;
    assert d[..1] == [h];
    assert [h][..0] == [];
    assert Dot([h], [h]) == h * h;
    assert Dot(d, d) == Dot([h], [h]) + (-h) * (-h);
    assert (-h) * (-h) == h * h;
    assert h * h == (x - y) * (x - y) / 4.0;
  }

  // ---------------------------------------------------------------------
  // Pearson correlation (`scipy.stats.pearsonr`).
  // ---------------------------------------------------------------------

  /** r = sum dx*dy / sqrt(sum dx^2 * sum dy^2), dx and dy the deviations from the means. */
  function PearsonRatio(x: seq<real>, y: seq<real>): (q: Ratio)
    requires |x| == |y| > 0
    ensures q.radicand >= 0.0
  {
    var sx := SquaredDeviations(x);
    var sy := SquaredDeviations(y);
    assert sx * sy >= 0.0 by {
      if sx > 0.0 && sy > 0.0 {
        assert sx * sy > 0.0;
      }
    }
    Ratio(Dot(Deviations(x), Deviations(y)), sx * sy)
  }

  /** `pearsonr` with its length checks. */
  function Pearson(x: seq<real>, y: seq<real>): (r: Result<Ratio, StatError>)
    ensures |x| != |y| <==> r == Err(LengthMismatch)
    ensures |x| == |y| < 2 <==> r == Err(TooFewSamples)
    ensures r.Ok? ==> |x| == |y| >= 2 && r.value == PearsonRatio(x, y)
  {
    if |x| != |y| then Err(LengthMismatch)
    else if |x| < 2 then Err(TooFewSamples)
    else Ok(PearsonRatio(x, y))
  }

  /** By Cauchy-Schwarz, a correlation is NaN or denotes a number in [-1, 1]; it is never infinite. */
  lemma PearsonBounded(x: seq<real>, y: seq<real>)
    requires |x| == |y| > 0
    ensures var q := PearsonRatio(x, y);
      !IsInfinite(q) && (forall r :: Denotes(q, r) ==> -1.0 <= r <= 1.0)
  {
    var q := PearsonRatio(x, y);
    CauchySchwarz(Deviations(x), Deviations(y));
    forall r | Denotes(q, r) ensures -1.0 <= r <= 1.0 {
      DenotesBounded(q, r);
    }
    if q.radicand == 0.0 {
      ZeroSquare(q.num);
    }
  }

  lemma PearsonSymmetric(x: seq<real>, y: seq<real>)
    requires |x| == |y| > 0
    ensures PearsonRatio(x, y) == PearsonRatio(y, x)
  {
    DotSymmetric(Deviations(x), Deviations(y));
  }

  /** A sample correlates perfectly with itself and anti-correlates with its negation, unless it is constant. */
  lemma PearsonPerfect(x: seq<real>, i: nat, j: nat)
    requires i < |x| && j < |x| && x[i] != x[j]
    ensures Denotes(PearsonRatio(x, x), 1.0)
    ensures Denotes(PearsonRatio(x, Negate(x)), -1.0)
  {
    var s := SquaredDeviations(x);
    SpreadPositive(x, i, j);
    assert s * s > 0.0;
    assert PearsonRatio(x, x) == Ratio(s, s * s);
    assert 1.0 * 1.0 * (s * s) == s * s;
    NegateDeviations(x);
    DotNegate(Deviations(x), Deviations(x));
    NegateSquares(x);
    assert PearsonRatio(x, Negate(x)) == Ratio(-s, s * s);
    assert -1.0 * -1.0 * (s * s) == -s * -s;
  }

  lemma NegateSquares(x: seq<real>)
    requires |x| > 0
    ensures SquaredDeviations(Negate(x)) == SquaredDeviations(x)
  {
    NegateDeviations(x);
    DotNegate(Deviations(x), Deviations(x));
    DotNegate(Negate(Deviations(x)), Deviations(x));
    DotSymmetric(Negate(Deviations(x)), Deviations(x));
    assert Negate(Negate(Deviations(x))) == Deviations(x);
  }

  /** Correlation with a constant reference is NaN (which `correlation` turns into 0). */
  lemma PearsonConstantIsNaN(x: seq<real>, y: seq<real>)
    requires |x| == |y| > 0
    requires forall i :: 0 <= i < |y| ==> y[i] == y[0]
    ensures IsNaN(PearsonRatio(x, y))
  {
    var q := PearsonRatio(x, y);
    ConstantNoSpread(y);
    CauchySchwarz(Deviations(x), Deviations(y));
    assert q.radicand == SquaredDeviations(x) * 0.0;
    ZeroSquare(q.num);
  }

  lemma {:induction false} ConstantNoSpread(y: seq<real>)
    requires |y| > 0 && forall i :: 0 <= i < |y| ==> y[i] == y[0]
    ensures Mean(y) == y[0]
    ensures SquaredDeviations(y) == 0.0
  {
    ConstantSum(y);
    var d := Deviations(y);
    assert forall i :: 0 <= i < |d| ==> d[i] == 0.0;
    ZeroDot(d);
  }

  lemma {:induction false} ConstantSum(y: seq<real>)
    requires |y| > 0 && forall i :: 0 <= i < |y| ==> y[i] == y[0]
    ensures Sum(y) == (|y| as real) * y[0]
  {
    if |y| > 1 {
      ConstantSum(y[..|y| - 1]);
    }
  }

  lemma {:induction false} ZeroDot(d: seq<real>)
    requires forall i :: 0 <= i < |d| ==> d[i] == 0.0
    ensures Dot(d, d) == 0.0
  {
    if d != [] {
      ZeroDot(d[..|d| - 1]);
    }
  }

  /**
   * `correlation`: Pearson r of every sample index of the traces with the
   * reference, in a preallocated array, then NaN replaced by 0. With no
   * traces `traces[0]` raises; with traces of no samples nothing is correlated.
   */
  method Correlation(traces: seq<seq<real>>, reference: seq<real>) returns (r: Result<seq<Ratio>, StatError>)
    requires |traces| > 0 ==> Rectangular(traces, |traces[0]|)
    ensures |traces| == 0 ==> r == Err(IndexError)
    ensures |traces| > 0 && |traces[0]| > 0 && |reference| != |traces| ==> r == Err(LengthMismatch)
    ensures |traces| > 0 && |traces[0]| > 0 && |reference| == |traces| < 2 ==> r == Err(TooFewSamples)
    ensures r.Ok? <==> |traces| > 0 && (|traces[0]| == 0 || |reference| == |traces| >= 2)
    ensures r.Ok? ==>
      |r.value| == |traces[0]| &&
      (forall i :: 0 <= i < |r.value| ==> r.value[i] == NanToZero(PearsonRatio(Column(traces, i), reference)))
  {
    if |traces| == 0 {
      return Err(IndexError);
    }
    var width := |traces[0]|;
    var corr := new Ratio[width](_ => Ratio(0.0, 1.0));
    var i := 0;
    while i < width
      invariant 0 <= i <= width
      invariant i > 0 ==> |reference| == |traces| >= 2
      invariant forall k :: 0 <= k < i ==> corr[k] == PearsonRatio(Column(traces, k), reference)
    {
      var p := Pearson(Column(traces, i), reference);
      if p.Err? {
        return Err(p.error);
      }
      corr[i] := p.value;
      i := i + 1;
    }
    r := Ok(NanToZeroAll(corr[..]));
  }

  /** Sums over three-value samples, written out. */
  lemma ThreeSums(a: seq<real>, b: seq<real>)
    requires |a| == |b| == 3
    ensures Sum(a) == a[0] + a[1] + a[2]
    ensures Dot(a, b) == a[0] * b[0] + a[1] * b[1] + a[2] * b[2]
  {
    assert a[..2][..1] == [a[0]] && [a[0]][..0] == [];
    assert b[..2][..1] == [b[0]] && [b[0]][..0] == [];
    assert Sum([a[0]]) == a[0];
    assert Sum(a[..2]) == Sum([a[0]]) + a[1];
    assert Sum(a) == Sum(a[..2]) + a[2];
    assert Dot(a, b) == Dot(a[..2], b[..2]) + a[2] * b[2];
    assert Dot(a[..2], b[..2]) == Dot([a[0]], [b[0]]) + a[1] * b[1];
  }

  /** Pearson r of a three-value column with the reference [0, 0, 1] of `correlation`'s documentation. */
  lemma PearsonWithExampleReference(x: seq<real>)
    requires |x| == 3
    ensures var m := (x[0] + x[1] + x[2]) / 3.0;
      PearsonRatio(x, [0.0, 0.0, 1.0]) ==
        Ratio((2.0 * x[2] - x[0] - x[1]) / 3.0,
              ((x[0] - m) * (x[0] - m) + (x[1] - m) * (x[1] - m) + (x[2] - m) * (x[2] - m)) * (2.0 / 3.0))
  {
    var y := [0.0, 0.0, 1.0];
    var m := (x[0] + x[1] + x[2]) / 3.0;
    ThreeSums(x, x);
    ThreeSums(y, y);
    assert Mean(x) == m;
    assert Mean(y) == 1.0 / 3.0;
    var dx, dy := Deviations(x), Deviations(y);
    ThreeSums(dx, dy);
    ThreeSums(dx, dx);
    ThreeSums(dy, dy);
    assert SquaredDeviations(y) == 2.0 / 3.0;
    assert Dot(dx, dy) == (x[0] - m) * (-1.0 / 3.0) + (x[1] - m) * (-1.0 / 3.0) + (x[2] - m) * (2.0 / 3.0);
  }

  /** The example of `correlation`'s documentation: [-0.5, -0.5, 0.5, -1, -0.5, 1]. */
  lemma CorrelationExample()
    ensures var traces := [[0.0, 1.0, 0.0, 1.0, 0.0, 0.0], [1.0, 0.0, 1.0, 1.0, 1.0, 0.0], [0.0, 0.0, 1.0, 0.0, 0.0, 1.0]];
      var reference := [HammingWeight16(0) as real, HammingWeight16(0) as real, HammingWeight16(1) as real];
      Denotes(NanToZero(PearsonRatio(Column(traces, 0), reference)), -0.5) &&
      Denotes(NanToZero(PearsonRatio(Column(traces, 1), reference)), -0.5) &&
      Denotes(NanToZero(PearsonRatio(Column(traces, 2), reference)), 0.5) &&
      Denotes(NanToZero(PearsonRatio(Column(traces, 3), reference)), -1.0) &&
      Denotes(NanToZero(PearsonRatio(Column(traces, 4), reference)), -0.5) &&
      Denotes(NanToZero(PearsonRatio(Column(traces, 5), reference)), 1.0)
  {
    var traces := [[0.0, 1.0, 0.0, 1.0, 0.0, 0.0], [1.0, 0.0, 1.0, 1.0, 1.0, 0.0], [0.0, 0.0, 1.0, 0.0, 0.0, 1.0]];
    HammingWeightOfZero();
    HammingWeightOfOne();
    assert Column(traces, 0) == [0.0, 1.0, 0.0];
    assert Column(traces, 1) == [1.0, 0.0, 0.0];
    assert Column(traces, 2) == [0.0, 1.0, 1.0];
    assert Column(traces, 3) == [1.0, 1.0, 0.0];
    assert Column(traces, 4) == [0.0, 1.0, 0.0];
    assert Column(traces, 5) == [0.0, 0.0, 1.0];
    ExampleColumnsLow();
    ExampleColumnsHigh();
  }

  lemma ExampleColumnsLow()
    ensures Denotes(NanToZero(PearsonRatio([0.0, 1.0, 0.0], [0.0, 0.0, 1.0])), -0.5)
    ensures Denotes(NanToZero(PearsonRatio([1.0, 0.0, 0.0], [0.0, 0.0, 1.0])), -0.5)
  {
    PearsonWithExampleReference([0.0, 1.0, 0.0]);
    PearsonWithExampleReference([1.0, 0.0, 0.0]);
  }

  lemma ExampleColumnsHigh()
    ensures Denotes(NanToZero(PearsonRatio([0.0, 1.0, 1.0], [0.0, 0.0, 1.0])), 0.5)
    ensures Denotes(NanToZero(PearsonRatio([1.0, 1.0, 0.0], [0.0, 0.0, 1.0])), -1.0)
    ensures Denotes(NanToZero(PearsonRatio([0.0, 0.0, 1.0], [0.0, 0.0, 1.0])), 1.0)
  {
    PearsonWithExampleReference([0.0, 1.0, 1.0]);
    PearsonWithExampleReference([1.0, 1.0, 0.0]);
    PearsonWithExampleReference([0.0, 0.0, 1.0]);
  }

  /** Every entry `correlation` returns is defined and can only denote a number in [-1, 1]. */
  lemma CorrelationBounded(traces: seq<seq<real>>, reference: seq<real>, i: nat)
    requires |traces| >= 2 && Rectangular(traces, |traces[0]|) && i < |traces[0]|
    requires |reference| == |traces|
    ensures var q := NanToZero(PearsonRatio(Column(traces, i), reference));
      q.radicand > 0.0 && q.num * q.num <= q.radicand && forall r :: Denotes(q, r) ==> -1.0 <= r <= 1.0
  {
    var p := PearsonRatio(Column(traces, i), reference);
    PearsonBounded(Column(traces, i), reference);
    CauchySchwarz(Deviations(Column(traces, i)), Deviations(reference));
    if !IsNaN(p) {
      SquareNonNegative(p.num);
    }
  }

  // ---------------------------------------------------------------------
  // Key-byte brute force with the 16-bit Hamming weight.
  // ---------------------------------------------------------------------

  /**
   * `sum((n >> i) & 1 for i in range(bits))`. Python's `>>` floors and `& 1`
   * of a negative number reads its two's complement, which are Dafny's
   * Euclidean `/ 2` and `% 2`: bit i of n is bit i-1 of n >> 1.
   */
  function HammingWeight(n: int, bits: nat): (w: nat)
    ensures w <= bits
    decreases bits
  {
    if bits == 0 then 0 else n % 2 + HammingWeight(n / 2, bits - 1)
  }

  function HammingWeight16(n: int): nat
  {
    HammingWeight(n, 16)
  }

  function Pow2(k: nat): (p: nat)
    ensures p > 0
  {
    if k == 0 then 1 else 2 * Pow2(k - 1)
  }

  /** Only the low `bits` bits count: adding a multiple of 2^bits changes nothing. */
  lemma {:induction false} HammingWeightLowBits(n: int, k: int, bits: nat)
    ensures HammingWeight(n + Pow2(bits) * k, bits) == HammingWeight(n, bits)
    decreases bits
  {
    if bits > 0 {
      LowBitsStep(n, k, bits);
      HammingWeightLowBits(n / 2, k, bits - 1);
    }
  }

  /** One bit of the induction: the low bit is n's and the rest is n / 2 shifted by 2^(bits-1) k. */
  lemma LowBitsStep(n: int, k: int, bits: nat)
    requires bits > 0
    ensures HammingWeight(n + Pow2(bits) * k, bits) == n % 2 + HammingWeight(n / 2 + Pow2(bits - 1) * k, bits - 1)
  {
    var m := Pow2(bits - 1) * k;
    var t := n + Pow2(bits) * k;
    Pow2Times(bits, k);
    HalveShifted(n, m, t);
  }

  lemma Pow2Times(bits: nat, k: int)
    requires bits > 0
    ensures Pow2(bits) * k == 2 * (Pow2(bits - 1) * k)
  {
    var p := Pow2(bits - 1);
    assert Pow2(bits) == 2 * p;
    assert (2 * p) * k == 2 * (p * k);
  }

  /** Adding an even number 2m keeps the low bit and adds m to the rest. */
  lemma HalveShifted(n: int, m: int, t: int)
    requires t == n + 2 * m
    ensures t % 2 == n % 2 && t / 2 == n / 2 + m
  {
  }

  /** No bit of 0 is set. */
  lemma {:induction false} HammingWeightZero(bits: nat)
    ensures HammingWeight(0, bits) == 0
  {
    if bits > 0 {
      HammingWeightZero(bits - 1);
    }
  }

  /** Every bit of -1 is set (two's complement, as Python reads it). */
  lemma {:induction false} HammingWeightMinusOne(bits: nat)
    ensures HammingWeight(-1, bits) == bits
  {
    if bits > 0 {
      assert -1 / 2 == -1 && -1 % 2 == 1;
      HammingWeightMinusOne(bits - 1);
    }
  }

  /** hw(0) = 0, as in `correlation`'s documentation. */
  lemma HammingWeightOfZero()
    ensures HammingWeight16(0) == 0
  {
    HammingWeightZero(16);
  }

  /** hw(1) = 1, as in `correlation`'s documentation. */
  lemma HammingWeightOfOne()
    ensures HammingWeight16(1) == 1
  {
    HammingWeightZero(15);
  }

  /** hw(-1) = 16: Python reads the bits of -1 in two's complement. */
  lemma HammingWeightOfMinusOne()
    ensures HammingWeight16(-1) == 16
  {
    HammingWeightMinusOne(16);
  }

  lemma Pow2Sixteen()
    ensures Pow2(16) == 65536
  {
    assert Pow2(4) == 16;
    assert Pow2(8) == 256;
    assert Pow2(12) == 4096;
  }

  /** Only 16 bits count: 65535 = -1 + 2^16 weighs 16 and 65536 = 0 + 2^16 weighs 0. */
  lemma HammingWeightWraps()
    ensures HammingWeight16(65535) == 16 && HammingWeight16(65536) == 0
  {
    Pow2Sixteen();
    HammingWeightLowBits(0, 1, 16);
    HammingWeightLowBits(-1, 1, 16);
    HammingWeightOfZero();
    HammingWeightOfMinusOne();
  }

  /** Hamming weights of the intermediate values for one key guess. */
  function Weights<D>(inputs: seq<D>, inter: (D, int) -> int, key: int): (w: seq<real>)
    ensures |w| == |inputs|
    ensures forall i :: 0 <= i < |inputs| ==> w[i] == HammingWeight16(inter(inputs[i], key)) as real
    ensures forall i :: 0 <= i < |inputs| ==> 0.0 <= w[i] <= 16.0
  {
    seq(|inputs|, i requires 0 <= i < |inputs| => HammingWeight16(inter(inputs[i], key)) as real)
  }

  /**
   * `correlation_bruteforce_key_byte`: for each of the 256 key guesses, the
   * Pearson r of the samples with the Hamming weights of the intermediate
   * values. NaN entries are not replaced.
   */
  method CorrelationBruteforce<D>(samples: seq<real>, inputs: seq<D>, inter: (D, int) -> int)
    returns (r: Result<seq<Ratio>, StatError>)
    ensures |samples| != |inputs| <==> r == Err(AssertionFailed)
    ensures |samples| == |inputs| < 2 <==> r == Err(TooFewSamples)
    ensures r.Ok? ==>
      |samples| == |inputs| >= 2 && |r.value| == 256 &&
      (forall k :: 0 <= k < 256 ==> r.value[k] == PearsonRatio(samples, Weights(inputs, inter, k)))
  {
    if |samples| != |inputs| {
      return Err(AssertionFailed);
    }
    var corr := new Ratio[256](_ => Ratio(0.0, 1.0));
    var key := 0;
    while key < 256
      invariant 0 <= key <= 256
      invariant key > 0 ==> |samples| >= 2 && corr[..key] == KeyCorrelations(samples, inputs, inter)[..key]
    {
      var p := Pearson(samples, Weights(inputs, inter, key));
      if p.Err? {
        return Err(p.error);
      }
      corr[key] := p.value;
      ghost var all := KeyCorrelations(samples, inputs, inter);
      assert all[..key + 1] == all[..key] + [p.value];
      assert corr[..key + 1] == corr[..key] + [p.value];
      key := key + 1;
    }
    r := Ok(corr[..]);
    assert corr[..] == corr[..256];
  }

  /** The correlation of the traces with the weights of every key guess 0..255, in key order. */
  function KeyCorrelations<D>(samples: seq<real>, inputs: seq<D>, inter: (D, int) -> int): (c: seq<Ratio>)
    requires |samples| == |inputs| > 0
  {
    seq(256, k requires 0 <= k < 256 => PearsonRatio(samples, Weights(inputs, inter, k)))
  }

  /** A key guess whose intermediate values all have the same weight leaves NaN in the brute force. */
  lemma BruteforceKeepsNaN<D>(samples: seq<real>, inputs: seq<D>, inter: (D, int) -> int, k: int)
    requires |samples| == |inputs| > 0
    requires forall i :: 0 <= i < |inputs| ==>
      HammingWeight16(inter(inputs[i], k)) == HammingWeight16(inter(inputs[0], k))
    ensures IsNaN(PearsonRatio(samples, Weights(inputs, inter, k)))
  {
    PearsonConstantIsNaN(samples, Weights(inputs, inter, k));
  }
}
