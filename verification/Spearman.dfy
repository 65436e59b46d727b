/** Spearman's rank correlation over exact reals. */
module Spearman {
  import opened AverageRanks

  // The code is spearman_rho in bin/_eval_common/calibration_math.py.

  // ---------- The computation ----------

  /** sum(a * b for a, b in zip(x, y)) */
  function Dot(x: seq<real>, y: seq<real>): real
    requires |x| == |y|
  {
    if x == [] then 0.0 else x[0] * y[0] + Dot(x[1..], y[1..])
  }

  function Shift(x: seq<real>, m: real): seq<real> {
    seq(|x|, i requires 0 <= i < |x| => x[i] - m)
  }

  function Mean(x: seq<real>): real
    requires x != []
  {
    Sum(x) / |x| as real
  }

  /** Deviations from the mean. */
  function Deviations(x: seq<real>): (d: seq<real>)
    requires x != []
    ensures |d| == |x|
  {
    Shift(x, Mean(x))
  }

  ghost predicate SquareRoot(sqrt: real -> real) {
    forall v :: v >= 0.0 ==> sqrt(v) >= 0.0 && sqrt(v) * sqrt(v) == v
  }

  /** num / (denom_x * denom_y), or 0 when a denominator vanishes. */
  function Quotient(num: real, dx: real, dy: real): real {
    if dx == 0.0 || dy == 0.0 then 0.0 else num / Product(dx, dy)
  }

  function Product(dx: real, dy: real): (p: real)
    ensures dx != 0.0 && dy != 0.0 ==> p != 0.0
  {
    dx * dy
  }

  function Pearson(x: seq<real>, y: seq<real>, sqrt: real -> real): real
    requires |x| == |y| && x != []
  {
    var a, b := Deviations(x), Deviations(y);
    Quotient(Dot(a, b), sqrt(Dot(a, a)), sqrt(Dot(b, b)))
  }

  function Rho(xs: seq<real>, ys: seq<real>, sqrt: real -> real): real {
    if |xs| != |ys| || |xs| < 2 then 0.0 else Pearson(Ranks(xs), Ranks(ys), sqrt)
  }

  /** sorted(range(len(s)), key=...): stable insertion. */
  function SortIndex(s: seq<real>, n: nat): seq<nat>
    requires n <= |s|
  {
    if n == 0 then [] else InsertIndex(s, SortIndex(s, n - 1), n - 1)
  }

  function InsertIndex(s: seq<real>, idx: seq<nat>, p: nat): seq<nat> {
    if idx == [] || p >= |s| || idx[|idx| - 1] >= |s| || s[idx[|idx| - 1]] <= s[p] then idx + [p]
    else InsertIndex(s, idx[..|idx| - 1], p) + [idx[|idx| - 1]]
  }

  /** Distinct indices below n, in order of value. */
  ghost predicate Ascends(s: seq<real>, idx: seq<nat>, n: nat)
    requires n <= |s|
  {
    && (forall i | 0 <= i < |idx| :: idx[i] < n)
    && (forall i, j | 0 <= i < j < |idx| :: idx[i] != idx[j] && s[idx[i]] <= s[idx[j]])
  }

  lemma AscendsThenLast(s: seq<real>, idx: seq<nat>, p: nat, n: nat)
    requires n <= |s| && Ascends(s, idx, n) && p < n
    requires forall i | 0 <= i < |idx| :: idx[i] != p && s[idx[i]] <= s[p]
    ensures Ascends(s, idx + [p], n)
  {}

  lemma {:induction false} InsertIndexSorts(s: seq<real>, idx: seq<nat>, p: nat)
    requires p < |s| && Ascends(s, idx, p)
    ensures var t := InsertIndex(s, idx, p);
      && |t| == |idx| + 1
      && (forall i | 0 <= i < |t| :: t[i] == p || t[i] in idx)
      && Ascends(s, t, p + 1)
    decreases |idx|
  {
    if idx != [] && s[idx[|idx| - 1]] > s[p] {
      var n := |idx| - 1;
      InsertIndexSorts(s, idx[..n], p);
      AscendsThenLast(s, InsertIndex(s, idx[..n], p), idx[n], p + 1);
    } else {
      AscendsThenLast(s, idx, p, p + 1);
    }
  }

  lemma InsertIndexAscends(s: seq<real>, idx: seq<nat>, p: nat)
    requires p < |s| && Ascends(s, idx, p)
    ensures |InsertIndex(s, idx, p)| == |idx| + 1 && Ascends(s, InsertIndex(s, idx, p), p + 1)
  {
    InsertIndexSorts(s, idx, p);
  }

  lemma {:induction false} SortIndexSorts(s: seq<real>, n: nat)
    requires n <= |s|
    ensures |SortIndex(s, n)| == n && Ascends(s, SortIndex(s, n), n)
  {
    if n > 0 {
      SortIndexSorts(s, n - 1);
      InsertIndexAscends(s, SortIndex(s, n - 1), n - 1);
    }
  }

  method SpearmanRho(xs: seq<real>, ys: seq<real>, sqrt: real -> real) returns (rho: real)
    ensures rho == Rho(xs, ys, sqrt)
    ensures |xs| != |ys| || |xs| < 2 ==> rho == 0.0
  {
    var n := |xs|;
    if n != |ys| || n < 2 {
      return 0.0;
    }
    SortIndexSorts(xs, n);
    SortIndexSorts(ys, n);
    var rx := AvgRanks(xs, SortIndex(xs, n));
    var ry := AvgRanks(ys, SortIndex(ys, n));
    var dx, dy := Deviations(rx[..]), Deviations(ry[..]);
    var num := Dot(dx, dy);
    var denomX, denomY := sqrt(Dot(dx, dx)), sqrt(Dot(dy, dy));
    rho := Quotient(num, denomX, denomY);
  }

  // ---------- Cauchy-Schwarz ----------

  lemma {:induction false} SquaresAreNonNegative(x: seq<real>)
    ensures Dot(x, x) >= 0.0
  {
    if x != [] {
      SquaresAreNonNegative(x[1..]);
    }
  }

  lemma Positive(u: real, v: real)
    ensures u > 0.0 && v > 0.0 ==> u * v > 0.0
  {}

  lemma SquareIsNonNegative(u: real)
    ensures u * u >= 0.0
    ensures u == 0.0 ==> u * u == 0.0
    ensures u != 0.0 ==> u * u > 0.0
  {}

  lemma SquareGrows(u: real, v: real)
    requires u > v >= 0.0
    ensures u * u > v * v
  {
    assert u * u - v * v == (u - v) * (u + v);
    Positive(u - v, u + v);
  }

  /** If u*u <= v*v and v >= 0 then |u| <= v. */
  lemma RootOrder(u: real, v: real)
    requires u * u <= v * v && v >= 0.0
    ensures -v <= u <= v
  {
    if u > v {
      SquareGrows(u, v);
    } else if u < -v {
      SquareGrows(-u, v);
    }
  }

  /** One more coordinate: from s*s <= p*q to (s + x*y)^2 <= (p + x*x)*(q + y*y). */
  lemma ExtendBound(s: real, p: real, q: real, x: real, y: real)
    requires p >= 0.0 && q >= 0.0 && s * s <= p * q
    ensures (s + x * y) * (s + x * y) <= (p + x * x) * (q + y * y)
  {
    var a, b := p * (y * y), q * (x * x);
    var c := s * (x * y);
    Nonneg(p, y * y);
    Nonneg(q, x * x);
    CrossTerm(s, p, q, x, y);
    assert (2.0 * c) * (2.0 * c) <= (a + b) * (a + b);
    RootOrder(2.0 * c, a + b);
    ExpandSquare(s, x * y);
    ExpandProduct(p, q, x, y);
  }

  lemma Nonneg(p: real, y: real)
    ensures p >= 0.0 && y >= 0.0 ==> p * y >= 0.0
  {}

  lemma ExpandSquare(s: real, m: real)
    ensures (s + m) * (s + m) == s * s + 2.0 * (s * m) + m * m
  {}

  lemma ExpandProduct(p: real, q: real, x: real, y: real)
    ensures (p + x * x) * (q + y * y) == p * q + p * (y * y) + q * (x * x) + (x * y) * (x * y)
  {
    var u, v := x * x, y * y;
    assert (p + u) * (q + v) == p * q + p * v + q * u + u * v;
    assert u * v == (x * y) * (x * y);
  }

  lemma CrossTerm(s: real, p: real, q: real, x: real, y: real)
    requires p >= 0.0 && q >= 0.0 && s * s <= p * q
    ensures var a, b, c := p * (y * y), q * (x * x), s * (x * y);
      (2.0 * c) * (2.0 * c) <= (a + b) * (a + b)
  {
    var a, b, c := p * (y * y), q * (x * x), s * (x * y);
    var m := (x * y) * (x * y);
    assert c * c == (s * s) * m;
    Scale(s * s, p * q, m);
    assert a * b == (p * q) * m;
    assert (a + b) * (a + b) - 4.0 * (a * b) == (a - b) * (a - b);
    SquareIsNonNegative(a - b);
  }

  lemma Scale(u: real, v: real, m: real)
    ensures u <= v && m >= 0.0 ==> u * m <= v * m
  {}

  /** Cauchy-Schwarz. */
  lemma {:induction false} CauchySchwarz(x: seq<real>, y: seq<real>)
    requires |x| == |y|
    ensures Dot(x, y) * Dot(x, y) <= Dot(x, x) * Dot(y, y)
  {
    if x == [] {
    } else {
      var s, p, q := Dot(x[1..], y[1..]), Dot(x[1..], x[1..]), Dot(y[1..], y[1..]);
      CauchySchwarz(x[1..], y[1..]);
      SquaresAreNonNegative(x[1..]);
      SquaresAreNonNegative(y[1..]);
      ExtendBound(s, p, q, x[0], y[0]);
      DotStep(x, y);
      DotStep(x, x);
      DotStep(y, y);
    }
  }

  lemma DotStep(x: seq<real>, y: seq<real>)
    ensures |x| == |y| && x != [] ==> Dot(x, y) == Dot(x[1..], y[1..]) + x[0] * y[0]
  {}

  // ---------- The bound on rho ----------

  lemma QuotientInRange(num: real, p: real)
    requires -p <= num <= p && p > 0.0
    ensures -1.0 <= num / p <= 1.0
  {
    var r := num / p;
    assert r * p == num;
    if r > 1.0 {
      Stretch(r, p);
    } else if r < -1.0 {
      Stretch(-r, p);
    }
  }

  lemma Stretch(r: real, p: real)
    requires r > 1.0 && p > 0.0
    ensures r * p > p
  {
    assert (r - 1.0) * p > 0.0;
  }

  lemma RootProduct(p: real, q: real, dx: real, dy: real)
    requires dx >= 0.0 && dy >= 0.0 && dx * dx == p && dy * dy == q
    ensures (dx * dy) * (dx * dy) == p * q && dx * dy >= 0.0
  {
    assert (dx * dy) * (dx * dy) == (dx * dx) * (dy * dy);
  }

  lemma PearsonInRange(x: seq<real>, y: seq<real>, sqrt: real -> real)
    requires SquareRoot(sqrt) && |x| == |y| && x != []
    ensures -1.0 <= Pearson(x, y, sqrt) <= 1.0
  {
    var a, b := Deviations(x), Deviations(y);
    var p, q := Dot(a, a), Dot(b, b);
    CauchySchwarz(a, b);
    SquaresAreNonNegative(a);
    SquaresAreNonNegative(b);
    var dx, dy := sqrt(p), sqrt(q);
    RootProduct(p, q, dx, dy);
    RootOrder(Dot(a, b), Product(dx, dy));
    if dx != 0.0 && dy != 0.0 {
      QuotientInRange(Dot(a, b), Product(dx, dy));
    }
  }

  /** Main result: rho lies in [-1, 1], for all inputs. */
  lemma RhoInRange(xs: seq<real>, ys: seq<real>, sqrt: real -> real)
    requires SquareRoot(sqrt)
    ensures -1.0 <= Rho(xs, ys, sqrt) <= 1.0
  {
    if |xs| == |ys| && |xs| >= 2 {
      PearsonInRange(Ranks(xs), Ranks(ys), sqrt);
    }
  }

  // ---------- Degenerate inputs ----------

  ghost predicate Constant(s: seq<real>) {
    forall i, j | 0 <= i < |s| && 0 <= j < |s| :: s[i] == s[j]
  }

  lemma {:induction false} ZerosHaveZeroSquares(x: seq<real>)
    requires forall i | 0 <= i < |x| :: x[i] == 0.0
    ensures Dot(x, x) == 0.0
  {
    if x != [] {
      ZerosHaveZeroSquares(x[1..]);
      SquareIsNonNegative(x[0]);
    }
  }

  lemma PositiveSquare(u: real)
    ensures u != 0.0 ==> Product(u, u) > 0.0
  {}

  lemma {:induction false} NonZeroShows(x: seq<real>, i: nat)
    requires i < |x| && x[i] != 0.0
    ensures Dot(x, x) > 0.0
  {
    SquaresAreNonNegative(x[1..]);
    if i == 0 {
      PositiveSquare(x[0]);
      assert Dot(x, x) == Product(x[0], x[0]) + Dot(x[1..], x[1..]);
    }
    if i > 0 {
      NonZeroShows(x[1..], i - 1);
    }
  }

  lemma {:induction false} SumOfConstant(x: seq<real>, c: real)
    requires forall i | 0 <= i < |x| :: x[i] == c
    ensures Sum(x) == |x| as real * c
  {
    if x != [] {
      SumOfConstant(x[..|x| - 1], c);
      assert |x| as real == (|x| - 1) as real + 1.0;
    }
  }

  lemma MeanOfConstant(x: seq<real>)
    requires x != [] && Constant(x)
    ensures Mean(x) == x[0]
  {
    SumOfConstant(x, x[0]);
    Cancel(|x| as real, x[0]);
  }

  lemma Cancel(n: real, c: real)
    ensures n > 0.0 ==> n * c / n == c
  {}

  /** The spread of the ranks vanishes exactly when all values are equal. */
  lemma SpreadVanishesOnConstants(s: seq<real>)
    requires s != []
    ensures var d := Deviations(Ranks(s)); Dot(d, d) == 0.0 <==> Constant(s)
  {
    var r := Ranks(s);
    var d := Deviations(r);
    if Constant(s) {
      MeanOfConstant(r);
      ZerosHaveZeroSquares(d);
    }
    if Dot(d, d) == 0.0 {
      forall i, j | 0 <= i < |s| && 0 <= j < |s|
        ensures s[i] == s[j]
      {
        if d[i] != 0.0 {
          NonZeroShows(d, i);
        }
        if d[j] != 0.0 {
          NonZeroShows(d, j);
        }
        assert r[i] == r[j];
        RankFollowsValue(s, i, j);
      }
    }
  }

  lemma Root(v: real, sqrt: real -> real)
    requires SquareRoot(sqrt) && v >= 0.0
    ensures Product(sqrt(v), sqrt(v)) == v && (sqrt(v) == 0.0 <==> v == 0.0)
  {
    var r := sqrt(v);
    assert r * r == v;
    SquareIsNonNegative(r);
  }

  /** A sequence correlates perfectly with itself exactly when it is not constant (and not
      too short); otherwise the result is 0. */
  lemma RhoOfItself(xs: seq<real>, sqrt: real -> real)
    requires SquareRoot(sqrt)
    ensures Rho(xs, xs, sqrt) == if |xs| < 2 || Constant(xs) then 0.0 else 1.0
  {
    if |xs| >= 2 {
      var d := Deviations(Ranks(xs));
      var p := Dot(d, d);
      SpreadVanishesOnConstants(xs);
      SquaresAreNonNegative(d);
      Root(p, sqrt);
      if p != 0.0 {
        Cancel(p, 1.0);
      }
    }
  }

  // ---------- What rho depends on ----------

  /** Main result: rho is unchanged by any strictly increasing re-mapping of either input. */
  lemma RhoSeesOnlyOrder(xs: seq<real>, ys: seq<real>, xs': seq<real>, ys': seq<real>, sqrt: real -> real)
    requires SameOrder(xs, xs') && SameOrder(ys, ys')
    ensures Rho(xs', ys', sqrt) == Rho(xs, ys, sqrt)
  {
    SameOrderSameRanks(xs, xs');
    SameOrderSameRanks(ys, ys');
  }

  lemma {:induction false} DotCommutes(x: seq<real>, y: seq<real>)
    requires |x| == |y|
    ensures Dot(x, y) == Dot(y, x)
  {
    if x != [] {
      DotCommutes(x[1..], y[1..]);
    }
  }

  /** Scorer and ground truth may be exchanged. */
  lemma RhoIsSymmetric(xs: seq<real>, ys: seq<real>, sqrt: real -> real)
    ensures Rho(xs, ys, sqrt) == Rho(ys, xs, sqrt)
  {
    if |xs| == |ys| && |xs| >= 2 {
      DotCommutes(Deviations(Ranks(xs)), Deviations(Ranks(ys)));
    }
  }

  lemma {:induction false} DotNegates(x: seq<real>, x': seq<real>, y: seq<real>)
    requires |x| == |x'| == |y| && forall i | 0 <= i < |x| :: x'[i] == -x[i]
    ensures Dot(x', y) == -Dot(x, y) && Dot(x', x') == Dot(x, x)
  {
    if x != [] {
      DotNegates(x[1..], x'[1..], y[1..]);
      assert x'[0] * y[0] == -(x[0] * y[0]);
      assert x'[0] * x'[0] == x[0] * x[0];
    }
  }

  lemma {:induction false} SumReflects(x: seq<real>, x': seq<real>, c: real)
    requires |x| == |x'| && forall i | 0 <= i < |x| :: x'[i] == c - x[i]
    ensures Sum(x') == |x| as real * c - Sum(x)
  {
    if x != [] {
      var n := |x| - 1;
      SumReflects(x[..n], x'[..n], c);
      assert |x| as real * c == n as real * c + c;
    }
  }

  lemma MeanReflects(n: real, c: real, s: real)
    requires n > 0.0
    ensures (n * c - s) / n == c - s / n
  {
    Cancel(n, c);
  }

  /** Reflected ranks have negated deviations. */
  lemma DeviationsNegate(r: seq<real>, r': seq<real>, c: real)
    requires |r| == |r'| && r != [] && forall i | 0 <= i < |r| :: r'[i] == c - r[i]
    ensures forall i | 0 <= i < |r| :: Deviations(r')[i] == -Deviations(r)[i]
  {
    SumReflects(r, r', c);
    MeanReflects(|r| as real, c, Sum(r));
    assert Mean(r') == c - Mean(r);
    forall i | 0 <= i < |r|
      ensures Deviations(r')[i] == -Deviations(r)[i]
    {
      assert Deviations(r)[i] == r[i] - Mean(r);
      assert Deviations(r')[i] == r'[i] - Mean(r');
    }
  }

  lemma QuotientNegates(num: real, dx: real, dy: real)
    ensures Quotient(-num, dx, dy) == -Quotient(num, dx, dy)
  {
    var p := Product(dx, dy);
    if p != 0.0 {
      assert -num / p == -(num / p);
    }
  }

  /** Reversing the order of one input flips the sign. */
  lemma RhoFlips(xs: seq<real>, xs': seq<real>, ys: seq<real>, sqrt: real -> real)
    requires OppositeOrder(xs, xs')
    ensures Rho(xs', ys, sqrt) == -Rho(xs, ys, sqrt)
  {
    if |xs| == |ys| && |xs| >= 2 {
      var r, r' := Ranks(xs), Ranks(xs');
      OppositeOrderReflectsRanks(xs, xs');
      DeviationsNegate(r, r', |xs| as real + 1.0);
      var a, a', b := Deviations(r), Deviations(r'), Deviations(Ranks(ys));
      DotNegates(a, a', b);
      QuotientNegates(Dot(a, b), sqrt(Dot(a, a)), sqrt(Dot(b, b)));
    }
  }
}
