/** Rho in closed form, and without ties. */
module SpearmanForm {
  import opened AverageRanks
  import opened Spearman

  // What the computation of bin/_eval_common/calibration_math.py comes to, in terms of the ranks alone.

  // ---------- Centred products ----------

  lemma {:induction false} SumFront(x: seq<real>)
    requires x != []
    ensures Sum(x) == x[0] + Sum(x[1..])
  {
    var n := |x| - 1;
    if n > 0 {
      SumFront(x[..n]);
      assert x[..n][1..] == x[1..][..n - 1];
    }
  }

  lemma ShiftFront(x: seq<real>, m: real)
    ensures |Shift(x, m)| == |x|
    ensures x != [] ==> Shift(x, m)[0] == x[0] - m && Shift(x, m)[1..] == Shift(x[1..], m)
  {}

  lemma ExpandShifted(a: real, b: real, m: real, k: real)
    ensures (a - m) * (b - k) == a * b - k * a - m * b + m * k
  {}

  /** sum((a - m) * (b - k)) from d = sum(a * b), s = sum(a), t = sum(b) and the length n. */
  function Centred(d: real, s: real, t: real, n: real, m: real, k: real): real {
    d - k * s - m * t + n * (m * k)
  }

  /** One more coordinate: the primed values are those with it. */
  lemma ShiftStep(a: real, b: real, d: real, s: real, t: real, n: real, m: real, k: real,
                  p: real, q: real, d': real, s': real, t': real, n': real)
    requires p == a * b && q == (a - m) * (b - k)
    requires d' == d + p && s' == a + s && t' == b + t && n' == n + 1.0
    ensures Centred(d', s', t', n', m, k) == q + Centred(d, s, t, n, m, k)
  {
    ExpandShifted(a, b, m, k);
    assert k * (a + s) == k * a + k * s && m * (b + t) == m * b + m * t;
    assert (n + 1.0) * (m * k) == n * (m * k) + m * k;
  }

  lemma {:induction false} DotOfShifted(x: seq<real>, y: seq<real>, m: real, k: real)
    requires |x| == |y|
    ensures Dot(Shift(x, m), Shift(y, k)) == Centred(Dot(x, y), Sum(x), Sum(y), |x| as real, m, k)
  {
    hide Centred, Sum, Dot, Shift;
    if x == [] {
      Nothing(m, k);
    } else {
      DotOfShifted(x[1..], y[1..], m, k);
      ShiftFront(x, m);
      ShiftFront(y, k);
      var x', y' := Shift(x, m), Shift(y, k);
      DotStep(x', y');
      DotStep(x, y);
      SumFront(x);
      SumFront(y);
      assert x'[0] * y'[0] == (x[0] - m) * (y[0] - k);
      ShiftStep(x[0], y[0], Dot(x[1..], y[1..]), Sum(x[1..]), Sum(y[1..]), |x[1..]| as real, m, k,
                x[0] * y[0], x'[0] * y'[0], Dot(x, y), Sum(x), Sum(y), |x| as real);
    }
  }

  lemma Nothing(m: real, k: real)
    ensures Dot(Shift([], m), Shift([], k)) == Centred(Dot([], []), Sum([]), Sum([]), 0.0, m, k)
  {}

  /** The middle rank of n. */
  function Middle(n: nat): real {
    (n + 1) as real / 2.0
  }

  /** n times its square: what centring takes off every product of two rankings. */
  function Centre(n: nat): real {
    n as real * (Middle(n) * Middle(n))
  }

  lemma HalfOfProduct(n: nat)
    ensures (n * (n + 1)) as real / 2.0 == n as real * Middle(n)
  {
    assert (n * (n + 1)) as real == n as real * (n + 1) as real;
  }

  lemma MeanFromSum(r: seq<real>, m: real)
    requires r != [] && Sum(r) == |r| as real * m
    ensures Mean(r) == m
  {
    hide Sum;
    Cancel(|r| as real, m);
  }

  lemma MeanOfRanks(s: seq<real>)
    requires s != []
    ensures Mean(Ranks(s)) == Middle(|s|) && Sum(Ranks(s)) == |s| as real * Middle(|s|)
  {
    hide Sum, Mean, Rank, Middle;
    RanksSum(s);
    HalfOfProduct(|s|);
    MeanFromSum(Ranks(s), Middle(|s|));
  }

  lemma Gather(n: real, h: real, d: real)
    ensures d - h * (n * h) - h * (n * h) + n * (h * h) == d - n * (h * h)
  {
    assert h * (n * h) == n * (h * h);
  }

  /** The products of centred ranks, without centring. */
  function Spread(r: seq<real>, t: seq<real>): real
    requires |r| == |t|
  {
    Dot(r, t) - Centre(|r|)
  }

  lemma CentredProduct(r: seq<real>, t: seq<real>)
    requires |r| == |t| && r != [] && Mean(r) == Mean(t) == Middle(|r|)
    requires Sum(r) == Sum(t) == |r| as real * Middle(|r|)
    ensures Dot(Deviations(r), Deviations(t)) == Spread(r, t)
  {
    hide Middle, Sum, Mean, Dot;
    var h := Middle(|r|);
    DotOfShifted(r, t, h, h);
    Gather(|r| as real, h, Dot(r, t));
  }

  // ---------- The closed form ----------

  lemma DivideAndMultiply(num: real, p: real, q: real)
    requires p != 0.0 && q == num / p
    ensures q * p == num
  {}

  lemma NonZeroProduct(dx: real, dy: real)
    ensures dx != 0.0 && dy != 0.0 ==> Product(dx, dy) != 0.0
  {}

  lemma QuotientTimes(num: real, dx: real, dy: real)
    ensures dx != 0.0 && dy != 0.0 ==> Quotient(num, dx, dy) * Product(dx, dy) == num
    ensures dx == 0.0 || dy == 0.0 ==> Quotient(num, dx, dy) == 0.0
  {
    if dx != 0.0 && dy != 0.0 {
      NonZeroProduct(dx, dy);
      var p := Product(dx, dy);
      var q := Quotient(num, dx, dy);
      assert q == num / p;
      DivideAndMultiply(num, p, q);
      assert q * p == num;
    }
  }

  lemma ZeroBound(c: real, p: real, q: real)
    requires c * c <= p * q && (p == 0.0 || q == 0.0)
    ensures c == 0.0
  {
    assert p * q == 0.0;
    PositiveSquare(c);
  }

  /** The correlation of any two sequences, without the division. */
  lemma PearsonTimesRoots(x: seq<real>, y: seq<real>, sqrt: real -> real) returns (u: real, v: real)
    requires SquareRoot(sqrt) && |x| == |y| && x != []
    ensures u >= 0.0 && u * u == Dot(Deviations(x), Deviations(x))
    ensures v >= 0.0 && v * v == Dot(Deviations(y), Deviations(y))
    ensures Pearson(x, y, sqrt) * (u * v) == Dot(Deviations(x), Deviations(y))
    ensures u == 0.0 || v == 0.0 ==> Pearson(x, y, sqrt) == 0.0
  {
    hide Deviations, Dot, Quotient;
    var a, b := Deviations(x), Deviations(y);
    SquaresAreNonNegative(a);
    SquaresAreNonNegative(b);
    u, v := sqrt(Dot(a, a)), sqrt(Dot(b, b));
    QuotientTimes(Dot(a, b), u, v);
    if u == 0.0 || v == 0.0 {
      CauchySchwarz(a, b);
      ZeroBound(Dot(a, b), Dot(a, a), Dot(b, b));
    }
  }

  /** Main result, ties or not: rho times the two roots is the spread of the ranks against each other, each root's
      square is the spread of one ranking against itself, and rho is 0 where a root vanishes. */
  lemma RhoInClosedForm(xs: seq<real>, ys: seq<real>, sqrt: real -> real) returns (u: real, v: real)
    requires SquareRoot(sqrt) && |xs| == |ys| >= 2
    ensures u >= 0.0 && u * u == Spread(Ranks(xs), Ranks(xs))
    ensures v >= 0.0 && v * v == Spread(Ranks(ys), Ranks(ys))
    ensures Rho(xs, ys, sqrt) * (u * v) == Spread(Ranks(xs), Ranks(ys))
    ensures u == 0.0 || v == 0.0 ==> Rho(xs, ys, sqrt) == 0.0
  {
    hide Spread, Middle, Deviations, Dot, Pearson, Mean, Sum, Rank;
    MeanOfRanks(xs);
    MeanOfRanks(ys);
    CentredProduct(Ranks(xs), Ranks(ys));
    CentredProduct(Ranks(xs), Ranks(xs));
    CentredProduct(Ranks(ys), Ranks(ys));
    u, v := PearsonTimesRoots(Ranks(xs), Ranks(ys), sqrt);
  }

  // ---------- Squares of ranks without ties ----------

  ghost predicate NoTies(s: seq<real>) {
    forall i, j | 0 <= i < j < |s| :: s[i] != s[j]
  }

  /** Sum of the squared places, counted in s, of the values of t. */
  function SquaredPlaces(t: seq<real>, s: seq<real>): nat {
    if t == [] then 0
    else SquaredPlaces(t[..|t| - 1], s) + (Below(s, t[|t| - 1]) + 1) * (Below(s, t[|t| - 1]) + 1)
  }

  lemma {:induction false} SquaredPlacesSplit(u: seq<real>, m: real, w: seq<real>, s: seq<real>)
    ensures SquaredPlaces(u + [m] + w, s) == SquaredPlaces(u + w, s) + (Below(s, m) + 1) * (Below(s, m) + 1)
    decreases |w|
  {
    if w == [] {
      assert u + [m] + w == u + [m] && (u + [m])[..|u|] == u && u + w == u;
    } else {
      var k := |w| - 1;
      SquaredPlacesSplit(u, m, w[..k], s);
      assert (u + [m] + w)[..|u| + 1 + k] == u + [m] + w[..k];
      assert (u + w)[..|u| + k] == u + w[..k];
    }
  }

  lemma {:induction false} BelowWithout(u: seq<real>, m: real, w: seq<real>, v: real)
    ensures Below(u + [m] + w, v) == Below(u + w, v) + (if m < v then 1 else 0)
    decreases |w|
  {
    if w == [] {
      assert u + [m] + w == u + [m] && (u + [m])[..|u|] == u && u + w == u;
    } else {
      var k := |w| - 1;
      BelowWithout(u, m, w[..k], v);
      assert (u + [m] + w)[..|u| + 1 + k] == u + [m] + w[..k];
      assert (u + w)[..|u| + k] == u + w[..k];
    }
  }

  lemma {:induction false} AllBelow(s: seq<real>, v: real)
    requires forall i | 0 <= i < |s| :: s[i] < v
    ensures Below(s, v) == |s|
  {
    if s != [] {
      AllBelow(s[..|s| - 1], v);
    }
  }

  lemma {:induction false} SamePlaces(t: seq<real>, s: seq<real>, s': seq<real>)
    requires forall i | 0 <= i < |t| :: Below(s, t[i]) == Below(s', t[i])
    ensures SquaredPlaces(t, s) == SquaredPlaces(t, s')
  {
    if t != [] {
      SamePlaces(t[..|t| - 1], s, s');
    }
  }

  lemma {:induction false} Greatest(s: seq<real>) returns (k: nat)
    requires s != []
    ensures k < |s| && forall i | 0 <= i < |s| :: s[i] <= s[k]
  {
    var n := |s| - 1;
    if n == 0 {
      k := 0;
    } else {
      k := Greatest(s[..n]);
      if s[k] < s[n] {
        assert forall i | 0 <= i < n :: s[i] == s[..n][i];
        k := n;
      } else {
        assert forall i | 0 <= i < n :: s[i] == s[..n][i];
      }
    }
  }

  lemma NextPyramid(n: nat)
    ensures n >= 1 ==> (n - 1) * n * (2 * n - 1) + 6 * (n * n) == n * (n + 1) * (2 * n + 1)
  {}

  /** Without ties the places are 1 to n, whatever their order. */
  lemma {:induction false} SquaresWithoutTies(s: seq<real>)
    requires NoTies(s)
    ensures 6 * SquaredPlaces(s, s) == |s| * (|s| + 1) * (2 * |s| + 1)
    decreases |s|
  {
    if s != [] {
      var k := Greatest(s);
      var u, m, w := s[..k], s[k], s[k + 1..];
      var rest := u + w;
      assert s == u + [m] + w;
      forall i | 0 <= i < |rest|
        ensures rest[i] < m && rest[i] == s[if i < k then i else i + 1]
      {}
      assert NoTies(rest);
      SquaresWithoutTies(rest);
      forall i | 0 <= i < |rest|
        ensures Below(s, rest[i]) == Below(rest, rest[i])
      {
        BelowWithout(u, m, w, rest[i]);
      }
      SamePlaces(rest, s, rest);
      BelowWithout(u, m, w, m);
      AllBelow(rest, m);
      SquaredPlacesSplit(u, m, w, s);
      NextPyramid(|s|);
    }
  }

  lemma {:induction false} DotSnoc(x: seq<real>, y: seq<real>)
    requires |x| == |y| && x != []
    ensures Dot(x, y) == Dot(x[..|x| - 1], y[..|y| - 1]) + Product(x[|x| - 1], y[|y| - 1])
  {
    var n := |x| - 1;
    if n > 0 {
      DotSnoc(x[1..], y[1..]);
      assert x[..n][1..] == x[1..][..n - 1] && y[..n][1..] == y[1..][..n - 1];
    }
  }

  lemma SquareAsReal(b: nat)
    ensures (b * b) as real == b as real * b as real
  {}

  lemma PlacesStep(t: seq<real>, s: seq<real>, d: real, r: real)
    requires t != [] && r == (Below(s, t[|t| - 1]) + 1) as real && d == SquaredPlaces(t[..|t| - 1], s) as real
    ensures SquaredPlaces(t, s) as real == d + Product(r, r)
  {
    hide Below;
    SquareAsReal(Below(s, t[|t| - 1]) + 1);
  }

  /** r lists the places, counted in s, of the values of t. */
  ghost predicate PlacesIn(r: seq<real>, t: seq<real>, s: seq<real>) {
    |r| == |t| && forall p | 0 <= p < |t| :: r[p] == (Below(s, t[p]) + 1) as real
  }

  lemma PlacesBefore(r: seq<real>, t: seq<real>, s: seq<real>)
    requires PlacesIn(r, t, s) && t != []
    ensures PlacesIn(r[..|t| - 1], t[..|t| - 1], s) && r[|t| - 1] == (Below(s, t[|t| - 1]) + 1) as real
  {
    hide Below;
  }

  lemma {:induction false} DotOfPlaces(t: seq<real>, s: seq<real>, r: seq<real>)
    requires PlacesIn(r, t, s)
    ensures Dot(r, r) == SquaredPlaces(t, s) as real
  {
    if t != [] {
      var n := |t| - 1;
      PlacesBefore(r, t, s);
      assert |r| == |t|;
      hide *;
      DotOfPlaces(t[..n], s, r[..n]);
      DotSnoc(r, r);
      PlacesStep(t, s, Dot(r[..n], r[..n]), r[n]);
    }
  }

  lemma RankWithoutTies(s: seq<real>, p: nat)
    requires NoTies(s) && p < |s|
    ensures Ranks(s)[p] == (Below(s, s[p]) + 1) as real
  {
    EqualIsSize(s, s[p]);
    assert EqualSet(s, s[p]) == {p};
  }

  lemma SquaredRanks(s: seq<real>)
    requires NoTies(s)
    ensures 6.0 * Dot(Ranks(s), Ranks(s)) == (|s| * (|s| + 1) * (2 * |s| + 1)) as real
  {
    forall p | 0 <= p < |s|
      ensures Ranks(s)[p] == (Below(s, s[p]) + 1) as real
    {
      RankWithoutTies(s, p);
    }
    assert PlacesIn(Ranks(s), s, s);
    DotOfPlaces(s, s, Ranks(s));
    SquaresWithoutTies(s);
  }

  // ---------- The classical formula ----------

  /** Sum of the squared differences, Product(d, d) being d * d. */
  function SquaredDifferences(x: seq<real>, y: seq<real>): real
    requires |x| == |y|
  {
    if x == [] then 0.0
    else
      var d := x[|x| - 1] - y[|y| - 1];
      SquaredDifferences(x[..|x| - 1], y[..|y| - 1]) + Product(d, d)
  }

  lemma SquareOfDifference(a: real, b: real)
    ensures Product(a - b, a - b) == Product(a, a) + Product(b, b) - 2.0 * Product(a, b)
  {}

  lemma {:induction false} DifferencesExpand(x: seq<real>, y: seq<real>)
    requires |x| == |y|
    ensures SquaredDifferences(x, y) == Dot(x, x) + Dot(y, y) - 2.0 * Dot(x, y)
  {
    if x != [] {
      var n := |x| - 1;
      DifferencesExpand(x[..n], y[..n]);
      hide Dot, Product;
      DotSnoc(x, x);
      DotSnoc(y, y);
      DotSnoc(x, y);
      SquareOfDifference(x[n], y[n]);
    }
  }

  /** n(n^2 - 1)/12: the spread of any ranking without ties. */
  function Variance(n: nat): real {
    (n * (n * n - 1)) as real / 12.0
  }

  lemma ProductAsReal(a: nat, b: nat)
    ensures (a * b) as real == a as real * b as real
  {}

  function PyramidOf(m: real): real {
    m * (m + 1.0) * (2.0 * m + 1.0)
  }

  function CubeOf(m: real): real {
    m * (m * m - 1.0)
  }

  lemma PyramidAsReal(n: nat)
    ensures (n * (n + 1) * (2 * n + 1)) as real == PyramidOf(n as real)
  {
    ProductAsReal(n * (n + 1), 2 * n + 1);
    ProductAsReal(n, n + 1);
  }

  lemma CubeAsReal(n: nat)
    ensures Variance(n) == CubeOf(n as real) / 12.0
  {
    if n >= 1 {
      ProductAsReal(n, n * n - 1);
      ProductAsReal(n, n);
    }
  }

  lemma CentreInFull(n: nat)
    ensures Centre(n) == n as real * ((n as real + 1.0) / 2.0 * ((n as real + 1.0) / 2.0))
  {}

  lemma PyramidLessCentre(n: nat, q: real)
    requires 6.0 * q == PyramidOf(n as real)
    ensures q - Centre(n) == CubeOf(n as real) / 12.0
  {
    CentreInFull(n);
    hide Centre;
    Pyramid(n as real, q);
  }

  lemma VarianceOfPlaces(n: nat, q: real)
    requires 6.0 * q == (n * (n + 1) * (2 * n + 1)) as real
    ensures q - Centre(n) == Variance(n)
  {
    PyramidAsReal(n);
    CubeAsReal(n);
    hide *;
    PyramidLessCentre(n, q);
  }

  lemma Pyramid(m: real, q: real)
    requires 6.0 * q == m * (m + 1.0) * (2.0 * m + 1.0)
    ensures q - m * ((m + 1.0) / 2.0 * ((m + 1.0) / 2.0)) == m * (m * m - 1.0) / 12.0
  {
    var h := (m + 1.0) / 2.0;
    assert m + 1.0 == 2.0 * h;
    assert m * (m + 1.0) * (2.0 * m + 1.0) == 2.0 * (m * h) * (2.0 * m + 1.0);
    assert m * (m * m - 1.0) == m * ((m + 1.0) * (m - 1.0));
    assert m * ((m + 1.0) * (m - 1.0)) == 2.0 * (m * h) * (m - 1.0);
    assert m * (h * h) == (m * h) * h;
    assert (m * h) * (2.0 * m + 1.0) / 3.0 - (m * h) * h == (m * h) * ((2.0 * m + 1.0) / 3.0 - h);
  }

  lemma SpreadWithoutTies(s: seq<real>)
    requires NoTies(s)
    ensures Spread(Ranks(s), Ranks(s)) == Variance(|s|)
  {
    hide Dot, Rank, Centre, Variance;
    SquaredRanks(s);
    VarianceOfPlaces(|s|, Dot(Ranks(s), Ranks(s)));
  }

  lemma VarianceIsPositive(n: nat)
    ensures n >= 2 ==> n * (n * n - 1) > 0 && Variance(n) > 0.0
  {
    if n >= 2 {
      assert n * n >= 2 * n;
      assert n * n - 1 >= 1;
    }
  }

  lemma SameRoots(u: real, v: real, w: real)
    requires u >= 0.0 && v >= 0.0 && u * u == w && v * v == w
    ensures u * v == w
  {
    RootOrder(u, v);
    RootOrder(v, u);
  }

  lemma DivideBy(p: real, x: real, q: real)
    requires p > 0.0 && p * x == q
    ensures q / p == x
  {
    Cancel(p, x);
  }

  lemma Solve(rho: real, w: real, d: real, p: real)
    requires w > 0.0 && rho * w == w - d / 2.0 && p == 12.0 * w
    ensures 6.0 * d / p == 1.0 - rho
  {
    assert p * (1.0 - rho) == p - 12.0 * (rho * w);
    DivideBy(p, 1.0 - rho, 6.0 * d);
  }

  /** Main result: without ties rho is 1 - 6*D/(n*(n*n - 1)), D the sum of squared rank differences. */
  lemma RhoWithoutTies(xs: seq<real>, ys: seq<real>, sqrt: real -> real)
    requires SquareRoot(sqrt) && |xs| == |ys| >= 2 && NoTies(xs) && NoTies(ys)
    ensures var n := |xs|;
      && n * (n * n - 1) > 0
      && Rho(xs, ys, sqrt) == 1.0 - 6.0 * SquaredDifferences(Ranks(xs), Ranks(ys)) / (n * (n * n - 1)) as real
  {
    hide Rho, SquaredDifferences, Dot, Rank, NoTies, SquareRoot, Centre;
    var n := |xs|;
    var rx, ry := Ranks(xs), Ranks(ys);
    SpreadWithoutTies(xs);
    SpreadWithoutTies(ys);
    VarianceIsPositive(n);
    DifferencesExpand(rx, ry);
    var u, v := RhoInClosedForm(xs, ys, sqrt);
    SameRoots(u, v, Variance(n));
    Solve(Rho(xs, ys, sqrt), Variance(n), SquaredDifferences(rx, ry), (n * (n * n - 1)) as real);
  }
}
