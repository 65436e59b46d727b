/** Average ranks for ties. */
module AverageRanks {
  // The inner _avg_ranks of bin/_eval_common/calibration_math.py.

  // ---------- The counting definition ----------

  function Below(s: seq<real>, v: real): nat {
    if s == [] then 0 else Below(s[..|s| - 1], v) + (if s[|s| - 1] < v then 1 else 0)
  }

  function Equal(s: seq<real>, v: real): nat {
    if s == [] then 0 else Equal(s[..|s| - 1], v) + (if s[|s| - 1] == v then 1 else 0)
  }

  function Above(s: seq<real>, v: real): nat {
    if s == [] then 0 else Above(s[..|s| - 1], v) + (if s[|s| - 1] > v then 1 else 0)
  }

  /** Twice the rank of v among s: the values below it, and half of the tie it is in. */
  function TwiceRank(s: seq<real>, v: real): nat {
    2 * Below(s, v) + Equal(s, v) + 1
  }

  function Rank(s: seq<real>, v: real): real {
    TwiceRank(s, v) as real / 2.0
  }

  function Ranks(s: seq<real>): seq<real> {
    seq(|s|, p requires 0 <= p < |s| => Rank(s, s[p]))
  }

  // ---------- Counting ----------

  ghost function BelowSet(s: seq<real>, v: real): set<nat> {
    set p: nat | p < |s| && s[p] < v
  }

  ghost function EqualSet(s: seq<real>, v: real): set<nat> {
    set p: nat | p < |s| && s[p] == v
  }

  lemma {:induction false} BelowIsSize(s: seq<real>, v: real)
    ensures Below(s, v) == |BelowSet(s, v)|
  {
    if s == [] {
      assert BelowSet(s, v) == {};
    } else {
      var n := |s| - 1;
      BelowIsSize(s[..n], v);
      assert BelowSet(s, v) == BelowSet(s[..n], v) + if s[n] < v then {n} else {};
    }
  }

  lemma {:induction false} EqualIsSize(s: seq<real>, v: real)
    ensures Equal(s, v) == |EqualSet(s, v)|
  {
    if s == [] {
      assert EqualSet(s, v) == {};
    } else {
      var n := |s| - 1;
      EqualIsSize(s[..n], v);
      assert EqualSet(s, v) == EqualSet(s[..n], v) + if s[n] == v then {n} else {};
    }
  }

  lemma CountsAreSizes(s: seq<real>, v: real)
    ensures Below(s, v) == |BelowSet(s, v)| && Equal(s, v) == |EqualSet(s, v)|
  {
    BelowIsSize(s, v);
    EqualIsSize(s, v);
  }

  lemma {:induction false} CountsPartition(s: seq<real>, v: real)
    ensures Below(s, v) + Equal(s, v) + Above(s, v) == |s|
  {
    if s != [] {
      CountsPartition(s[..|s| - 1], v);
    }
  }

  lemma {:induction false} RanksIncrease(s: seq<real>, v: real, w: real)
    requires v < w
    ensures Below(s, v) + Equal(s, v) <= Below(s, w)
  {
    if s != [] {
      RanksIncrease(s[..|s| - 1], v, w);
    }
  }

  lemma {:induction false} OccursOnce(s: seq<real>, v: real)
    requires v in s
    ensures Equal(s, v) >= 1
  {
    var n := |s| - 1;
    assert s == s[..n] + [s[n]];
    if s[n] != v {
      OccursOnce(s[..n], v);
    }
  }

  // ---------- The sorted index ----------

  /** idx lists every position of s once. */
  ghost predicate Permutation(s: seq<real>, idx: seq<nat>) {
    && |idx| == |s|
    && (forall i | 0 <= i < |idx| :: idx[i] < |s|)
    && (forall i, j | 0 <= i < j < |idx| :: idx[i] != idx[j])
  }

  /** idx is a result sorted(range(len(s)), key=s.__getitem__) could have, ties in any order. */
  ghost predicate SortsBy(s: seq<real>, idx: seq<nat>) {
    Permutation(s, idx) && forall i, j | 0 <= i < j < |idx| :: s[idx[i]] <= s[idx[j]]
  }

  ghost function Image(idx: seq<nat>, i: nat, j: nat): set<nat>
    requires i <= j <= |idx|
  {
    set k | i <= k < j :: idx[k]
  }

  lemma {:induction false} ImageSize(idx: seq<nat>, i: nat, j: nat)
    requires i <= j <= |idx| && forall a, b | 0 <= a < b < |idx| :: idx[a] != idx[b]
    ensures |Image(idx, i, j)| == j - i
    decreases j
  {
    if i == j {
      assert Image(idx, i, j) == {};
    } else {
      ImageSize(idx, i, j - 1);
      assert Image(idx, i, j) == Image(idx, i, j - 1) + {idx[j - 1]};
      assert idx[j - 1] !in Image(idx, i, j - 1);
    }
  }

  ghost function Positions(n: nat): set<nat> {
    if n == 0 then {} else Positions(n - 1) + {n - 1}
  }

  lemma {:induction false} PositionsSize(n: nat)
    ensures |Positions(n)| == n && forall p: nat :: p in Positions(n) <==> p < n
  {
    if n > 0 {
      PositionsSize(n - 1);
    }
  }

  lemma SubsetOfSameSize<T>(a: set<T>, b: set<T>)
    requires a <= b && |a| == |b|
    ensures a == b
  {
    assert |b - a| == |b| - |a|;
    assert b == a + (b - a);
  }

  /** A permutation reaches every position. */
  lemma PermutationIsOnto(s: seq<real>, idx: seq<nat>, p: nat)
    requires Permutation(s, idx) && p < |s|
    ensures exists k :: 0 <= k < |idx| && idx[k] == p
  {
    ImageSize(idx, 0, |idx|);
    PositionsSize(|s|);
    SubsetOfSameSize(Image(idx, 0, |idx|), Positions(|s|));
    assert p in Positions(|s|);
  }

  /** A maximal run i..j of equal values in the sorted index is a whole tie: i values are
      below it and it has j - i members. */
  lemma TieCounts(s: seq<real>, idx: seq<nat>, i: nat, j: nat)
    requires SortsBy(s, idx) && i < j <= |idx|
    requires forall k | i <= k < j :: s[idx[k]] == s[idx[i]]
    requires forall k | 0 <= k < i :: s[idx[k]] < s[idx[i]]
    requires forall k | j <= k < |idx| :: s[idx[k]] > s[idx[i]]
    ensures Below(s, s[idx[i]]) == i && Equal(s, s[idx[i]]) == j - i
  {
    var v := s[idx[i]];
    CountsAreSizes(s, v);
    ImageSize(idx, 0, i);
    ImageSize(idx, i, j);
    forall p: nat | p < |s|
      ensures p in BelowSet(s, v) <==> p in Image(idx, 0, i)
      ensures p in EqualSet(s, v) <==> p in Image(idx, i, j)
    {
      PermutationIsOnto(s, idx, p);
    }
    assert BelowSet(s, v) == Image(idx, 0, i);
    assert EqualSet(s, v) == Image(idx, i, j);
  }

  // ---------- The loops ----------

  /** _avg_ranks, for any order sorted() may give to ties. */
  method AvgRanks(s: seq<real>, idx: seq<nat>) returns (ranks: array<real>)
    requires SortsBy(s, idx)
    ensures fresh(ranks) && ranks[..] == Ranks(s)
  {
    var n := |s|;
    ranks := new real[n](_ => 0.0);
    var i := 0;
    while i < n
      invariant 0 <= i <= n
      invariant forall a, b | 0 <= a < i <= b < n :: s[idx[a]] < s[idx[b]]
      invariant forall a | 0 <= a < i :: ranks[idx[a]] == Rank(s, s[idx[a]])
    {
      var j := i;
      while j + 1 < n && s[idx[j + 1]] == s[idx[i]]
        invariant i <= j < n
        invariant forall k | i <= k <= j :: s[idx[k]] == s[idx[i]]
      {
        j := j + 1;
      }
      assert j + 1 < n ==> s[idx[j + 1]] > s[idx[i]];
      TieCounts(s, idx, i, j + 1);
      var avg := (i + j) as real / 2.0 + 1.0;
      assert avg == Rank(s, s[idx[i]]);
      for k := i to j + 1
        invariant forall a | 0 <= a < k :: ranks[idx[a]] == Rank(s, s[idx[a]])
      {
        ranks[idx[k]] := avg;
      }
      i := j + 1;
    }
    forall p | 0 <= p < n
      ensures ranks[p] == Rank(s, s[p])
    {
      PermutationIsOnto(s, idx, p);
    }
  }

  // ---------- What ranks promise ----------

  /** Equal values share a rank; a greater value has a strictly greater one. */
  lemma RankFollowsValue(s: seq<real>, p: nat, q: nat)
    requires p < |s| && q < |s|
    ensures s[p] == s[q] <==> Rank(s, s[p]) == Rank(s, s[q])
    ensures s[p] < s[q] <==> Rank(s, s[p]) < Rank(s, s[q])
  {
    OccursOnce(s, s[p]);
    OccursOnce(s, s[q]);
    if s[p] < s[q] {
      RanksIncrease(s, s[p], s[q]);
    } else if s[q] < s[p] {
      RanksIncrease(s, s[q], s[p]);
    }
  }

  /** Sum of 2 * Below + Equal over the first n values of t, counted in s. */
  function Doubles(s: seq<real>, t: seq<real>): nat {
    if t == [] then 0
    else Doubles(s, t[..|t| - 1]) + 2 * Below(s, t[|t| - 1]) + Equal(s, t[|t| - 1])
  }

  lemma {:induction false} DoublesSnoc(s: seq<real>, x: real, t: seq<real>)
    ensures Doubles(s + [x], t) == Doubles(s, t) + 2 * Above(t, x) + Equal(t, x)
    decreases |t|
  {
    if t != [] {
      var n := |t| - 1;
      DoublesSnoc(s, x, t[..n]);
      assert (s + [x])[..|s|] == s;
    }
  }

  lemma {:induction false} DoublesAreSquare(s: seq<real>)
    ensures Doubles(s, s) == |s| * |s|
  {
    if s != [] {
      var n := |s| - 1;
      var p, x := s[..n], s[n];
      assert s == p + [x];
      DoublesAreSquare(p);
      DoublesSnoc(p, x, p);
      CountsPartition(p, x);
      NextSquare(n);
    }
  }

  lemma NextSquare(n: nat)
    ensures n * n + 2 * n + 1 == (n + 1) * (n + 1)
  {}

  function Sum(s: seq<real>): real {
    if s == [] then 0.0 else Sum(s[..|s| - 1]) + s[|s| - 1]
  }

  lemma {:induction false} SumOfRanks(s: seq<real>, t: seq<real>, r: seq<real>)
    requires |t| == |r| && forall p | 0 <= p < |t| :: r[p] == Rank(s, t[p])
    ensures Sum(r) == (Doubles(s, t) + |t|) as real / 2.0
  {
    if t != [] {
      SumOfRanks(s, t[..|t| - 1], r[..|t| - 1]);
    }
  }

  /** Whatever the ties, the ranks sum to n(n+1)/2. */
  lemma RanksSum(s: seq<real>)
    ensures Sum(Ranks(s)) == (|s| * (|s| + 1)) as real / 2.0
  {
    SumOfRanks(s, s, Ranks(s));
    DoublesAreSquare(s);
    Factor(|s|);
  }

  lemma Factor(n: nat)
    ensures n * n + n == n * (n + 1)
  {}

  // ---------- Ranks see only the order ----------

  ghost predicate SameOrder(s: seq<real>, t: seq<real>) {
    |s| == |t| && forall p, q | 0 <= p < |s| && 0 <= q < |s| :: s[p] < s[q] <==> t[p] < t[q]
  }

  ghost predicate OppositeOrder(s: seq<real>, t: seq<real>) {
    |s| == |t| && forall p, q | 0 <= p < |s| && 0 <= q < |s| :: s[p] < s[q] <==> t[p] > t[q]
  }

  /** A strictly increasing re-mapping leaves every rank alone. */
  lemma SameOrderSameRanks(s: seq<real>, t: seq<real>)
    requires SameOrder(s, t)
    ensures Ranks(s) == Ranks(t)
  {
    forall p | 0 <= p < |s|
      ensures Rank(s, s[p]) == Rank(t, t[p])
    {
      CountsAreSizes(s, s[p]);
      CountsAreSizes(t, t[p]);
      assert BelowSet(s, s[p]) == BelowSet(t, t[p]);
      forall q | 0 <= q < |s|
        ensures s[q] == s[p] <==> t[q] == t[p]
      {
        assert !(s[p] < s[q]) <==> !(t[p] < t[q]);
      }
      assert EqualSet(s, s[p]) == EqualSet(t, t[p]);
    }
  }

  lemma {:induction false} AboveIsBelow(s: seq<real>, t: seq<real>, v: real, w: real)
    requires |s| == |t|
    requires forall q | 0 <= q < |s| :: (s[q] < v <==> t[q] > w) && (s[q] == v <==> t[q] == w)
    ensures Below(s, v) == Above(t, w) && Equal(s, v) == Equal(t, w)
  {
    if s != [] {
      AboveIsBelow(s[..|s| - 1], t[..|s| - 1], v, w);
    }
  }

  /** Reversing the order reflects every rank in the middle. */
  lemma OppositeOrderReflectsRanks(s: seq<real>, t: seq<real>)
    requires OppositeOrder(s, t)
    ensures forall p | 0 <= p < |s| :: Ranks(t)[p] == |s| as real + 1.0 - Ranks(s)[p]
  {
    forall p | 0 <= p < |s|
      ensures Rank(t, t[p]) == |s| as real + 1.0 - Rank(s, s[p])
    {
      forall q | 0 <= q < |s|
        ensures (s[q] < s[p] <==> t[q] > t[p]) && (s[q] == s[p] <==> t[q] == t[p])
      {
        assert !(s[p] < s[q]) <==> !(t[p] > t[q]);
      }
      AboveIsBelow(s, t, s[p], t[p]);
      CountsPartition(t, t[p]);
    }
  }
}
