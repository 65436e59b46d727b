/** The three-way merge of rows. */
module LogMerge {
  import opened Optional
  import opened Json
  import opened LogRows

  // The code is bin/_git_merge_jsonl/merge.py. The reference says which row survives for each key. The loops that
  // build insertion-ordered dictionaries are proved to compute it, and the merge algebra the package promises is
  // then a matter of the reference alone.

  // ---------- The reference ----------

  /** Completeness of the most complete row with key k; -1 when there is none. */
  function MaxAt(s: seq<Row>, k: Key): int {
    if s == [] then -1
    else
      var m := MaxAt(s[1..], k);
      if KeyOf(s[0]) == k && NonNull(s[0]) > m then NonNull(s[0]) else m
  }

  /** First row of s with key k and completeness n that lies in `side`. */
  function FirstIn(s: seq<Row>, k: Key, n: int, side: set<Row>): Option<Row> {
    if s == [] then None
    else if KeyOf(s[0]) == k && NonNull(s[0]) == n && s[0] in side then Some(s[0])
    else FirstIn(s[1..], k, n, side)
  }

  function Elements(s: seq<Row>): set<Row> {
    set r | r in s
  }

  /** The survivor for key k: a most complete row; among those the first, in the order
      ancestor, ours, theirs, that ours holds; failing that the first at all. */
  function Survivor(o: seq<Row>, a: seq<Row>, b: seq<Row>, k: Key): Option<Row> {
    var all := o + a + b;
    var n := MaxAt(all, k);
    var ours := FirstIn(all, k, n, Elements(a));
    if ours.Some? then ours else FirstIn(all, k, n, Elements(all))
  }

  /** m is the merge of a and b over the ancestor o. */
  ghost predicate IsMerge(o: seq<Row>, a: seq<Row>, b: seq<Row>, m: seq<Row>) {
    && StrictlySorted(m)
    && forall r {:trigger r in m} :: r in m <==> Survivor(o, a, b, KeyOf(r)) == Some(r)
  }

  lemma MergeIsUnique(o: seq<Row>, a: seq<Row>, b: seq<Row>, m: seq<Row>, m': seq<Row>)
    requires IsMerge(o, a, b, m) && IsMerge(o, a, b, m')
    ensures m == m'
  {
    SortedIsUnique(m, m');
  }

  // ---------- Searching concatenations ----------

  lemma {:induction false} MaxConcat(x: seq<Row>, y: seq<Row>, k: Key)
    ensures MaxAt(x + y, k) == if MaxAt(x, k) >= MaxAt(y, k) then MaxAt(x, k) else MaxAt(y, k)
    decreases |x|
  {
    MaxAtLeast(y, k);
    if x == [] {
      assert x + y == y;
    } else {
      assert (x + y)[1..] == x[1..] + y;
      MaxConcat(x[1..], y, k);
    }
  }

  lemma {:induction false} MaxAtLeast(x: seq<Row>, k: Key)
    ensures MaxAt(x, k) >= -1
  {
    if x != [] {
      MaxAtLeast(x[1..], k);
    }
  }

  lemma {:induction false} FirstConcat(x: seq<Row>, y: seq<Row>, k: Key, n: int, side: set<Row>)
    ensures FirstIn(x + y, k, n, side) ==
            if FirstIn(x, k, n, side).Some? then FirstIn(x, k, n, side) else FirstIn(y, k, n, side)
    decreases |x|
  {
    if x == [] {
      assert x + y == y;
    } else {
      assert (x + y)[1..] == x[1..] + y;
      FirstConcat(x[1..], y, k, n, side);
    }
  }

  /** What a search finds, and when it finds something. */
  lemma {:induction false} FirstFinds(s: seq<Row>, k: Key, n: int, side: set<Row>)
    ensures var f := FirstIn(s, k, n, side);
      f.Some? ==> f.value in s && f.value in side && KeyOf(f.value) == k && NonNull(f.value) == n
    ensures forall r | r in s && r in side && KeyOf(r) == k && NonNull(r) == n :: FirstIn(s, k, n, side).Some?
  {
    if s != [] {
      FirstFinds(s[1..], k, n, side);
      assert s == [s[0]] + s[1..];
    }
  }

  lemma {:induction false} MaxBounds(s: seq<Row>, k: Key)
    ensures forall r | r in s && KeyOf(r) == k :: NonNull(r) <= MaxAt(s, k)
    ensures MaxAt(s, k) >= 0 ==> exists r :: r in s && KeyOf(r) == k && NonNull(r) == MaxAt(s, k)
    ensures MaxAt(s, k) >= -1
  {
    if s != [] {
      MaxBounds(s[1..], k);
      assert s == [s[0]] + s[1..];
      var m := MaxAt(s[1..], k);
      if KeyOf(s[0]) == k && NonNull(s[0]) > m {
        assert s[0] in s;
      } else if m >= 0 {
        var r :| r in s[1..] && KeyOf(r) == k && NonNull(r) == m;
        assert r in s;
      }
    }
  }

  /** Only membership of the rows searched matters. */
  lemma {:induction false} FirstSide(s: seq<Row>, k: Key, n: int, p: set<Row>, q: set<Row>)
    requires forall r | r in s && KeyOf(r) == k && NonNull(r) == n :: r in p <==> r in q
    ensures FirstIn(s, k, n, p) == FirstIn(s, k, n, q)
  {
    if s != [] {
      FirstSide(s[1..], k, n, p, q);
    }
  }

  // ---------- What a side offers ----------

  /** First row of completeness n for key k that a side offers over the ancestor: a row
      it holds if any, in ancestor order first; else the ancestor's own. */
  function Offer(o: seq<Row>, a: seq<Row>, k: Key, n: int): Option<Row> {
    var held := FirstIn(o + a, k, n, Elements(a));
    if held.Some? then held else FirstIn(o, k, n, Elements(o))
  }

  /** The survivor is ours' offer, or theirs' when ours offers nothing. */
  lemma SurvivorIsOffer(o: seq<Row>, a: seq<Row>, b: seq<Row>, k: Key)
    ensures var n := MaxAt(o + a + b, k);
      Survivor(o, a, b, k) == if Offer(o, a, k, n).Some? then Offer(o, a, k, n) else Offer(o, b, k, n)
  {
    var all := o + a + b;
    var n := MaxAt(all, k);
    FirstConcat(o + a, b, k, n, Elements(a));
    FirstConcat(o + a, b, k, n, Elements(all));
    FirstConcat(o, a, k, n, Elements(a));
    FirstConcat(o, a, k, n, Elements(all));
    FirstConcat(o, b, k, n, Elements(b));
    FirstFinds(a, k, n, Elements(a));
    FirstFinds(b, k, n, Elements(a));
    FirstFinds(o, k, n, Elements(a));
    FirstFinds(o, k, n, Elements(b));
    FirstFinds(o, k, n, Elements(o));
    FirstSide(o, k, n, Elements(o), Elements(all));
    FirstSide(a, k, n, Elements(a), Elements(all));
    FirstSide(b, k, n, Elements(b), Elements(all));
  }

  lemma MaxOfThree(o: seq<Row>, a: seq<Row>, b: seq<Row>, k: Key)
    ensures MaxAt(o + a + b, k) == Max(MaxAt(o, k), Max(MaxAt(a, k), MaxAt(b, k)))
  {
    MaxConcat(o + a, b, k);
    MaxConcat(o, a, k);
  }

  function Max(x: int, y: int): int {
    if x >= y then x else y
  }

  lemma OfferFinds(o: seq<Row>, a: seq<Row>, k: Key, n: int)
    requires n >= 0
    ensures var f := Offer(o, a, k, n);
      f.Some? ==> (f.value in o || f.value in a) && KeyOf(f.value) == k && NonNull(f.value) == n
    ensures MaxAt(o, k) == n || MaxAt(a, k) == n ==> Offer(o, a, k, n).Some?
    ensures MaxAt(o, k) < n && MaxAt(a, k) < n ==> Offer(o, a, k, n).None?
  {
    FirstFinds(o + a, k, n, Elements(a));
    FirstFinds(o, k, n, Elements(o));
    MaxBounds(o, k);
    MaxBounds(a, k);
  }

  /** A key survives exactly when some input has it, through a row of an input that is
      most complete for the key. */
  lemma SurvivorIsMostComplete(o: seq<Row>, a: seq<Row>, b: seq<Row>, k: Key)
    ensures Survivor(o, a, b, k).Some? <==> exists r :: r in o + a + b && KeyOf(r) == k
    ensures Survivor(o, a, b, k).Some? ==>
      var w := Survivor(o, a, b, k).value;
      && w in o + a + b && KeyOf(w) == k && NonNull(w) == MaxAt(o + a + b, k)
      && forall r | r in o + a + b && KeyOf(r) == k :: NonNull(r) <= NonNull(w)
  {
    var all := o + a + b;
    var n := MaxAt(all, k);
    MaxBounds(all, k);
    FirstFinds(all, k, n, Elements(a));
    FirstFinds(all, k, n, Elements(all));
  }

  // ---------- What every merge keeps ----------

  /** One output row for each key of the inputs and no other; it is an input row and no
      input row with its key is more complete; the output is in canonical order. */
  lemma MergeKeeps(o: seq<Row>, a: seq<Row>, b: seq<Row>, m: seq<Row>)
    requires IsMerge(o, a, b, m)
    ensures forall r | r in o + a + b :: exists w :: w in m && KeyOf(w) == KeyOf(r)
    ensures forall w | w in m :: w in o + a + b
    ensures forall w, r | w in m && r in o + a + b && KeyOf(w) == KeyOf(r) :: NonNull(r) <= NonNull(w)
    ensures forall i, j | 0 <= i < j < |m| :: KeyOf(m[i]) != KeyOf(m[j]) && RowBefore(m[i], m[j])
  {
    forall r | r in o + a + b
      ensures exists w :: w in m && KeyOf(w) == KeyOf(r)
    {
      SurvivorIsMostComplete(o, a, b, KeyOf(r));
      assert Survivor(o, a, b, KeyOf(r)).value in m;
    }
    forall w | w in m
      ensures w in o + a + b
      ensures forall r | r in o + a + b && KeyOf(w) == KeyOf(r) :: NonNull(r) <= NonNull(w)
    {
      SurvivorIsMostComplete(o, a, b, KeyOf(w));
    }
    forall i, j | 0 <= i < j < |m|
      ensures KeyOf(m[i]) != KeyOf(m[j])
    {
      assert m[i] in m && m[j] in m;
      RowBeforeIrreflexive(m[i]);
    }
  }

  /** No row is lost exactly when the inputs hold one row a key: the merge promises
      completeness for each key, not for each row. */
  lemma NoRowLost(o: seq<Row>, a: seq<Row>, b: seq<Row>, m: seq<Row>)
    requires IsMerge(o, a, b, m)
    ensures (forall r | r in o + a + b :: r in m) <==>
            (forall r, s | r in o + a + b && s in o + a + b && KeyOf(r) == KeyOf(s) :: r == s)
  {
    if forall r | r in o + a + b :: r in m {
      forall r, s | r in o + a + b && s in o + a + b && KeyOf(r) == KeyOf(s)
        ensures r == s
      {
        assert r in m && s in m;
      }
    }
    if forall r, s | r in o + a + b && s in o + a + b && KeyOf(r) == KeyOf(s) :: r == s {
      forall r | r in o + a + b
        ensures r in m
      {
        SurvivorIsMostComplete(o, a, b, KeyOf(r));
      }
    }
  }

  /** In a merge the only row with its key is the survivor. */
  lemma MergeAtKey(o: seq<Row>, a: seq<Row>, b: seq<Row>, m: seq<Row>, k: Key, n: int)
    requires IsMerge(o, a, b, m)
    ensures MaxAt(m, k) == MaxAt(o + a + b, k)
    ensures n >= 0 && n == MaxAt(o + a + b, k) ==> forall s ::
      (var w := Survivor(o, a, b, k); FirstIn(m, k, n, s) == if w.Some? && w.value in s then w else None)
  {
    var w := Survivor(o, a, b, k);
    SurvivorIsMostComplete(o, a, b, k);
    MaxBounds(m, k);
    MaxBounds(o + a + b, k);
    assert forall r | r in m && KeyOf(r) == k :: w == Some(r);
    if w.Some? {
      assert w.value in m;
    }
    if n >= 0 && n == MaxAt(o + a + b, k) {
      forall s
        ensures FirstIn(m, k, n, s) == if w.Some? && w.value in s then w else None
      {
        FirstFinds(m, k, n, s);
      }
    }
  }

  /** What a merge offers where it is among the most complete: its survivor. */
  lemma MergeOffers(o: seq<Row>, a: seq<Row>, b: seq<Row>, m: seq<Row>, k: Key, n: int)
    requires IsMerge(o, a, b, m) && n >= 0
    ensures MaxAt(o + a + b, k) == n ==> Offer(o, m, k, n) == Survivor(o, a, b, k)
    ensures MaxAt(o + a + b, k) < n ==> Offer(o, m, k, n).None?
  {
    MergeAtKey(o, a, b, m, k, n);
    MaxOfThree(o, a, b, k);
    OfferFinds(o, m, k, n);
    if MaxAt(o + a + b, k) == n {
      SurvivorIsMostComplete(o, a, b, k);
      FirstConcat(o, m, k, n, Elements(m));
      FirstFinds(o, k, n, Elements(m));
      MaxBounds(o + a + b, k);
    }
  }

  // ---------- Associativity ----------

  lemma AssociativeAtKey(o: seq<Row>, a: seq<Row>, b: seq<Row>, c: seq<Row>, m1: seq<Row>, m2: seq<Row>, k: Key)
    requires IsMerge(o, a, b, m1) && IsMerge(o, b, c, m2)
    ensures Survivor(o, m1, c, k) == Survivor(o, a, m2, k)
  {
    var n := MaxAt(o + m1 + c, k);
    MaxOfThree(o, a, b, k);
    MaxOfThree(o, b, c, k);
    MaxOfThree(o, m1, c, k);
    MaxOfThree(o, a, m2, k);
    MergeAtKey(o, a, b, m1, k, n);
    MergeAtKey(o, b, c, m2, k, n);
    assert n == MaxAt(o + a + m2, k);
    SurvivorIsOffer(o, m1, c, k);
    SurvivorIsOffer(o, a, m2, k);
    SurvivorIsOffer(o, a, b, k);
    SurvivorIsOffer(o, b, c, k);
    if n < 0 {
      SurvivorIsMostComplete(o, m1, c, k);
      SurvivorIsMostComplete(o, a, m2, k);
      MaxBounds(o + m1 + c, k);
      MaxBounds(o + a + m2, k);
    } else {
      MergeOffers(o, a, b, m1, k, n);
      MergeOffers(o, b, c, m2, k, n);
      OfferFinds(o, a, k, n);
      OfferFinds(o, b, k, n);
      OfferFinds(o, c, k, n);
    }
  }

  /** Main result: over a common ancestor the merge is associative, for all logs, ties
      and duplicates included. */
  lemma Associative(o: seq<Row>, a: seq<Row>, b: seq<Row>, c: seq<Row>,
                    m1: seq<Row>, m2: seq<Row>, x: seq<Row>, y: seq<Row>)
    requires IsMerge(o, a, b, m1) && IsMerge(o, m1, c, x)
    requires IsMerge(o, b, c, m2) && IsMerge(o, a, m2, y)
    ensures x == y
  {
    forall r
      ensures r in x <==> r in y
    {
      AssociativeAtKey(o, a, b, c, m1, m2, KeyOf(r));
    }
    SortedIsUnique(x, y);
  }

  // ---------- Commutativity ----------

  /** Two sides conflict on a key when both offer a most complete row for it and the rows
      differ. */
  predicate Conflict(o: seq<Row>, a: seq<Row>, b: seq<Row>, k: Key) {
    var n := MaxAt(o + a + b, k);
    Offer(o, a, k, n).Some? && Offer(o, b, k, n).Some? && Offer(o, a, k, n) != Offer(o, b, k, n)
  }

  /** Main result: ours and theirs may be exchanged exactly when no key has conflicting
      offers. */
  lemma CommutesIffNoConflict(o: seq<Row>, a: seq<Row>, b: seq<Row>, x: seq<Row>, y: seq<Row>)
    requires IsMerge(o, a, b, x) && IsMerge(o, b, a, y)
    ensures x == y <==> forall k :: !Conflict(o, a, b, k)
  {
    forall k
      ensures Survivor(o, a, b, k) == Survivor(o, b, a, k) <==> !Conflict(o, a, b, k)
    {
      MaxOfThree(o, a, b, k);
      MaxOfThree(o, b, a, k);
      SurvivorIsOffer(o, a, b, k);
      SurvivorIsOffer(o, b, a, k);
    }
    if x == y {
      forall k
        ensures !Conflict(o, a, b, k)
      {
        SameSurvivors(o, a, b, x, k);
      }
    } else if forall k :: !Conflict(o, a, b, k) {
      forall r
        ensures r in x <==> r in y
      {
        assert Survivor(o, a, b, KeyOf(r)) == Survivor(o, b, a, KeyOf(r));
      }
      SortedIsUnique(x, y);
    }
  }

  lemma SameSurvivors(o: seq<Row>, a: seq<Row>, b: seq<Row>, x: seq<Row>, k: Key)
    requires IsMerge(o, a, b, x) && IsMerge(o, b, a, x)
    ensures Survivor(o, a, b, k) == Survivor(o, b, a, k)
  {
    SurvivorIsMostComplete(o, a, b, k);
    SurvivorIsMostComplete(o, b, a, k);
    if Survivor(o, a, b, k).Some? {
      assert Survivor(o, a, b, k).value in x;
    }
    if Survivor(o, b, a, k).Some? {
      assert Survivor(o, b, a, k).value in x;
    }
  }

  /** In particular when each key has a unique most complete row in the union. */
  lemma CommutesWithoutTies(o: seq<Row>, a: seq<Row>, b: seq<Row>, x: seq<Row>, y: seq<Row>)
    requires IsMerge(o, a, b, x) && IsMerge(o, b, a, y)
    requires forall r, s | r in o + a + b && s in o + a + b && KeyOf(r) == KeyOf(s)
                        && NonNull(r) == NonNull(s) == MaxAt(o + a + b, KeyOf(r)) :: r == s
    ensures x == y
  {
    forall k
      ensures !Conflict(o, a, b, k)
    {
      var n := MaxAt(o + a + b, k);
      FirstFinds(o + a, k, n, Elements(a));
      FirstFinds(o + b, k, n, Elements(b));
      FirstFinds(o, k, n, Elements(o));
    }
    CommutesIffNoConflict(o, a, b, x, y);
  }

  // ---------- Idempotence ----------

  /** Main result: merging a merge again, with itself or with either of its sides on the
      right, or with ours on the left, changes nothing. */
  lemma Idempotent(o: seq<Row>, a: seq<Row>, b: seq<Row>, m: seq<Row>)
    requires IsMerge(o, a, b, m)
    ensures IsMerge(o, m, m, m) && IsMerge(o, m, a, m) && IsMerge(o, m, b, m) && IsMerge(o, a, m, m)
  {
    forall k
      ensures Survivor(o, m, m, k) == Survivor(o, a, b, k)
      ensures Survivor(o, m, a, k) == Survivor(o, a, b, k)
      ensures Survivor(o, m, b, k) == Survivor(o, a, b, k)
      ensures Survivor(o, a, m, k) == Survivor(o, a, b, k)
    {
      var n := MaxAt(o + a + b, k);
      MaxOfThree(o, a, b, k);
      MaxOfThree(o, m, m, k);
      MaxOfThree(o, m, a, k);
      MaxOfThree(o, m, b, k);
      MaxOfThree(o, a, m, k);
      MergeAtKey(o, a, b, m, k, n);
      SurvivorIsOffer(o, m, m, k);
      SurvivorIsOffer(o, m, a, k);
      SurvivorIsOffer(o, m, b, k);
      SurvivorIsOffer(o, a, m, k);
      SurvivorIsOffer(o, a, b, k);
      if n < 0 {
        NoneBelowZero(o, m, m, k);
        NoneBelowZero(o, m, a, k);
        NoneBelowZero(o, m, b, k);
        NoneBelowZero(o, a, m, k);
        NoneBelowZero(o, a, b, k);
      } else {
        MergeOffers(o, a, b, m, k, n);
        SurvivorIsMostComplete(o, a, b, k);
        MaxBounds(o + a + b, k);
      }
    }
  }

  lemma NoneBelowZero(o: seq<Row>, a: seq<Row>, b: seq<Row>, k: Key)
    requires MaxAt(o + a + b, k) < 0
    ensures Survivor(o, a, b, k) == None
  {
    SurvivorIsMostComplete(o, a, b, k);
    MaxBounds(o + a + b, k);
  }

  /** merge(a, a) is a exactly when a is already in canonical form, with one row a key, and
      dominates its ancestor. */
  lemma SelfMerge(o: seq<Row>, a: seq<Row>, m: seq<Row>)
    requires IsMerge(o, a, a, m)
    ensures m == a <==>
      && StrictlySorted(a)
      && (forall r, s | r in a && s in a && KeyOf(r) == KeyOf(s) :: r == s)
      && (forall r | r in o :: exists s :: s in a && KeyOf(s) == KeyOf(r) && NonNull(r) <= NonNull(s))
  {
    MergeKeeps(o, a, a, m);
    if m == a {
      forall r | r in o
        ensures exists s :: s in a && KeyOf(s) == KeyOf(r) && NonNull(r) <= NonNull(s)
      {
        assert r in o + a + a;
        var w :| w in m && KeyOf(w) == KeyOf(r);
      }
    } else if StrictlySorted(a)
      && (forall r, s | r in a && s in a && KeyOf(r) == KeyOf(s) :: r == s)
      && (forall r | r in o :: exists s :: s in a && KeyOf(s) == KeyOf(r) && NonNull(r) <= NonNull(s)) {
      forall r
        ensures r in m <==> r in a
      {
        SelfSurvivor(o, a, KeyOf(r));
      }
      SortedIsUnique(m, a);
    }
  }

  lemma SelfSurvivor(o: seq<Row>, a: seq<Row>, k: Key)
    requires forall r, s | r in a && s in a && KeyOf(r) == KeyOf(s) :: r == s
    requires forall r | r in o :: exists s :: s in a && KeyOf(s) == KeyOf(r) && NonNull(r) <= NonNull(s)
    ensures forall r | KeyOf(r) == k :: Survivor(o, a, a, k) == Some(r) <==> r in a
  {
    var n := MaxAt(o + a + a, k);
    SurvivorIsMostComplete(o, a, a, k);
    MaxBounds(o + a + a, k);
    FirstFinds(o + a + a, k, n, Elements(a));
    forall r | r in o + a + a && KeyOf(r) == k
      ensures exists s :: s in a && KeyOf(s) == k && NonNull(r) <= NonNull(s)
    {
      if r in o {
      } else {
        assert r in a;
      }
    }
  }

  // ---------- The promises that fail ----------

  /** Two equally complete rows for one key, one on each side, and no ancestor. */
  const LEFT: Row := Obj(Field("reason", Str("a"), NoFields))
  const RIGHT: Row := Obj(Field("reason", Str("b"), NoFields))

  /** Neither commutativity nor keeping every row holds of all logs. */
  lemma TiesBreakCommutativity(x: seq<Row>, y: seq<Row>)
    requires IsMerge([], [LEFT], [RIGHT], x) && IsMerge([], [RIGHT], [LEFT], y)
    ensures x == [LEFT] && y == [RIGHT] && x != y && RIGHT !in x
  {
    OneRowEach(LEFT, RIGHT, x);
    OneRowEach(RIGHT, LEFT, y);
  }

  lemma OneRowEach(l: Row, r: Row, x: seq<Row>)
    requires KeyOf(l) == KeyOf(r) && NonNull(l) == NonNull(r)
    requires IsMerge([], [l], [r], x)
    ensures x == [l]
  {
    var k, n := KeyOf(l), NonNull(l);
    assert [] + [l] + [r] == [l, r];
    assert [l, r][1..] == [r] && [r][1..] == [];
    assert MaxAt([r], k) == n;
    assert MaxAt([l, r], k) == n;
    assert FirstIn([l, r], k, n, Elements([l])) == Some(l);
    assert Survivor([], [l], [r], k) == Some(l);
    MergeKeeps([], [l], [r], x);
    assert forall s :: s in x <==> s == l;
    SortedIsUnique(x, [l]);
  }
}
