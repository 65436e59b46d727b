/** The merge loops, against the reference. */
module MergeDriver {
  import opened Optional
  import opened Json
  import opened JsonNormal
  import opened LogRows
  import opened LogMerge
  import opened LogEvents

  // The code is bin/_git_merge_jsonl/merge.py.

  /** A Python dict: its keys in insertion order, and its table. */
  datatype Dict<K(==, !new), V> = Dict(order: seq<K>, table: map<K, V>) {
    ghost predicate Valid() {
      && (forall i, j | 0 <= i < j < |order| :: order[i] != order[j])
      && (forall k :: k in order <==> k in table)
    }

    /** d[k] = v: a new key goes last, a known one keeps its place. */
    function Put(k: K, v: V): Dict<K, V> {
      Dict(if k in table then order else order + [k], table[k := v])
    }
  }

  // ---------- Deduplication by hash ----------

  /** sha stands for the truncated SHA-256; no two canonical lines share a hash. */
  ghost predicate CollisionFree(sha: string -> string) {
    forall s, t :: sha(s) == sha(t) ==> s == t
  }

  function HashRow(row: Row, sha: string -> string): string {
    sha(Dumps(row))
  }

  lemma HashIsInjective(x: Row, y: Row, sha: string -> string)
    requires CollisionFree(sha) && WellFormed(x) && WellFormed(y)
    ensures HashRow(x, sha) == HashRow(y, sha) <==> x == y
  {
    if HashRow(x, sha) == HashRow(y, sha) {
      DumpsIsInjective(x, y);
    }
  }

  /** s without repetitions, first occurrences kept. */
  function Uniq(s: seq<Row>): seq<Row> {
    if s == [] then []
    else
      var u, x := Uniq(s[..|s| - 1]), s[|s| - 1];
      if x in u then u else u + [x]
  }

  lemma {:induction false} UniqMembers(s: seq<Row>)
    ensures forall r :: r in Uniq(s) <==> r in s
    ensures forall i, j | 0 <= i < j < |Uniq(s)| :: Uniq(s)[i] != Uniq(s)[j]
  {
    if s != [] {
      var p := s[..|s| - 1];
      UniqMembers(p);
      assert s == p + [s[|s| - 1]];
    }
  }

  /** Deduplication changes no search. */
  lemma {:induction false} UniqSearch(s: seq<Row>, k: Key, n: int, side: set<Row>)
    ensures MaxAt(Uniq(s), k) == MaxAt(s, k)
    ensures FirstIn(Uniq(s), k, n, side) == FirstIn(s, k, n, side)
  {
    if s != [] {
      var p, x := s[..|s| - 1], s[|s| - 1];
      var u := Uniq(p);
      UniqSearch(p, k, n, side);
      assert s == p + [x];
      FirstConcat(p, [x], k, n, side);
      FirstConcat(u, [x], k, n, side);
      MaxConcat(p, [x], k);
      MaxConcat(u, [x], k);
      MaxBounds(u, k);
      MaxAtLeast(u, k);
      FirstFinds(u, k, n, side);
      Single(x, k, n, side);
    }
  }

  lemma Single(x: Row, k: Key, n: int, side: set<Row>)
    ensures MaxAt([x], k) == if KeyOf(x) == k then NonNull(x) else -1
    ensures FirstIn([x], k, n, side) == if KeyOf(x) == k && NonNull(x) == n && x in side then Some(x) else None
  {
    assert [x][1..] == [];
  }

  /** The dictionary union_by_hash holds the rows u in insertion order. */
  ghost predicate Holds(d: Dict<string, Row>, u: seq<Row>, sha: string -> string) {
    && d.Valid() && |d.order| == |u|
    && forall i | 0 <= i < |u| :: d.order[i] == HashRow(u[i], sha) && d.order[i] in d.table
        && d.table[d.order[i]] == u[i]
  }

  lemma HoldsMember(d: Dict<string, Row>, u: seq<Row>, x: Row, sha: string -> string)
    requires CollisionFree(sha) && Parsed(u) && Canonical(x) && Holds(d, u, sha)
    ensures HashRow(x, sha) in d.table <==> x in u
    ensures x in u ==> d.table[HashRow(x, sha)] == x
    ensures Holds(d.Put(HashRow(x, sha), x), if x in u then u else u + [x], sha)
  {
    var h := HashRow(x, sha);
    forall i | 0 <= i < |u|
      ensures d.order[i] == h <==> u[i] == x
    {
      HashIsInjective(u[i], x, sha);
    }
    assert h in d.order <==> x in u;
    if h in d.table {
      assert d.table[h := x] == d.table;
    } else {
      HoldsNew(d, u, x, sha);
    }
  }

  lemma HoldsNew(d: Dict<string, Row>, u: seq<Row>, x: Row, sha: string -> string)
    requires Holds(d, u, sha) && HashRow(x, sha) !in d.table
    ensures Holds(d.Put(HashRow(x, sha), x), u + [x], sha)
  {
    var h := HashRow(x, sha);
    var e := d.Put(h, x);
    forall i | 0 <= i < |u|
      ensures e.order[i] == HashRow(u[i], sha) && e.order[i] in e.table && e.table[e.order[i]] == u[i]
    {
      assert d.order[i] in d.order;
    }
  }

  lemma UniqSnoc(s: seq<Row>, x: Row)
    ensures Uniq(s + [x]) == if x in Uniq(s) then Uniq(s) else Uniq(s) + [x]
  {
    assert (s + [x])[..|s|] == s;
  }

  lemma UniqIsParsed(s: seq<Row>)
    requires Parsed(s)
    ensures Parsed(Uniq(s))
  {
    UniqMembers(s);
    forall j | 0 <= j < |Uniq(s)|
      ensures Canonical(Uniq(s)[j])
    {
      assert Uniq(s)[j] in s;
    }
  }

  /** The `union_by_hash` loops over ancestor, ours and theirs. */
  method UnionByHash(rows: seq<Row>, d: Dict<string, Row>, ghost seen: seq<Row>, overwrite: bool, sha: string -> string)
    returns (union: Dict<string, Row>)
    requires CollisionFree(sha) && Parsed(rows) && Parsed(seen) && Holds(d, Uniq(seen), sha)
    ensures Holds(union, Uniq(seen + rows), sha)
  {
    hide Canonical, HashRow, Holds, Uniq;
    union := d;
    assert seen + rows[..0] == seen;
    for i := 0 to |rows|
      invariant Holds(union, Uniq(seen + rows[..i]), sha)
    {
      ghost var before := seen + rows[..i];
      assert seen + rows[..i + 1] == before + [rows[i]];
      UniqSnoc(before, rows[i]);
      UniqIsParsed(before);
      HoldsMember(union, Uniq(before), rows[i], sha);
      var h := HashRow(rows[i], sha);
      if overwrite || h !in union.table {
        union := union.Put(h, rows[i]);
      }
    }
    assert rows[..|rows|] == rows;
  }

  // ---------- Grouping by key ----------

  function Group(s: seq<Row>, k: Key): seq<Row> {
    if s == [] then []
    else
      var g, x := Group(s[..|s| - 1], k), s[|s| - 1];
      if KeyOf(x) == k then g + [x] else g
  }

  lemma {:induction false} GroupMembers(s: seq<Row>, k: Key)
    ensures forall r :: r in Group(s, k) <==> r in s && KeyOf(r) == k
  {
    if s != [] {
      GroupMembers(s[..|s| - 1], k);
      assert s == s[..|s| - 1] + [s[|s| - 1]];
    }
  }

  lemma {:induction false} GroupSearch(s: seq<Row>, k: Key, n: int, side: set<Row>)
    ensures MaxAt(Group(s, k), k) == MaxAt(s, k)
    ensures FirstIn(Group(s, k), k, n, side) == FirstIn(s, k, n, side)
  {
    if s != [] {
      var p, x := s[..|s| - 1], s[|s| - 1];
      var g := Group(p, k);
      GroupSearch(p, k, n, side);
      assert s == p + [x];
      FirstConcat(p, [x], k, n, side);
      FirstConcat(g, [x], k, n, side);
      MaxConcat(p, [x], k);
      MaxConcat(g, [x], k);
      MaxAtLeast(p, k);
      Single(x, k, n, side);
    }
  }

  /** The dictionary `grouped` holds the group of each key of s. */
  ghost predicate Grouped(d: Dict<Key, seq<Row>>, s: seq<Row>) {
    && d.Valid()
    && (forall k | k in d.table :: d.table[k] == Group(s, k) && d.table[k] != [])
    && (forall k :: k !in d.table ==> Group(s, k) == [])
  }

  /** grouped.setdefault(key, []).append(row), row by row. */
  method GroupByKey(rows: seq<Row>) returns (d: Dict<Key, seq<Row>>)
    ensures Grouped(d, rows)
  {
    d := Dict([], map[]);
    for i := 0 to |rows|
      invariant Grouped(d, rows[..i])
    {
      var k := KeyOf(rows[i]);
      assert rows[..i + 1][..i] == rows[..i];
      assert forall k' | k' != k :: Group(rows[..i + 1], k') == Group(rows[..i], k');
      assert Group(rows[..i + 1], k) == Group(rows[..i], k) + [rows[i]];
      var g := (if k in d.table then d.table[k] else []) + [rows[i]];
      d := d.Put(k, g);
    }
    assert rows[..|rows|] == rows;
  }

  // ---------- The tiebreaker ----------

  /** The tuple (-non_null_count, not in ours) of x is less than that of y. */
  predicate Better(x: Row, y: Row, inOurs: Row -> bool) {
    NonNull(x) > NonNull(y) || (NonNull(x) == NonNull(y) && inOurs(x) && !inOurs(y))
  }

  function InsertStable(x: Row, s: seq<Row>, inOurs: Row -> bool): seq<Row> {
    if s == [] || !Better(s[0], x, inOurs) then [x] + s
    else [s[0]] + InsertStable(x, s[1..], inOurs)
  }

  /** sorted(group, key=_sort_key): stable. */
  function SortGroup(s: seq<Row>, inOurs: Row -> bool): (t: seq<Row>)
    ensures |t| >= |s|
  {
    if s == [] then [] else
      var t := SortGroup(s[1..], inOurs);
      assert |InsertStable(s[0], t, inOurs)| == |t| + 1 by { InsertedLength(s[0], t, inOurs); }
      InsertStable(s[0], t, inOurs)
  }

  lemma {:induction false} InsertedLength(x: Row, s: seq<Row>, inOurs: Row -> bool)
    ensures |InsertStable(x, s, inOurs)| == |s| + 1
    decreases |s|
  {
    if s != [] {
      InsertedLength(x, s[1..], inOurs);
    }
  }

  /** What the tiebreaker picks from a group, in the words of the reference. */
  ghost function Pick(s: seq<Row>, k: Key, side: set<Row>): Option<Row> {
    var n := MaxAt(s, k);
    var ours := FirstIn(s, k, n, side);
    if ours.Some? then ours else FirstIn(s, k, n, Elements(s))
  }

  /** The head of the sorted group is the reference's pick. */
  lemma {:induction false} HeadIsPick(s: seq<Row>, k: Key, inOurs: Row -> bool, side: set<Row>)
    requires s != [] && forall i | 0 <= i < |s| :: KeyOf(s[i]) == k && (inOurs(s[i]) <==> s[i] in side)
    ensures Pick(s, k, side) == Some(SortGroup(s, inOurs)[0])
    decreases |s|
  {
    var x, t := s[0], s[1..];
    var n, m := MaxAt(s, k), MaxAt(t, k);
    FirstSide(t, k, n, Elements(t), Elements(s));
    if t == [] {
    } else {
      HeadIsPick(t, k, inOurs, side);
      var h := SortGroup(t, inOurs)[0];
      FirstFinds(t, k, m, side);
      FirstFinds(t, k, m, Elements(t));
      FirstFinds(t, k, n, side);
      MaxBounds(t, k);
    }
  }

  // ---------- The driver ----------

  /** list(union_by_hash.values()) after the three layers. */
  method DistinctRows(ancestor: seq<Row>, ours: seq<Row>, theirs: seq<Row>, sha: string -> string)
    returns (values: seq<Row>)
    requires CollisionFree(sha) && Parsed(ancestor) && Parsed(ours) && Parsed(theirs)
    ensures values == Uniq(ancestor + ours + theirs)
  {
    var union := UnionByHash(ancestor, Dict([], map[]), [], true, sha);
    assert [] + ancestor == ancestor;
    union := UnionByHash(ours, union, ancestor, false, sha);
    union := UnionByHash(theirs, union, ancestor + ours, false, sha);
    values := [];
    ghost var u := Uniq(ancestor + ours + theirs);
    for i := 0 to |union.order|
      invariant values == u[..i]
    {
      values := values + [union.table[union.order[i]]];
    }
  }

  /** One row for each key, through the tiebreaker where a group has several. */
  method ResolveGroups(values: seq<Row>, ghost o: seq<Row>, ours: seq<Row>, ghost b: seq<Row>, sha: string -> string)
    returns (resolved: seq<Row>)
    requires CollisionFree(sha) && Parsed(o) && Parsed(ours) && Parsed(b)
    requires values == Uniq(o + ours + b)
    ensures forall i, j | 0 <= i < j < |resolved| :: resolved[i] != resolved[j]
    ensures forall r :: r in resolved <==> Survivor(o, ours, b, KeyOf(r)) == Some(r)
    ensures Parsed(resolved)
  {
    var oursHashes := set i | 0 <= i < |ours| :: HashRow(ours[i], sha);
    var grouped := GroupByKey(values);
    resolved := [];
    for i := 0 to |grouped.order|
      invariant |resolved| == i
      invariant forall j | 0 <= j < i :: Survivor(o, ours, b, grouped.order[j]) == Some(resolved[j])
    {
      var k := grouped.order[i];
      assert k in grouped.order;
      var group := grouped.table[k];
      ResolveGroup(o, ours, b, oursHashes, sha, k);
      if |group| == 1 {
        resolved := resolved + [group[0]];
      } else {
        resolved := resolved + [SortGroup(group, r => HashRow(r, sha) in oursHashes)[0]];
      }
    }
    SurvivorsAreDistinct(o, ours, b, grouped, resolved);
  }

  /** Three-way merge of parsed rows. */
  method Merge(ancestor: seq<Row>, ours: seq<Row>, theirs: seq<Row>, sha: string -> string)
    returns (merged: seq<Row>)
    requires CollisionFree(sha) && Parsed(ancestor) && Parsed(ours) && Parsed(theirs)
    ensures IsMerge(ancestor, ours, theirs, merged) && Parsed(merged)
    ensures KeepsEvents(ancestor + ours + theirs, ours, merged)
  {
    var values := DistinctRows(ancestor, ours, theirs, sha);
    var resolved := ResolveGroups(values, ancestor, ours, theirs, sha);
    SortRowsSorts(resolved);
    merged := SortRows(resolved);
    forall i | 0 <= i < |merged|
      ensures Canonical(merged[i])
    {
      assert merged[i] in resolved;
    }
    MergeKeepsEvents(ancestor, ours, theirs, merged);
  }

  lemma ResolveGroup(o: seq<Row>, a: seq<Row>, b: seq<Row>, hashes: set<string>, sha: string -> string, k: Key)
    requires CollisionFree(sha) && Parsed(o) && Parsed(a) && Parsed(b)
    requires hashes == set i | 0 <= i < |a| :: HashRow(a[i], sha)
    ensures var g := Group(Uniq(o + a + b), k);
      && (g != [] ==> Survivor(o, a, b, k) == Some(SortGroup(g, r => HashRow(r, sha) in hashes)[0]))
      && (|g| == 1 ==> Survivor(o, a, b, k) == Some(g[0]))
  {
    var all := o + a + b;
    var g := Group(Uniq(all), k);
    var inOurs := (r: Row) => HashRow(r, sha) in hashes;
    UniqMembers(all);
    GroupMembers(Uniq(all), k);
    var n := MaxAt(all, k);
    UniqSearch(all, k, n, Elements(a));
    UniqSearch(all, k, n, Elements(all));
    GroupSearch(Uniq(all), k, n, Elements(a));
    GroupSearch(Uniq(all), k, n, Elements(all));
    FirstSide(g, k, n, Elements(g), Elements(all));
    if g != [] {
      forall i | 0 <= i < |g|
        ensures KeyOf(g[i]) == k && (inOurs(g[i]) <==> g[i] in Elements(a))
      {
        assert g[i] in g;
        forall j | 0 <= j < |a|
          ensures HashRow(a[j], sha) == HashRow(g[i], sha) <==> a[j] == g[i]
        {
          HashIsInjective(a[j], g[i], sha);
        }
      }
      HeadIsPick(g, k, inOurs, Elements(a));
    }
  }

  lemma SurvivorsAreDistinct(o: seq<Row>, a: seq<Row>, b: seq<Row>, d: Dict<Key, seq<Row>>, s: seq<Row>)
    requires Grouped(d, Uniq(o + a + b)) && |s| == |d.order|
    requires forall j | 0 <= j < |s| :: Survivor(o, a, b, d.order[j]) == Some(s[j])
    requires Parsed(o + a + b)
    ensures forall i, j | 0 <= i < j < |s| :: s[i] != s[j]
    ensures forall r :: r in s <==> Survivor(o, a, b, KeyOf(r)) == Some(r)
    ensures Parsed(s)
  {
    forall j | 0 <= j < |s|
      ensures KeyOf(s[j]) == d.order[j] && s[j] in o + a + b
    {
      SurvivorIsMostComplete(o, a, b, d.order[j]);
    }
    forall r | Survivor(o, a, b, KeyOf(r)) == Some(r)
      ensures r in s
    {
      SurvivorIsMostComplete(o, a, b, KeyOf(r));
      UniqMembers(o + a + b);
      GroupMembers(Uniq(o + a + b), KeyOf(r));
      assert r in Group(Uniq(o + a + b), KeyOf(r));
      assert KeyOf(r) in d.order;
      var j :| 0 <= j < |d.order| && d.order[j] == KeyOf(r);
      assert s[j] == r;
    }
  }
}
