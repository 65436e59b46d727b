/** Rows of an orchestrator log. */
module LogRows {
  import opened Optional
  import opened Json
  import Order

  // As the merge driver of bin/_git_merge_jsonl/merge.py sees them.

  /** A parsed line.  A Python dict is represented by its members in key order (JsonNormal.Canonical),
      which is also how the canonical form prints it. */
  type Row = Json

  function Get(f: Fields, key: string): Option<Json> {
    if f.NoFields? then None
    else if f.key == key then Some(f.val)
    else Get(f.rest, key)
  }

  /** row.get(key): a missing member and a null one read alike. */
  function GetOrNull(row: Row, key: string): Json {
    if !row.Obj? then Null
    else
      match Get(row.fields, key)
      case None => Null
      case Some(v) => v
  }

  /** The fields that make two rows records of one event: ts and the 4-tuple. */
  datatype Key = Key(ts: Json, session: Json, task: Json, from: Json, to: Json)

  function KeyOf(row: Row): Key {
    var trans := GetOrNull(row, "transition");
    Key(GetOrNull(row, "ts"), GetOrNull(row, "session_id"), GetOrNull(row, "task_id"),
        GetOrNull(trans, "from"), GetOrNull(trans, "to"))
  }

  function CountNonNull(f: Fields): nat {
    if f.NoFields? then 0 else (if f.val.Null? then 0 else 1) + CountNonNull(f.rest)
  }

  /** How complete a row is. */
  function NonNull(row: Row): nat {
    if row.Obj? then CountNonNull(row.fields) else 0
  }

  /** row.get("ts", "") */
  function SortTs(row: Row): string {
    var ts := GetOrNull(row, "ts");
    if ts.Str? then ts.text else ""
  }

  /** The final order: by ts, then by canonical form. */
  predicate RowBefore(x: Row, y: Row) {
    Order.Before(SortTs(x), SortTs(y)) || (SortTs(x) == SortTs(y) && Order.Before(Dumps(x), Dumps(y)))
  }

  lemma RowBeforeIrreflexive(x: Row)
    ensures !RowBefore(x, x)
  {
    Order.BeforeIrreflexive(SortTs(x));
    Order.BeforeIrreflexive(Dumps(x));
  }

  lemma RowBeforeTransitive(x: Row, y: Row, z: Row)
    requires RowBefore(x, y) && RowBefore(y, z)
    ensures RowBefore(x, z)
  {
    if Order.Before(SortTs(x), SortTs(y)) && Order.Before(SortTs(y), SortTs(z)) {
      Order.BeforeTransitive(SortTs(x), SortTs(y), SortTs(z));
    }
    if Order.Before(Dumps(x), Dumps(y)) && Order.Before(Dumps(y), Dumps(z)) {
      Order.BeforeTransitive(Dumps(x), Dumps(y), Dumps(z));
    }
  }

  lemma RowBeforeTotal(x: Row, y: Row)
    requires WellFormed(x) && WellFormed(y)
    ensures RowBefore(x, y) || x == y || RowBefore(y, x)
  {
    Order.BeforeTotal(SortTs(x), SortTs(y));
    Order.BeforeTotal(Dumps(x), Dumps(y));
    if Dumps(x) == Dumps(y) {
      DumpsIsInjective(x, y);
    }
  }

  ghost predicate StrictlySorted(s: seq<Row>) {
    forall i, j | 0 <= i < j < |s| :: RowBefore(s[i], s[j])
  }

  /** A strictly sorted sequence is determined by its elements. */
  lemma {:induction false} SortedIsUnique(s: seq<Row>, t: seq<Row>)
    requires StrictlySorted(s) && StrictlySorted(t)
    requires forall r :: r in s <==> r in t
    ensures s == t
    decreases |s|
  {
    if s == [] {
      assert forall i | 0 <= i < |t| :: t[i] in s;
    } else {
      assert s[0] in t;
      HeadIsLeast(s, t);
      assert t[0] in s;
      HeadIsLeast(t, s);
      RowBeforeIrreflexive(s[0]);
      if s[0] != t[0] {
        RowBeforeTransitive(s[0], t[0], s[0]);
      }
      forall r
        ensures r in s[1..] <==> r in t[1..]
      {
        TailMembers(s, r);
        TailMembers(t, r);
      }
      SortedIsUnique(s[1..], t[1..]);
      assert s == [s[0]] + s[1..] && t == [t[0]] + t[1..];
    }
  }

  lemma HeadIsLeast(s: seq<Row>, t: seq<Row>)
    ensures StrictlySorted(s) && s != [] && t != [] && t[0] in s ==> s[0] == t[0] || RowBefore(s[0], t[0])
  {}

  lemma TailMembers(s: seq<Row>, r: Row)
    requires StrictlySorted(s) && s != []
    ensures r in s[1..] <==> r in s && r != s[0]
  {
    if r in s[1..] {
      var i :| 0 <= i < |s[1..]| && s[1..][i] == r;
      RowBeforeIrreflexive(r);
      assert RowBefore(s[0], s[i + 1]);
    }
    if r in s && r != s[0] {
      var i :| 0 <= i < |s| && s[i] == r;
      assert s[1..][i - 1] == r;
    }
  }

  /** list.sort with the final key. */
  function Insert(s: seq<Row>, x: Row): seq<Row> {
    if s == [] then [x]
    else if RowBefore(s[0], x) then [s[0]] + Insert(s[1..], x)
    else [x] + s
  }

  function SortRows(s: seq<Row>): seq<Row> {
    if s == [] then [] else Insert(SortRows(s[1..]), s[0])
  }

  lemma {:induction false} InsertMembers(s: seq<Row>, x: Row, r: Row)
    ensures r in Insert(s, x) <==> r == x || r in s
    decreases |s|
  {
    if s != [] {
      InsertMembers(s[1..], x, r);
      assert s == [s[0]] + s[1..];
    }
  }

  lemma {:induction false} InsertKeepsSorted(s: seq<Row>, x: Row)
    requires StrictlySorted(s) && WellFormed(x) && x !in s && forall i | 0 <= i < |s| :: WellFormed(s[i])
    ensures StrictlySorted(Insert(s, x))
    decreases |s|
  {
    if s != [] {
      var t := Insert(s[1..], x);
      InsertKeepsSorted(s[1..], x);
      if RowBefore(s[0], x) {
        forall j | 0 <= j < |t|
          ensures RowBefore(s[0], t[j])
        {
          InsertMembers(s[1..], x, t[j]);
          if t[j] != x {
            var i :| 0 <= i < |s[1..]| && s[1..][i] == t[j];
            assert s[i + 1] == t[j];
          }
        }
      } else {
        RowBeforeTotal(s[0], x);
        forall j | 0 <= j < |s|
          ensures RowBefore(x, s[j])
        {
          if j > 0 {
            RowBeforeTransitive(x, s[0], s[j]);
          }
        }
      }
    }
  }

  lemma {:induction false} SortRowsSorts(s: seq<Row>)
    requires forall i | 0 <= i < |s| :: WellFormed(s[i])
    requires forall i, j | 0 <= i < j < |s| :: s[i] != s[j]
    ensures StrictlySorted(SortRows(s)) && forall r :: r in SortRows(s) <==> r in s
    decreases |s|
  {
    if s != [] {
      var t := SortRows(s[1..]);
      SortRowsSorts(s[1..]);
      forall r
        ensures r in SortRows(s) <==> r in s
      {
        InsertMembers(t, s[0], r);
        assert s == [s[0]] + s[1..];
      }
      assert s[0] !in t;
      assert forall i | 0 <= i < |t| :: WellFormed(t[i]) by {
        forall i | 0 <= i < |t|
          ensures WellFormed(t[i])
        {
          assert t[i] in s[1..];
        }
      }
      InsertKeepsSorted(t, s[0]);
    }
  }
}
