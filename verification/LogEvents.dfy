/** What a merge keeps, member by member. */
module LogEvents {
  import opened Optional
  import opened Json
  import opened JsonNormal
  import opened LogRows
  import opened LogMerge
  import Order

  // The result of bin/_git_merge_jsonl/merge.py by lookups of the members of its rows.

  // ---------- Members ----------

  /** The member of a dict, null if it is missing or if this is no dict. */
  function Member(v: Json, name: string): Json {
    if v.Obj? && Last(v.fields, name).Some? then Last(v.fields, name).value else Null
  }

  /** Two rows about one event: equal ts, session, task and both ends of the transition. */
  predicate SameEvent(r: Row, s: Row) {
    && Member(r, "ts") == Member(s, "ts")
    && Member(r, "session_id") == Member(s, "session_id")
    && Member(r, "task_id") == Member(s, "task_id")
    && Member(Member(r, "transition"), "from") == Member(Member(s, "transition"), "from")
    && Member(Member(r, "transition"), "to") == Member(Member(s, "transition"), "to")
  }

  /** In a canonical object the first member of a name is the last one. */
  lemma {:induction false} GetIsLast(f: Fields, name: string)
    requires FieldsIncrease(f)
    ensures Get(f, name) == Last(f, name)
  {
    if f.Field? {
      FirstIsFound(f);
      GetIsLast(f.rest, name);
    }
  }

  lemma {:induction false} LastIsCanonical(f: Fields, name: string)
    requires FieldsIncrease(f)
    ensures Last(f, name).Some? ==> KeysIncrease(Last(f, name).value)
  {
    if f.Field? {
      LastIsCanonical(f.rest, name);
    }
  }

  lemma ReadsMember(v: Json, name: string)
    requires KeysIncrease(v)
    ensures GetOrNull(v, name) == Member(v, name) && KeysIncrease(Member(v, name))
  {
    if v.Obj? {
      GetIsLast(v.fields, name);
      LastIsCanonical(v.fields, name);
    }
  }

  /** The grouping key reads those five members and nothing else. */
  lemma SameKeyIffSameEvent(r: Row, s: Row)
    requires Canonical(r) && Canonical(s)
    ensures KeyOf(r) == KeyOf(s) <==> SameEvent(r, s)
  {
    KeyReads(r);
    KeyReads(s);
  }

  lemma KeyReads(r: Row)
    requires Canonical(r)
    ensures KeyOf(r) == Key(Member(r, "ts"), Member(r, "session_id"), Member(r, "task_id"),
                            Member(Member(r, "transition"), "from"), Member(Member(r, "transition"), "to"))
  {
    ReadsMember(r, "ts");
    ReadsMember(r, "session_id");
    ReadsMember(r, "task_id");
    ReadsMember(r, "transition");
    ReadsMember(Member(r, "transition"), "from");
    ReadsMember(Member(r, "transition"), "to");
  }

  // ---------- Completeness ----------

  /** The names whose value is not null. */
  function Filled(f: Fields): set<string> {
    if f.NoFields? then {} else (if f.val.Null? then {} else {f.key}) + Filled(f.rest)
  }

  /** They are those a lookup finds a value for. */
  lemma {:induction false} FilledAreFound(f: Fields, name: string)
    requires FieldsIncrease(f)
    ensures name in Filled(f) <==> Last(f, name).Some? && !Last(f, name).value.Null?
  {
    if f.Field? {
      FirstIsFound(f);
      FilledAreFound(f.rest, name);
      FilledAreFound(f.rest, f.key);
    }
  }

  /** Completeness is the number of members that are not null. */
  lemma {:induction false} CompletenessCounts(f: Fields)
    requires FieldsIncrease(f)
    ensures CountNonNull(f) == |Filled(f)|
  {
    if f.Field? {
      FirstIsFound(f);
      FilledAreFound(f.rest, f.key);
      CompletenessCounts(f.rest);
    }
  }

  function FilledIn(r: Row): set<string> {
    if r.Obj? then Filled(r.fields) else {}
  }

  lemma NonNullCounts(r: Row)
    requires Canonical(r)
    ensures NonNull(r) == |FilledIn(r)|
  {
    if r.Obj? {
      CompletenessCounts(r.fields);
    }
  }

  /** So a row with a value for each name another has one for, and one more, is the more complete one. */
  lemma MoreMembersAreMoreComplete(r: Row, s: Row)
    requires Canonical(r) && Canonical(s) && FilledIn(r) < FilledIn(s)
    ensures NonNull(r) < NonNull(s)
  {
    NonNullCounts(r);
    NonNullCounts(s);
    var more := FilledIn(s) - FilledIn(r);
    assert FilledIn(s) == FilledIn(r) + more;
    assert more != {};
  }

  // ---------- The order of the output ----------

  function TsText(r: Row): string {
    if Member(r, "ts").Str? then Member(r, "ts").text else ""
  }

  lemma SortsByTs(r: Row)
    requires Canonical(r)
    ensures SortTs(r) == TsText(r)
  {
    ReadsMember(r, "ts");
  }

  // ---------- What a merge keeps ----------

  /** Rows as the reader returns them. */
  ghost predicate Parsed(s: seq<Row>) {
    forall i | 0 <= i < |s| :: Canonical(s[i])
  }

  /** Exactly one row for each event of the inputs, and each an input row. */
  ghost predicate OneRowPerEvent(all: seq<Row>, m: seq<Row>) {
    && (forall w | w in m :: w in all)
    && (forall r | r in all :: exists w :: w in m && SameEvent(w, r))
    && (forall i, j | 0 <= i < j < |m| :: !SameEvent(m[i], m[j]))
  }

  /** Equally complete records of one event. */
  predicate Rivals(r: Row, w: Row) {
    SameEvent(r, w) && |FilledIn(r)| == |FilledIn(w)|
  }

  /** w stands at place i: no record of its event has more values, and of equally complete ones those in ours come
      first, and then the earlier ones. */
  ghost predicate WinsAt(all: seq<Row>, ours: seq<Row>, w: Row, i: int) {
    && 0 <= i < |all| && all[i] == w
    && (forall r | r in all && SameEvent(r, w) :: |FilledIn(r)| <= |FilledIn(w)|)
    && (forall j | 0 <= j < |all| && Rivals(all[j], w) ::
          (all[j] in ours ==> w in ours) && (j < i ==> w in ours && all[j] !in ours))
  }

  ghost predicate Wins(all: seq<Row>, ours: seq<Row>, w: Row) {
    exists i :: WinsAt(all, ours, w, i)
  }

  /** By ts and, within one ts, by canonical text. */
  predicate Earlier(r: Row, s: Row) {
    Order.Before(TsText(r), TsText(s)) || (TsText(r) == TsText(s) && Order.Before(Dumps(r), Dumps(s)))
  }

  ghost predicate KeepsEvents(all: seq<Row>, ours: seq<Row>, m: seq<Row>) {
    && OneRowPerEvent(all, m)
    && (forall w | w in m :: Wins(all, ours, w))
    && (forall i, j | 0 <= i < j < |m| :: Earlier(m[i], m[j]))
  }

  lemma AllAre(s: seq<Row>, r: Row)
    ensures Parsed(s) && r in s ==> Canonical(r)
  {}

  lemma EarlierIsBefore(r: Row, s: Row)
    requires Canonical(r) && Canonical(s)
    ensures RowBefore(r, s) <==> Earlier(r, s)
  {
    SortsByTs(r);
    SortsByTs(s);
  }

  lemma OneOutputPerEvent(o: seq<Row>, a: seq<Row>, b: seq<Row>, m: seq<Row>)
    requires IsMerge(o, a, b, m) && Parsed(o + a + b)
    ensures OneRowPerEvent(o + a + b, m)
  {
    hide IsMerge, KeyOf, SameEvent, Canonical, RowBefore, NonNull;
    var all := o + a + b;
    MergeKeeps(o, a, b, m);
    forall r, s | r in all && s in all
      ensures KeyOf(r) == KeyOf(s) <==> SameEvent(r, s)
    {
      AllAre(all, r);
      AllAre(all, s);
      SameKeyIffSameEvent(r, s);
    }
    forall r | r in all
      ensures exists w :: w in m && SameEvent(w, r)
    {
      var w :| w in m && KeyOf(w) == KeyOf(r);
    }
    forall i, j | 0 <= i < j < |m|
      ensures !SameEvent(m[i], m[j])
    {
      assert m[i] in m && m[j] in m;
    }
  }

  /** A search finds the first row there is to find. */
  lemma {:induction false} FirstIsFirst(s: seq<Row>, k: Key, n: int, side: set<Row>) returns (i: nat)
    requires FirstIn(s, k, n, side).Some?
    ensures i < |s| && s[i] == FirstIn(s, k, n, side).value
    ensures forall j | 0 <= j < i :: !(KeyOf(s[j]) == k && NonNull(s[j]) == n && s[j] in side)
    decreases |s|
  {
    hide KeyOf, NonNull;
    if KeyOf(s[0]) == k && NonNull(s[0]) == n && s[0] in side {
      i := 0;
    } else {
      i := FirstIsFirst(s[1..], k, n, side);
      i := i + 1;
      assert forall j | 1 <= j < i :: s[j] == s[1..][j - 1];
    }
  }

  lemma SurvivorWins(o: seq<Row>, a: seq<Row>, b: seq<Row>, w: Row)
    requires Parsed(o + a + b) && Survivor(o, a, b, KeyOf(w)) == Some(w)
    ensures Wins(o + a + b, a, w)
  {
    hide KeyOf, NonNull, SameEvent, FilledIn, Canonical;
    var all, k := o + a + b, KeyOf(w);
    var n := MaxAt(all, k);
    SurvivorIsMostComplete(o, a, b, k);
    forall r | r in all
      ensures (KeyOf(r) == k <==> SameEvent(r, w)) && NonNull(r) == |FilledIn(r)|
    {
      AllAre(all, r);
      AllAre(all, w);
      SameKeyIffSameEvent(r, w);
      NonNullCounts(r);
    }
    FirstFinds(all, k, n, Elements(a));
    var side := if FirstIn(all, k, n, Elements(a)).Some? then Elements(a) else Elements(all);
    var i := FirstIsFirst(all, k, n, side);
    assert forall j | 0 <= j < |all| :: all[j] in all;
    FirstFinds(all, k, n, side);
    assert WinsAt(all, a, w, i);
  }

  /** Main result: what the merge does to the members of the rows. */
  lemma MergeKeepsEvents(o: seq<Row>, a: seq<Row>, b: seq<Row>, m: seq<Row>)
    requires IsMerge(o, a, b, m) && Parsed(o + a + b)
    ensures KeepsEvents(o + a + b, a, m)
  {
    OneOutputPerEvent(o, a, b, m);
    forall w | w in m
      ensures Wins(o + a + b, a, w)
    {
      SurvivorWins(o, a, b, w);
    }
    forall i, j | 0 <= i < j < |m|
      ensures Earlier(m[i], m[j])
    {
      assert m[i] in m && m[j] in m;
      AllAre(o + a + b, m[i]);
      AllAre(o + a + b, m[j]);
      EarlierIsBefore(m[i], m[j]);
    }
  }
}
