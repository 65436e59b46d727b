/** Baselines, and the gate. */
module EvalGate {
  import opened EvalCases

  // The gate compares a baseline with the cases of today (bin/_eval_baseline/mint.py, bin/_eval_gate/compare.py).

  /** One row of case_scores.jsonl, and one active case: an id and its expected outcome. */
  datatype Row = Row(id: string, outcome: Outcome)

  // ---------- Listing and minting ----------

  predicate Active(s: Store, id: string) {
    id in s.cases && Prefixed(id) && !s.cases[id].retired
  }

  /** list_cases: the rows of the active cases among the listed files. */
  function ActiveRows(s: Store, files: seq<string>): seq<Row> {
    if files == [] then []
    else
      var id := files[|files| - 1];
      ActiveRows(s, files[..|files| - 1]) + (if Active(s, id) then [Row(id, s.cases[id].outcome)] else [])
  }

  ghost predicate DirectoryOf(s: Store, files: seq<string>) {
    && (forall id :: id in files <==> id in s.cases)
    && (forall i, j | 0 <= i < j < |files| :: files[i] != files[j])
  }

  predicate IsDigit(c: char) {
    '0' <= c <= '9'
  }

  /** A date, an underscore and a label. */
  predicate DatedLabel(n: string) {
    && |n| >= 12 && n[4] == n[7] == '-' && n[10] == '_'
    && (forall i | 0 <= i < 10 && i != 4 && i != 7 :: IsDigit(n[i]))
    && (forall i | 11 <= i < |n| :: IsAlnum(n[i]) || n[i] == '_' || n[i] == '-')
  }

  /** BASELINE_NAME_RE; its `$` also matches before a final line feed. */
  predicate ValidName(name: string) {
    DatedLabel(if name != "" && name[|name| - 1] == '\n' then name[..|name| - 1] else name)
  }

  datatype MintResult = Minted | InvalidName | DatasetEmpty | AlreadyExists

  /** mint: a baseline with one row per active case, never in the place of another. `baselines` are the directories by
      name. */
  method Mint(s: Store, files: seq<string>, name: string, baselines: map<string, seq<Row>>)
      returns (r: MintResult, after: map<string, seq<Row>>)
    ensures r.InvalidName? <==> !ValidName(name)
    ensures r.DatasetEmpty? <==> ValidName(name) && ActiveRows(s, files) == []
    ensures r.AlreadyExists? ==> name in baselines
    ensures r.Minted? ==> name !in baselines && ActiveRows(s, files) != []
    ensures after == if r.Minted? then baselines[name := ActiveRows(s, files)] else baselines
  {
    after := baselines;
    if !ValidName(name) {
      return InvalidName, after;
    }
    var out := [];
    for n := 0 to |files|
      invariant out == ActiveRows(s, files[..n])
    {
      assert files[..n + 1][..n] == files[..n];
      if Active(s, files[n]) {
        out := out + [Row(files[n], s.cases[files[n]].outcome)];
      }
    }
    assert files[..|files|] == files;
    if out == [] {
      return DatasetEmpty, after;
    }
    if name in baselines {
      return AlreadyExists, after;
    }
    r, after := Minted, baselines[name := out];
  }

  ghost predicate Lists(rows: seq<Row>, id: string) {
    exists i :: 0 <= i < |rows| && rows[i].id == id
  }

  lemma {:induction false} ActiveRowsAreExact(s: Store, files: seq<string>)
    ensures forall i | 0 <= i < |ActiveRows(s, files)| :: (
      var r := ActiveRows(s, files)[i];
      r.id in files && r.id in s.cases && r.outcome == s.cases[r.id].outcome)
    ensures forall id :: Lists(ActiveRows(s, files), id) <==>
      id in files && id in s.cases && "case_" <= id && !s.cases[id].retired
  {
    if files != [] {
      var n := |files| - 1;
      ActiveRowsAreExact(s, files[..n]);
      assert files == files[..n] + [files[n]];
      var rest, rows := ActiveRows(s, files[..n]), ActiveRows(s, files);
      forall id
        ensures Lists(rows, id) <==> id in files && Active(s, id)
      {
        if Lists(rest, id) {
          var i :| 0 <= i < |rest| && rest[i].id == id;
          assert rows[i].id == id;
        }
        if Active(s, files[n]) {
          assert rows[|rest|].id == files[n];
        }
        if Lists(rows, id) {
          var i :| 0 <= i < |rows| && rows[i].id == id;
          assert i < |rest| ==> rest[i].id == id;
        }
      }
    }
  }

  // ---------- Comparing ----------

  datatype CompareResult = CompareResult(regressions: seq<string>, missing: seq<string>, extra: seq<string>, matched: nat)

  /** The dict the rows build: the last row of an id wins. */
  function ById(rows: seq<Row>): map<string, Outcome> {
    if rows == [] then map[]
    else ById(rows[..|rows| - 1])[rows[|rows| - 1].id := rows[|rows| - 1].outcome]
  }

  lemma {:induction false} ByIdKeys(rows: seq<Row>)
    ensures forall id :: id in ById(rows) <==> Lists(rows, id)
    ensures forall id | id in ById(rows) :: exists i :: 0 <= i < |rows| && rows[i] == Row(id, ById(rows)[id])
  {
    if rows != [] {
      var n := |rows| - 1;
      ByIdKeys(rows[..n]);
      forall id
        ensures id in ById(rows) <==> Lists(rows, id)
        ensures id in ById(rows) ==> exists i :: 0 <= i < |rows| && rows[i] == Row(id, ById(rows)[id])
      {
        if Lists(rows, id) {
          var i :| 0 <= i < |rows| && rows[i].id == id;
          assert i < n ==> rows[..n][i].id == id;
        }
        if Lists(rows[..n], id) {
          var i :| 0 <= i < n && rows[..n][i].id == id;
          assert rows[i].id == id;
        }
        if id == rows[n].id {
          assert rows[n] == Row(id, ById(rows)[id]);
        } else if id in ById(rows) {
          var i :| 0 <= i < n && rows[..n][i] == Row(id, ById(rows[..n])[id]);
          assert rows[i] == Row(id, ById(rows)[id]);
        }
      }
    }
  }

  ghost predicate NoRepeats(ids: seq<string>) {
    forall i, j | 0 <= i < j < |ids| :: ids[i] != ids[j]
  }

  /** The verdict as set equations over the two dicts. */
  ghost predicate IsComparison(r: CompareResult, base: map<string, Outcome>, now: map<string, Outcome>) {
    && (forall id :: id in r.regressions <==> id in now && id in base && base[id] != now[id])
    && (forall id :: id in r.missing <==> id in now && id !in base)
    && (forall id :: id in r.extra <==> id in base && id !in now)
    && NoRepeats(r.regressions) && NoRepeats(r.missing) && NoRepeats(r.extra)
    && r.matched + |r.regressions| + |r.missing| == |now.Keys|
  }

  lemma Extend(ids: seq<string>, id: string)
    ensures NoRepeats(ids) && id !in ids ==> NoRepeats(ids + [id])
  {}

  /** A dict's keys in insertion order. */
  method Keys(rows: seq<Row>) returns (keys: seq<string>, dict: map<string, Outcome>)
    ensures dict == ById(rows) && NoRepeats(keys) && (forall id :: id in keys <==> id in dict) && |keys| == |dict.Keys|
  {
    keys, dict := [], map[];
    for n := 0 to |rows|
      invariant dict == ById(rows[..n]) && NoRepeats(keys) && forall id :: id in keys <==> id in dict
      invariant |keys| == |dict.Keys|
    {
      assert rows[..n + 1][..n] == rows[..n];
      var r := rows[n];
      if r.id !in dict {
        Extend(keys, r.id);
        keys := keys + [r.id];
        assert dict[r.id := r.outcome].Keys == dict.Keys + {r.id};
      } else {
        assert dict[r.id := r.outcome].Keys == dict.Keys;
      }
      dict := dict[r.id := r.outcome];
    }
    assert rows[..|rows|] == rows;
  }

  lemma Empty(ids: seq<string>)
    ensures (forall id :: id !in ids) ==> ids == []
  {
    assert ids != [] ==> ids[0] in ids;
  }

  /** The keys outside a dict, in their order. */
  function Outside(keys: seq<string>, dict: map<string, Outcome>): seq<string> {
    if keys == [] then []
    else if keys[|keys| - 1] in dict then Outside(keys[..|keys| - 1], dict)
    else Outside(keys[..|keys| - 1], dict) + [keys[|keys| - 1]]
  }

  predicate Differs(id: string, base: map<string, Outcome>, now: map<string, Outcome>) {
    id in base && id in now && base[id] != now[id]
  }

  function Differing(keys: seq<string>, base: map<string, Outcome>, now: map<string, Outcome>): seq<string> {
    if keys == [] then []
    else if Differs(keys[|keys| - 1], base, now) then Differing(keys[..|keys| - 1], base, now) + [keys[|keys| - 1]]
    else Differing(keys[..|keys| - 1], base, now)
  }

  lemma {:induction false} OutsideIsExact(keys: seq<string>, dict: map<string, Outcome>)
    requires NoRepeats(keys)
    ensures NoRepeats(Outside(keys, dict)) && forall id :: id in Outside(keys, dict) <==> id in keys && id !in dict
  {
    if keys != [] {
      var n := |keys| - 1;
      OutsideIsExact(keys[..n], dict);
      assert keys == keys[..n] + [keys[n]];
    }
  }

  lemma {:induction false} DifferingIsExact(keys: seq<string>, base: map<string, Outcome>, now: map<string, Outcome>)
    requires NoRepeats(keys)
    ensures NoRepeats(Differing(keys, base, now))
    ensures forall id :: id in Differing(keys, base, now) <==> id in keys && Differs(id, base, now)
  {
    if keys != [] {
      var n := |keys| - 1;
      DifferingIsExact(keys[..n], base, now);
      assert keys == keys[..n] + [keys[n]];
    }
  }

  method CompareKeys(keys: seq<string>, base: map<string, Outcome>, now: map<string, Outcome>)
      returns (regressions: seq<string>, missing: seq<string>, matched: nat)
    requires forall id | id in keys :: id in now
    ensures regressions == Differing(keys, base, now) && missing == Outside(keys, base)
    ensures matched + |regressions| + |missing| == |keys|
  {
    regressions, missing, matched := [], [], 0;
    for n := 0 to |keys|
      invariant regressions == Differing(keys[..n], base, now)
      invariant missing == Outside(keys[..n], base)
      invariant matched + |regressions| + |missing| == n
    {
      var id := keys[n];
      assert keys[..n + 1][..n] == keys[..n];
      if id !in base {
        missing := missing + [id];
      } else if base[id] != now[id] {
        regressions := regressions + [id];
      } else {
        matched := matched + 1;
      }
    }
    assert keys[..|keys|] == keys;
  }

  method Compare(baselineRows: seq<Row>, activeRows: seq<Row>) returns (r: CompareResult)
    ensures IsComparison(r, ById(baselineRows), ById(activeRows))
  {
    hide ById, Differing, Outside;
    var baseKeys, base := Keys(baselineRows);
    var nowKeys, now := Keys(activeRows);
    var regressions, missing, matched := CompareKeys(nowKeys, base, now);
    OutsideIsExact(nowKeys, base);
    OutsideIsExact(baseKeys, now);
    DifferingIsExact(nowKeys, base, now);
    r := CompareResult(regressions, missing, Outside(baseKeys, now), matched);
  }

  // ---------- The gate over runs ----------

  /** Main result: for a baseline minted at any state of a run and any later state, crashes included, the gate
      finds no regression; `missing` is exactly what became active since and `extra` exactly what ceased to be. */
  lemma GateNeverRegresses(states: seq<Store>, commands: seq<Command>, i: nat, j: nat,
                           filesThen: seq<string>, filesNow: seq<string>, r: CompareResult)
    requires IsRun(states, commands) && i <= j < |states|
    requires DirectoryOf(states[i], filesThen) && DirectoryOf(states[j], filesNow)
    requires IsComparison(r, ById(ActiveRows(states[i], filesThen)), ById(ActiveRows(states[j], filesNow)))
    ensures r.regressions == []
    ensures forall id :: id in r.missing <==> Active(states[j], id) && !Active(states[i], id)
    ensures forall id :: id in r.extra <==> Active(states[i], id) && !Active(states[j], id)
  {
    hide IsRun;
    CasesNeverChange(states, commands, i, j);
    DictOfActive(states[i], filesThen);
    DictOfActive(states[j], filesNow);
    Empty(r.regressions);
  }

  lemma DictOfActive(s: Store, files: seq<string>)
    requires DirectoryOf(s, files)
    ensures var d := ById(ActiveRows(s, files));
      forall id :: (id in d <==> Active(s, id)) && (id in d ==> d[id] == s.cases[id].outcome)
  {
    var rows := ActiveRows(s, files);
    ActiveRowsAreExact(s, files);
    ByIdKeys(rows);
  }
}
