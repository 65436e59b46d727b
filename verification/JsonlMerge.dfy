/** The merge driver on file contents: parsing, merging and printing (bin/_git_merge_jsonl/merge.py). */
module JsonlMerge {
  import opened Optional
  import opened Json
  import opened JsonNormal
  import opened LogRows
  import opened LogMerge
  import opened LogEvents
  import opened MergeDriver
  import Utf8

  const MAX_BYTES := 100 * 1024 * 1024

  datatype Side = Ancestor | Ours | Theirs

  datatype Problem = TooBig | BadLine(lineno: nat)

  datatype ParseResult = Rows(rows: seq<Row>) | Bad(problem: Problem)

  /** Impossible is MergeImpossibleError; OffSchema: a row outside the log schema, of which nothing is claimed. */
  datatype Outcome = Merged(text: string) | Impossible(side: Side, problem: Problem) | OffSchema

  // ---------- Parsing ----------

  /** content.split("\n") */
  function Split(s: string): (lines: seq<string>)
    ensures lines != []
  {
    SplitFrom(s, 0)
  }

  /** The lines of s, whose first i characters are known to hold no line feed. */
  function SplitFrom(s: string, i: nat): (lines: seq<string>)
    requires i <= |s|
    ensures lines != []
    decreases |s|, |s| - i
  {
    if i == |s| then [s]
    else if s[i] == '\n' then [s[..i]] + SplitFrom(s[i + 1..], 0)
    else SplitFrom(s, i + 1)
  }

  /** The rows of lines, the first of which has number n; blank lines are skipped. */
  function ParseFrom(lines: seq<string>, n: nat, loads: string -> Option<Json>): ParseResult {
    if lines == [] then Rows([])
    else if lines[0] == "" then ParseFrom(lines[1..], n + 1, loads)
    else
      match loads(lines[0])
      case Some(Obj(f)) =>
        (match ParseFrom(lines[1..], n + 1, loads)
         case Rows(rest) => Rows([Obj(f)] + rest)
         case Bad(p) => Bad(p))
      case _ => Bad(BadLine(n))
  }

  function Parse(content: string, loads: string -> Option<Json>): ParseResult {
    if Utf8.ByteLen(content) > MAX_BYTES then Bad(TooBig) else ParseFrom(Split(content), 1, loads)
  }

  lemma {:induction false} ParseSnoc(lines: seq<string>, n: nat, loads: string -> Option<Json>, i: nat)
    requires i < |lines|
    ensures ParseFrom(lines[..i], n, loads).Rows? ==>
      && (lines[i] == "" ==> ParseFrom(lines[..i + 1], n, loads) == ParseFrom(lines[..i], n, loads))
      && (lines[i] != "" && loads(lines[i]).Some? && loads(lines[i]).value.Obj? ==>
            ParseFrom(lines[..i + 1], n, loads) == Rows(ParseFrom(lines[..i], n, loads).rows + [loads(lines[i]).value]))
      && (lines[i] != "" && !(loads(lines[i]).Some? && loads(lines[i]).value.Obj?) ==>
            ParseFrom(lines, n, loads) == Bad(BadLine(n + i)))
    decreases i
  {
    if i == 0 {
      assert lines[..1][1..] == lines[..0] && lines[..1][0] == lines[0];
    } else {
      assert lines[..i][1..] == lines[1..][..i - 1] && lines[..i + 1][1..] == lines[1..][..i];
      ParseSnoc(lines[1..], n + 1, loads, i - 1);
    }
  }

  /** Rows that the reader reads back from their canonical lines. */
  ghost predicate ReadBack(rows: seq<Row>, loads: string -> Option<Json>) {
    forall i | 0 <= i < |rows| :: rows[i].Obj? && loads(Dumps(rows[i])) == Some(rows[i])
  }

  lemma {:induction false} ParsedReadBack(lines: seq<string>, n: nat, loads: string -> Option<Json>)
    requires Faithful(loads, COMPACT) && ParseFrom(lines, n, loads).Rows?
    ensures Parsed(ParseFrom(lines, n, loads).rows) && ReadBack(ParseFrom(lines, n, loads).rows, loads)
    decreases |lines|
  {
    if lines != [] {
      assert FaithfulOn(loads, COMPACT, lines[0]);
      ParsedReadBack(lines[1..], n + 1, loads);
    }
  }

  /** _parse_lines */
  method ParseLines(content: string, loads: string -> Option<Json>) returns (r: ParseResult)
    requires Faithful(loads, COMPACT)
    ensures r == Parse(content, loads)
    ensures r.Rows? ==> Parsed(r.rows) && ReadBack(r.rows, loads)
  {
    if Utf8.ByteLen(content) > MAX_BYTES {
      return Bad(TooBig);
    }
    var lines := Split(content);
    var rows := [];
    for i := 0 to |lines|
      invariant ParseFrom(lines[..i], 1, loads) == Rows(rows)
      invariant Parsed(rows) && ReadBack(rows, loads)
    {
      ParseSnoc(lines, 1, loads, i);
      var raw := lines[i];
      if raw != "" {
        var obj := loads(raw);
        if obj.None? || !obj.value.Obj? {
          return Bad(BadLine(i + 1));
        }
        assert FaithfulOn(loads, COMPACT, raw);
        rows := rows + [obj.value];
      }
    }
    assert lines[..|lines|] == lines;
    r := Rows(rows);
  }

  // ---------- Printing ----------

  /** One canonical line for each row. */
  function Render(rows: seq<Row>): string {
    if rows == [] then "" else Dumps(rows[0]) + (['\n'] + Render(rows[1..]))
  }

  lemma {:induction false} SplitLine(line: string, rest: string, i: nat)
    requires OneLine(line) && i <= |line|
    ensures SplitFrom(line + (['\n'] + rest), i) == [line] + Split(rest)
    decreases |line| - i
  {
    var s := line + (['\n'] + rest);
    if i == |line| {
      assert s[..i] == line && s[i + 1..] == rest;
    } else {
      SplitLine(line, rest, i + 1);
    }
  }

  lemma LineReadsBack(row: Row, loads: string -> Option<Json>)
    requires WellFormed(row) && loads(Dumps(row)) == Some(row)
    ensures loads(Dumps(row)) == Some(row) && Dumps(row) != "" && OneLine(Dumps(row))
  {
    CompactIsOneLine(row, 0);
    PrintStarts(row, COMPACT, 0);
  }

  lemma ParseLine(line: string, rest: string, n: nat, loads: string -> Option<Json>)
    requires OneLine(line) && line != "" && loads(line).Some? && loads(line).value.Obj?
    requires ParseFrom(Split(rest), n + 1, loads).Rows?
    ensures ParseFrom(Split(line + (['\n'] + rest)), n, loads)
         == Rows([loads(line).value] + ParseFrom(Split(rest), n + 1, loads).rows)
  {
    var tail := Split(rest);
    SplitLine(line, rest, 0);
    assert ([line] + tail)[1..] == tail;
  }

  /** Parsing undoes printing. */
  lemma {:induction false} ParseRendered(rows: seq<Row>, n: nat, loads: string -> Option<Json>)
    requires Parsed(rows) && ReadBack(rows, loads)
    ensures ParseFrom(Split(Render(rows)), n, loads) == Rows(rows)
    decreases |rows|
  {
    if rows == [] {
      assert Split("")[1..] == [];
    } else {
      ParseRendered(rows[1..], n + 1, loads);
      LineReadsBack(rows[0], loads);
      ParseLine(Dumps(rows[0]), Render(rows[1..]), n, loads);
      assert rows == [rows[0]] + rows[1..];
    }
  }

  // ---------- The driver ----------

  /** Null, text and integers: as dictionary keys two of these are equal exactly when they are the same value. */
  predicate IsId(v: Json) {
    v.Null? || v.Str? || (v.Num? && forall i | 0 <= i < |v.lexeme| :: v.lexeme[i] == '-' || '0' <= v.lexeme[i] <= '9')
  }

  /** `row.get("transition") or {}` takes any false value for an empty transition. */
  predicate IsFalse(v: Json) {
    v.Null? || v == Bool(false) || v == Str("") || v == Arr(NoItems) || (v.Num? && v.lexeme in {"0", "0.0", "-0.0"})
  }

  /** The row shape of the log schema, as far as the merge keys on it.  On other rows the
      driver may die of an uncaught TypeError or AttributeError. */
  predicate LogShaped(row: Row) {
    var trans := GetOrNull(row, "transition");
    && row.Obj?
    && (Get(row.fields, "ts").Some? ==> GetOrNull(row, "ts").Str?)
    && IsId(GetOrNull(row, "session_id")) && IsId(GetOrNull(row, "task_id"))
    && (IsFalse(trans) || trans.Obj?)
    && IsId(GetOrNull(trans, "from")) && IsId(GetOrNull(trans, "to"))
  }

  predicate AllLogShaped(rows: seq<Row>) {
    forall i | 0 <= i < |rows| :: LogShaped(rows[i])
  }

  /** r is what the driver does with the three contents. */
  ghost predicate MergesTo(o: string, a: string, b: string, loads: string -> Option<Json>, r: Outcome) {
    match (Parse(o, loads), Parse(a, loads), Parse(b, loads))
    case (Bad(p), _, _) => r == Impossible(Ancestor, p)
    case (Rows(_), Bad(p), _) => r == Impossible(Ours, p)
    case (Rows(_), Rows(_), Bad(p)) => r == Impossible(Theirs, p)
    case (Rows(x), Rows(y), Rows(z)) =>
      if AllLogShaped(x + y + z) then
        exists m :: IsMerge(x, y, z, m) && r == Merged(Render(m))
      else r == OffSchema
  }

  /** The text of a log that keeps the events of three logs. */
  ghost predicate KeepsTextEvents(o: string, a: string, b: string, loads: string -> Option<Json>, text: string) {
    && Parse(o, loads).Rows? && Parse(a, loads).Rows? && Parse(b, loads).Rows?
    && exists m :: text == Render(m)
         && KeepsEvents(Parse(o, loads).rows + Parse(a, loads).rows + Parse(b, loads).rows, Parse(a, loads).rows, m)
  }

  method MergeText(ancestor: string, ours: string, theirs: string, loads: string -> Option<Json>, sha: string -> string)
    returns (r: Outcome)
    requires Faithful(loads, COMPACT) && CollisionFree(sha)
    ensures MergesTo(ancestor, ours, theirs, loads, r)
    ensures r.Merged? ==> KeepsTextEvents(ancestor, ours, theirs, loads, r.text)
  {
    var x := ParseLines(ancestor, loads);
    if x.Bad? {
      return Impossible(Ancestor, x.problem);
    }
    var y := ParseLines(ours, loads);
    if y.Bad? {
      return Impossible(Ours, y.problem);
    }
    var z := ParseLines(theirs, loads);
    if z.Bad? {
      return Impossible(Theirs, z.problem);
    }
    if !AllLogShaped(x.rows + y.rows + z.rows) {
      return OffSchema;
    }
    var m := Merge(x.rows, y.rows, z.rows, sha);
    r := Merged(Render(m));
  }

  // ---------- The algebra, on bytes ----------

  /** A merged text parses back to the merged rows, if it is not too big to be read. */
  lemma MergedParses(o: string, a: string, b: string, loads: string -> Option<Json>, r: Outcome) returns (m: seq<Row>)
    requires Faithful(loads, COMPACT) && MergesTo(o, a, b, loads, r) && r.Merged?
    ensures Parse(o, loads).Rows? && Parse(a, loads).Rows? && Parse(b, loads).Rows?
    ensures IsMerge(Parse(o, loads).rows, Parse(a, loads).rows, Parse(b, loads).rows, m)
    ensures AllLogShaped(Parse(o, loads).rows + Parse(a, loads).rows + Parse(b, loads).rows) && AllLogShaped(m)
    ensures r.text == Render(m)
    ensures Parse(r.text, loads) == if Utf8.ByteLen(r.text) <= MAX_BYTES then Rows(m) else Bad(TooBig)
  {
    hide LogShaped, Canonical;
    var x, y, z := Parse(o, loads).rows, Parse(a, loads).rows, Parse(b, loads).rows;
    m :| IsMerge(x, y, z, m) && r == Merged(Render(m));
    ParsedReadBack(Split(o), 1, loads);
    ParsedReadBack(Split(a), 1, loads);
    ParsedReadBack(Split(b), 1, loads);
    forall i | 0 <= i < |m|
      ensures LogShaped(m[i]) && Canonical(m[i]) && m[i].Obj? && loads(Dumps(m[i])) == Some(m[i])
    {
      assert m[i] in m;
      SurvivorIsMostComplete(x, y, z, KeyOf(m[i]));
    }
    ParseRendered(m, 1, loads);
  }

  /** Contents that parse to log rows do merge. */
  lemma ShapedMerges(o: string, a: string, b: string, loads: string -> Option<Json>, r: Outcome,
                     x: seq<Row>, y: seq<Row>, z: seq<Row>) returns (m: seq<Row>)
    requires MergesTo(o, a, b, loads, r)
    requires Parse(o, loads) == Rows(x) && Parse(a, loads) == Rows(y) && Parse(b, loads) == Rows(z)
    requires AllLogShaped(x) && AllLogShaped(y) && AllLogShaped(z)
    ensures IsMerge(x, y, z, m) && r == Merged(Render(m))
  {
    assert AllLogShaped(x + y + z);
    m :| IsMerge(x, y, z, m) && r == Merged(Render(m));
  }

  /** Main result: for all file contents, merging two at a time over one ancestor gives
      byte-identical results either way exactly when neither intermediate file has
      outgrown the driver's own size limit. */
  lemma TextAssociative(o: string, a: string, b: string, c: string, loads: string -> Option<Json>,
                        r1: Outcome, r2: Outcome, x: Outcome, y: Outcome)
    requires Faithful(loads, COMPACT)
    requires MergesTo(o, a, b, loads, r1) && r1.Merged? && MergesTo(o, r1.text, c, loads, x)
    requires MergesTo(o, b, c, loads, r2) && r2.Merged? && MergesTo(o, a, r2.text, loads, y)
    ensures x == y <==> Utf8.ByteLen(r1.text) <= MAX_BYTES && Utf8.ByteLen(r2.text) <= MAX_BYTES
    ensures x == y ==> x.Merged?
  {
    var m1 := MergedParses(o, a, b, loads, r1);
    var m2 := MergedParses(o, b, c, loads, r2);
    if Utf8.ByteLen(r1.text) <= MAX_BYTES && Utf8.ByteLen(r2.text) <= MAX_BYTES {
      TextAssociativeWhenRead(o, a, b, c, loads, r1.text, r2.text, m1, m2, x, y);
    }
  }

  lemma TextAssociativeWhenRead(o: string, a: string, b: string, c: string, loads: string -> Option<Json>,
                                t1: string, t2: string, m1: seq<Row>, m2: seq<Row>, x: Outcome, y: Outcome)
    requires Parse(o, loads).Rows? && Parse(a, loads).Rows? && Parse(b, loads).Rows? && Parse(c, loads).Rows?
    requires AllLogShaped(Parse(o, loads).rows + Parse(a, loads).rows + Parse(b, loads).rows)
    requires AllLogShaped(Parse(o, loads).rows + Parse(b, loads).rows + Parse(c, loads).rows)
    requires IsMerge(Parse(o, loads).rows, Parse(a, loads).rows, Parse(b, loads).rows, m1)
    requires IsMerge(Parse(o, loads).rows, Parse(b, loads).rows, Parse(c, loads).rows, m2)
    requires Parse(t1, loads) == Rows(m1) && AllLogShaped(m1) && MergesTo(o, t1, c, loads, x)
    requires Parse(t2, loads) == Rows(m2) && AllLogShaped(m2) && MergesTo(o, a, t2, loads, y)
    ensures x == y && x.Merged?
  {
    var p, q, s, t := Parse(o, loads).rows, Parse(a, loads).rows, Parse(b, loads).rows, Parse(c, loads).rows;
    ShapedParts(p, q, s);
    ShapedParts(p, s, t);
    var u := ShapedMerges(o, t1, c, loads, x, p, m1, t);
    var v := ShapedMerges(o, a, t2, loads, y, p, q, m2);
    Associative(p, q, s, t, m1, m2, u, v);
  }

  lemma ShapedParts(x: seq<Row>, y: seq<Row>, z: seq<Row>)
    requires AllLogShaped(x + y + z)
    ensures AllLogShaped(x) && AllLogShaped(y) && AllLogShaped(z)
  {
    hide LogShaped;
    assert forall i | 0 <= i < |x| :: (x + y + z)[i] == x[i];
    assert forall i | 0 <= i < |y| :: (x + y + z)[|x| + i] == y[i];
    assert forall i | 0 <= i < |z| :: (x + y + z)[|x| + |y| + i] == z[i];
  }

  // ---------- The order of members on a line ----------

  /** The same line up to the order, repetition and number spelling of its members. */
  ghost predicate SameLine(s: string, t: string, decode: string -> Option<Json>, spell: string -> string) {
    && (s == "" <==> t == "")
    && decode(s).Some? == decode(t).Some?
    && (decode(s).Some? ==> Same(decode(s).value, decode(t).value, spell))
  }

  ghost predicate SameLines(s: seq<string>, t: seq<string>, decode: string -> Option<Json>, spell: string -> string) {
    |s| == |t| && forall i {:trigger SameLine(s[i], t[i], decode, spell)} | 0 <= i < |s| ::
      SameLine(s[i], t[i], decode, spell)
  }

  lemma {:induction false} SameLinesParseAlike(s: seq<string>, t: seq<string>, n: nat,
                                               decode: string -> Option<Json>, spell: string -> string)
    requires Spelling(spell) && Scans(decode, spell, COMPACT) && SameLines(s, t, decode, spell)
    ensures ParseFrom(s, n, Loads(decode, spell)) == ParseFrom(t, n, Loads(decode, spell))
    decreases |s|
  {
    if s != [] {
      assert SameLine(s[0], t[0], decode, spell);
      forall i | 0 <= i < |s[1..]|
        ensures SameLine(s[1..][i], t[1..][i], decode, spell)
      {
        assert SameLine(s[i + 1], t[i + 1], decode, spell);
      }
      SameLinesParseAlike(s[1..], t[1..], n + 1, decode, spell);
      if decode(s[0]).Some? {
        assert ScansOn(decode, spell, COMPACT, s[0]) && ScansOn(decode, spell, COMPACT, t[0]);
        NormalIffSame(decode(s[0]).value, decode(t[0]).value, spell);
      }
    }
  }

  /** Main result: contents whose lines list the same members in other orders merge to the same bytes, as long as each
      is still read. */
  lemma MemberOrderNeverMatters(o: string, a: string, b: string, o': string, a': string, b': string,
                                decode: string -> Option<Json>, spell: string -> string, r: Outcome, r': Outcome)
    requires Spelling(spell) && Scans(decode, spell, COMPACT)
    requires SameLines(Split(o), Split(o'), decode, spell) && SameLines(Split(a), Split(a'), decode, spell)
    requires SameLines(Split(b), Split(b'), decode, spell)
    requires forall s | s in {o, a, b, o', a', b'} :: Utf8.ByteLen(s) <= MAX_BYTES
    requires MergesTo(o, a, b, Loads(decode, spell), r) && MergesTo(o', a', b', Loads(decode, spell), r')
    ensures r == r'
  {
    hide Survivor, SameLines, Split;
    var loads := Loads(decode, spell);
    SameLinesParseAlike(Split(o), Split(o'), 1, decode, spell);
    SameLinesParseAlike(Split(a), Split(a'), 1, decode, spell);
    SameLinesParseAlike(Split(b), Split(b'), 1, decode, spell);
    if r.Merged? {
      var x, y, z := Parse(o, loads).rows, Parse(a, loads).rows, Parse(b, loads).rows;
      var m :| IsMerge(x, y, z, m) && r == Merged(Render(m));
      var m' :| IsMerge(x, y, z, m') && r' == Merged(Render(m'));
      MergeIsUnique(x, y, z, m, m');
    }
  }

  /** In particular one record that the two sides write in two member orders is no conflict: the result is its one
      canonical line. */
  lemma OneRecordTwoOrders(s: string, t: string, decode: string -> Option<Json>, spell: string -> string, r: Outcome)
    requires Spelling(spell) && Scans(decode, spell, COMPACT)
    requires OneLine(s) && OneLine(t) && s != "" && t != ""
    requires decode(s).Some? && decode(t).Some? && Same(decode(s).value, decode(t).value, spell)
    requires decode(s).value.Obj? && LogShaped(Normal(decode(s).value, spell))
    requires Utf8.ByteLen(s + "\n") <= MAX_BYTES && Utf8.ByteLen(t + "\n") <= MAX_BYTES
    requires MergesTo("", s + "\n", t + "\n", Loads(decode, spell), r)
    ensures r == Merged(CanonicalText(decode(s).value, spell) + "\n")
  {
    var loads := Loads(decode, spell);
    var row := Normal(decode(s).value, spell);
    assert ScansOn(decode, spell, COMPACT, s) && ScansOn(decode, spell, COMPACT, t);
    NormalIffSame(decode(s).value, decode(t).value, spell);
    OneLineParses(s, loads);
    OneLineParses(t, loads);
    EmptyParses(loads);
    TwoCopiesMerge("", s + "\n", t + "\n", loads, row, r);
  }

  lemma EmptyParses(loads: string -> Option<Json>)
    ensures Parse("", loads) == Rows([])
  {
    assert Split("")[1..] == [];
  }

  /** A row that both sides add to an empty log. */
  lemma TwoCopiesMerge(o: string, a: string, b: string, loads: string -> Option<Json>, row: Row, r: Outcome)
    requires Parse(o, loads) == Rows([]) && Parse(a, loads) == Rows([row]) && Parse(b, loads) == Rows([row])
    requires LogShaped(row) && MergesTo(o, a, b, loads, r)
    ensures r == Merged(Dumps(row) + "\n")
  {
    hide Parse, LogShaped, IsMerge, Print;
    var m := ShapedMerges(o, a, b, loads, r, [], [row], [row]);
    OneRowMerge(row, m);
    assert Render([row][1..]) == "";
    assert Render([row]) == Dumps(row) + (['\n'] + "");
  }

  lemma OneLineParses(s: string, loads: string -> Option<Json>)
    requires OneLine(s) && s != "" && loads(s).Some? && loads(s).value.Obj?
    ensures ParseFrom(Split(s + "\n"), 1, loads) == Rows([loads(s).value])
  {
    assert Split("")[1..] == [];
    ParseLine(s, "", 1, loads);
    assert s + (['\n'] + "") == s + "\n";
  }

  lemma OneRowMerge(row: Row, m: seq<Row>)
    requires IsMerge([], [row], [row], m)
    ensures m == [row]
  {
    MergeKeeps([], [row], [row], m);
    assert row in [] + [row] + [row];
    forall i | 0 <= i < |m|
      ensures m[i] == row
    {
      assert m[i] in m;
    }
    var second := if |m| > 1 then m[1] else row;
    assert second == row && m[0] == row;
  }
}
