/**
 Wiring missing zones into an existing hub (bin/_fleet/hub.py, migrate).

 The anchored spans are verified, sorted by start and spliced from the last to the first. With distinct starts
 that is replacing them all at once.
 */
module HubMigrate {
  import opened Optional
  import opened HubText

  // ---------- The code ----------

  /** Operator anchors for a zone: the text between them is replaced. */
  datatype Anchor = Anchor(zone: Zone, start: string, end: string)

  datatype Span = Span(zone: Zone, from: nat, to: nat)

  /** The hand-written texts around generated zones. */
  datatype Prose = Prose(header: string, heading: Zone -> string, note: string, marker: string, protocol: string)

  function SpanOf(t: string, a: Anchor): (r: Option<Span>)
    ensures r.Some? ==> r.value.zone == a.zone && r.value.from <= r.value.to <= |t|
  {
    var i := Find(t, a.start, 0);
    if i.None? then None
    else
      var j := Find(t, a.end, i.value + |a.start|);
      if j.None? then None else Some(Span(a.zone, i.value + |a.start|, j.value))
  }

  /** The zones with an anchor that was not found. */
  function Missing(t: string, anchors: seq<Anchor>): seq<Zone> {
    if anchors == [] then []
    else Missing(t, anchors[..|anchors| - 1])
         + (if SpanOf(t, anchors[|anchors| - 1]).None? then [anchors[|anchors| - 1].zone] else [])
  }

  function Spans(t: string, anchors: seq<Anchor>): seq<Span> {
    if anchors == [] then []
    else
      var s := SpanOf(t, anchors[|anchors| - 1]);
      Spans(t, anchors[..|anchors| - 1]) + (if s.Some? then [s.value] else [])
  }

  /** sorted(spans, key=start), stable. */
  function SortUp(spans: seq<Span>): seq<Span> {
    if spans == [] then [] else InsertUp(SortUp(spans[..|spans| - 1]), spans[|spans| - 1])
  }

  function InsertUp(s: seq<Span>, x: Span): seq<Span> {
    if s == [] || s[|s| - 1].from <= x.from then s + [x]
    else InsertUp(s[..|s| - 1], x) + [s[|s| - 1]]
  }

  /** sorted(spans, key=start, reverse=True), stable: equal starts keep their order. */
  function SortDown(spans: seq<Span>): seq<Span> {
    if spans == [] then [] else InsertDown(SortDown(spans[..|spans| - 1]), spans[|spans| - 1])
  }

  function InsertDown(s: seq<Span>, x: Span): seq<Span> {
    if s == [] || s[0].from < x.from then [x] + s
    else [s[0]] + InsertDown(s[1..], x)
  }

  predicate Overlapping(up: seq<Span>) {
    exists k :: 0 <= k < |up| - 1 && up[k + 1].from < up[k].to
  }

  function Upto(t: string, i: nat): string {
    if i <= |t| then t[..i] else t
  }

  function Since(t: string, i: nat): string {
    if i <= |t| then t[i..] else ""
  }

  function Splice(t: string, s: Span, block: Zone -> string): string {
    Upto(t, s.from) + "\n\n" + block(s.zone) + "\n\n" + Since(t, s.to)
  }

  function SpliceAll(t: string, spans: seq<Span>, block: Zone -> string): string
    decreases |spans|
  {
    if spans == [] then t else SpliceAll(Splice(t, spans[0], block), spans[1..], block)
  }

  function EndLine(t: string): string {
    if t == "" || t[|t| - 1] != '\n' then t + "\n" else t
  }

  /** One appended zone under its lead-in text. */
  function AppendZone(mk: Markers, t: string, lead: string, z: Zone): string {
    t + "\n" + lead + "\n" + mk.Block(z) + "\n"
  }

  function AppendZones(mk: Markers, t: string, zones: seq<Zone>, lead: Zone -> string): string
    decreases |zones|
  {
    if zones == [] then t else AppendZones(mk, AppendZone(mk, t, lead(zones[0]), zones[0]), zones[1..], lead)
  }

  /** A new hub gets one section with a header; a hub with zones gets a compact block for each new one. */
  function AppendSections(mk: Markers, t: string, zones: seq<Zone>, isNew: bool, prose: Prose): string {
    if zones == [] then t
    else if isNew then AppendZones(mk, EndLine(t) + "\n" + prose.header + "\n", zones, z => prose.heading(z) + "\n")
    else AppendZones(mk, EndLine(t), zones, z => prose.heading(z) + "\n\n" + prose.note + "\n")
  }

  function AppendProtocol(t: string, prose: Prose): string {
    if Find(t, prose.marker, 0).Some? then t else EndLine(t) + "\n" + prose.protocol
  }

  function Unwired(mk: Markers, t: string, zones: seq<Zone>): seq<Zone> {
    if zones == [] then []
    else Unwired(mk, t, zones[..|zones| - 1])
         + (if Find(t, mk.begin(zones[|zones| - 1]), 0).None? then [zones[|zones| - 1]] else [])
  }

  /** The anchors of these zones, in the operator's order. */
  function For(anchors: seq<Anchor>, zones: seq<Zone>): seq<Anchor> {
    if anchors == [] then []
    else For(anchors[..|anchors| - 1], zones)
         + (if anchors[|anchors| - 1].zone in zones then [anchors[|anchors| - 1]] else [])
  }

  predicate Anchored(anchors: seq<Anchor>, z: Zone) {
    exists k :: 0 <= k < |anchors| && anchors[k].zone == z
  }

  function Unanchored(zones: seq<Zone>, anchors: seq<Anchor>): seq<Zone> {
    if zones == [] then []
    else Unanchored(zones[..|zones| - 1], anchors)
         + (if Anchored(anchors, zones[|zones| - 1]) then [] else [zones[|zones| - 1]])
  }

  datatype Outcome = NoOp | Migrated(text: string) | AnchorsMissing(zones: seq<Zone>) | SpansOverlap

  function Migrate(mk: Markers, t: string, given: seq<Anchor>, prose: Prose): Outcome {
    var toWire := Unwired(mk, t, ZONES);
    if toWire == [] then NoOp
    else
      var anchors := For(given, toWire);
      var spans := Spans(t, anchors);
      if Missing(t, anchors) != [] then AnchorsMissing(Missing(t, anchors))
      else if Overlapping(SortUp(spans)) then SpansOverlap
      else
        var spliced := SpliceAll(t, SortDown(spans), mk.Block);
        var isNew := |toWire| == |ZONES|;
        Migrated(AppendProtocol(AppendSections(mk, spliced, Unanchored(toWire, anchors), isNew, prose), prose))
  }

  // ---------- Back to front is all at once ----------

  /** t[..end] with every span replaced: `up` lists the spans from left to right. */
  function AllAtOnce(t: string, up: seq<Span>, end: nat, block: Zone -> string): string
    requires Fit(up, end) && end <= |t|
    decreases |up|
  {
    if up == [] then t[..end]
    else
      var s := up[|up| - 1];
      AllAtOnce(t, up[..|up| - 1], s.from, block) + FromSpan(t, s, end, block)
  }

  /** What replaces a span, and the text that follows it. */
  function FromSpan(t: string, s: Span, end: nat, block: Zone -> string): string
    requires s.to <= end <= |t|
  {
    "\n\n" + block(s.zone) + "\n\n" + t[s.to..end]
  }

  lemma SpliceSplits(t: string, s: Span, block: Zone -> string)
    requires s.from <= s.to <= |t|
    ensures Splice(t, s, block) == t[..s.from] + FromSpan(t, s, |t|, block)
  {
    assert t[s.to..|t|] == t[s.to..];
  }

  /** Spans from left to right, none reaching into the next one or past `end`. */
  ghost predicate Fit(up: seq<Span>, end: nat) {
    && (forall k | 0 <= k < |up| :: up[k].from <= up[k].to <= end)
    && (forall j, k | 0 <= j < k < |up| :: up[j].to <= up[k].from)
  }

  function Reverse(s: seq<Span>): seq<Span> {
    if s == [] then [] else [s[|s| - 1]] + Reverse(s[..|s| - 1])
  }

  lemma SplicePrefix(p: string, q: string, s: Span, block: Zone -> string)
    requires s.from <= s.to <= |p|
    ensures Splice(p + q, s, block) == Splice(p, s, block) + q
  {
    assert (p + q)[..s.from] == p[..s.from];
    assert (p + q)[s.to..] == p[s.to..] + q;
    Shift(p[..s.from], block(s.zone), p[s.to..], q);
  }

  lemma Shift(a: string, b: string, c: string, d: string)
    ensures a + "\n\n" + b + "\n\n" + (c + d) == (a + "\n\n" + b + "\n\n" + c) + d
  {}

  lemma {:induction false} SpliceAllConcat(t: string, a: seq<Span>, b: seq<Span>, block: Zone -> string)
    ensures SpliceAll(t, a + b, block) == SpliceAll(SpliceAll(t, a, block), b, block)
    decreases |a|
  {
    if a == [] {
      assert a + b == b;
    } else {
      assert (a + b)[1..] == a[1..] + b;
      SpliceAllConcat(Splice(t, a[0], block), a[1..], b, block);
    }
  }

  lemma SpliceGrows(t: string, s: Span, block: Zone -> string)
    requires s.from <= s.to <= |t|
    ensures |Splice(t, s, block)| >= s.from && Splice(t, s, block)[..s.from] == t[..s.from]
  {
    SpliceSplits(t, s, block);
  }

  /** Splicing inside a prefix leaves the rest alone. */
  lemma {:induction false} SpliceAllPrefix(p: string, q: string, up: seq<Span>, block: Zone -> string)
    requires Fit(up, |p|)
    ensures SpliceAll(p + q, Reverse(up), block) == SpliceAll(p, Reverse(up), block) + q
    decreases |up|
  {
    if up != [] {
      var n := |up| - 1;
      var s := up[n];
      SplicePrefix(p, q, s, block);
      SpliceGrows(p, s, block);
      assert Reverse(up)[0] == s && Reverse(up)[1..] == Reverse(up[..n]);
      SpliceAllPrefix(Splice(p, s, block), q, up[..n], block);
    }
  }

  /** Replacing the spans from the last to the first is replacing them all at once. */
  lemma {:induction false} BackToFront(t: string, up: seq<Span>, block: Zone -> string)
    requires Fit(up, |t|)
    ensures SpliceAll(t, Reverse(up), block) == AllAtOnce(t, up, |t|, block)
    decreases |up|
  {
    if up == [] {
      assert t[..|t|] == t;
    } else {
      var n := |up| - 1;
      var s := up[n];
      var p, q := t[..s.from], FromSpan(t, s, |t|, block);
      assert Reverse(up)[0] == s && Reverse(up)[1..] == Reverse(up[..n]);
      SpliceSplits(t, s, block);
      SpliceAllPrefix(p, q, up[..n], block);
      BackToFront(p, up[..n], block);
      AllAtOnceLocal(t, p, up[..n], s.from, block);
    }
  }

  lemma {:induction false} AllAtOnceLocal(t: string, p: string, up: seq<Span>, end: nat, block: Zone -> string)
    requires Fit(up, end) && end <= |p| <= |t| && t[..|p|] == p
    ensures AllAtOnce(p, up, end, block) == AllAtOnce(t, up, end, block)
    decreases |up|
  {
    assert p[..end] == t[..end];
    if up != [] {
      var s := up[|up| - 1];
      AllAtOnceLocal(t, p, up[..|up| - 1], s.from, block);
      assert p[s.to..end] == t[s.to..end];
    }
  }

  // ---------- The two sorts ----------

  ghost predicate DistinctStarts(spans: seq<Span>) {
    forall j, k | 0 <= j < k < |spans| :: spans[j].from != spans[k].from
  }

  lemma {:induction false} InsertMirrors(s: seq<Span>, x: Span)
    requires forall k | 0 <= k < |s| :: s[k].from != x.from
    ensures InsertDown(Reverse(s), x) == Reverse(InsertUp(s, x))
    decreases |s|
  {
    if s == [] {
      assert Reverse([x]) == [x] + Reverse([]);
    } else {
      var n := |s| - 1;
      assert Reverse(s)[0] == s[n] && Reverse(s)[1..] == Reverse(s[..n]);
      if s[n].from <= x.from {
        assert (s + [x])[..|s|] == s;
      } else {
        InsertMirrors(s[..n], x);
        var t := InsertUp(s[..n], x);
        assert (t + [s[n]])[..|t|] == t;
      }
    }
  }

  lemma {:induction false} InsertUpMembers(s: seq<Span>, x: Span)
    ensures forall y :: y in InsertUp(s, x) <==> y in s || y == x
    ensures |InsertUp(s, x)| == |s| + 1
    decreases |s|
  {
    if s != [] {
      assert s == s[..|s| - 1] + [s[|s| - 1]];
      if s[|s| - 1].from > x.from {
        InsertUpMembers(s[..|s| - 1], x);
      }
    }
  }

  lemma {:induction false} SortUpMembers(spans: seq<Span>)
    ensures forall y :: y in SortUp(spans) <==> y in spans
    ensures |SortUp(spans)| == |spans|
  {
    if spans != [] {
      var n := |spans| - 1;
      SortUpMembers(spans[..n]);
      InsertUpMembers(SortUp(spans[..n]), spans[n]);
      assert spans == spans[..n] + [spans[n]];
    }
  }

  lemma {:induction false} InsertDownMembers(s: seq<Span>, x: Span)
    ensures forall y :: y in InsertDown(s, x) <==> y in s || y == x
    ensures |InsertDown(s, x)| == |s| + 1
    decreases |s|
  {
    if s != [] && s[0].from >= x.from {
      InsertDownMembers(s[1..], x);
      assert s == [s[0]] + s[1..];
    }
  }

  lemma {:induction false} SortDownMembers(spans: seq<Span>)
    ensures forall y :: y in SortDown(spans) <==> y in spans
    ensures |SortDown(spans)| == |spans|
  {
    if spans != [] {
      var n := |spans| - 1;
      SortDownMembers(spans[..n]);
      InsertDownMembers(SortDown(spans[..n]), spans[n]);
      assert spans == spans[..n] + [spans[n]];
    }
  }

  ghost predicate Ascending(s: seq<Span>) {
    forall j, k | 0 <= j < k < |s| :: s[j].from <= s[k].from
  }

  lemma {:induction false} InsertUpAscends(s: seq<Span>, x: Span)
    requires Ascending(s)
    ensures Ascending(InsertUp(s, x))
    decreases |s|
  {
    if s != [] && s[|s| - 1].from > x.from {
      InsertUpAscends(s[..|s| - 1], x);
      InsertUpMembers(s[..|s| - 1], x);
      var t, last := InsertUp(s[..|s| - 1], x), s[|s| - 1];
      forall k | 0 <= k < |t|
        ensures t[k].from <= last.from
      {
        assert t[k] in t;
      }
    }
  }

  lemma {:induction false} SortUpAscends(spans: seq<Span>)
    ensures Ascending(SortUp(spans))
  {
    if spans != [] {
      SortUpAscends(spans[..|spans| - 1]);
      InsertUpAscends(SortUp(spans[..|spans| - 1]), spans[|spans| - 1]);
    }
  }

  /** With distinct starts the descending sort is the ascending one backwards. */
  lemma {:induction false} SortsMirror(spans: seq<Span>)
    requires DistinctStarts(spans)
    ensures SortDown(spans) == Reverse(SortUp(spans))
  {
    if spans != [] {
      var n := |spans| - 1;
      SortsMirror(spans[..n]);
      SortUpMembers(spans[..n]);
      var s := SortUp(spans[..n]);
      forall k | 0 <= k < |s|
        ensures s[k].from != spans[n].from
      {
        assert s[k] in spans[..n];
      }
      InsertMirrors(s, spans[n]);
    }
  }

  lemma {:induction false} NoOverlapFits(up: seq<Span>, end: nat)
    requires Ascending(up) && !Overlapping(up) && forall k | 0 <= k < |up| :: up[k].from <= up[k].to <= end
    ensures Fit(up, end)
  {
    forall j, k | 0 <= j < k < |up|
      ensures up[j].to <= up[k].from
    {
      assert up[j + 1].from >= up[j].to;
    }
  }

  ghost predicate InRange(spans: seq<Span>, end: nat) {
    forall k | 0 <= k < |spans| :: spans[k].from <= spans[k].to <= end
  }

  lemma SortUpInRange(spans: seq<Span>, end: nat)
    requires InRange(spans, end)
    ensures InRange(SortUp(spans), end)
  {
    var up := SortUp(spans);
    SortUpMembers(spans);
    forall k | 0 <= k < |up|
      ensures up[k].from <= up[k].to <= end
    {
      assert up[k] in spans;
    }
  }

  // ---------- Which spans are refused ----------

  /** The second of two spans lies behind the first if it starts no earlier, and otherwise before it. */
  predicate Clear(x: Span, y: Span) {
    if x.from <= y.from then x.to <= y.from else y.to <= x.from
  }

  /** In the order of the anchors. */
  ghost predicate AllClear(spans: seq<Span>) {
    forall i, j | 0 <= i < j < |spans| :: Clear(spans[i], spans[j])
  }

  ghost predicate ClearOf(s: seq<Span>, x: Span) {
    forall i | 0 <= i < |s| :: Clear(s[i], x)
  }

  lemma {:induction false} InsertIsClear(s: seq<Span>, x: Span, end: nat)
    requires Ascending(s) && InRange(s, end) && x.from <= x.to
    ensures AllClear(InsertUp(s, x)) <==> AllClear(s) && ClearOf(s, x)
    decreases |s|
  {
    if s == [] {
    } else if s[|s| - 1].from <= x.from {
      ClearSnoc(s, x);
    } else {
      var n := |s| - 1;
      InsertIsClear(s[..n], x, end);
      ClearSnoc(InsertUp(s[..n], x), s[n]);
      ClearSnoc(s[..n], s[n]);
      InsertUpMembers(s[..n], x);
      assert s == s[..n] + [s[n]];
      ClearOfInsert(s[..n], x, InsertUp(s[..n], x), s[n]);
    }
  }

  lemma ClearSnoc(s: seq<Span>, x: Span)
    ensures AllClear(s + [x]) <==> AllClear(s) && ClearOf(s, x)
  {
    if AllClear(s + [x]) {
      forall i, j | 0 <= i < j < |s|
        ensures Clear(s[i], s[j])
      {
        assert Clear((s + [x])[i], (s + [x])[j]);
      }
      forall i | 0 <= i < |s|
        ensures Clear(s[i], x)
      {
        assert Clear((s + [x])[i], (s + [x])[|s|]);
      }
    }
  }

  lemma ClearOfInsert(s: seq<Span>, x: Span, t: seq<Span>, last: Span)
    requires (forall y :: y in t <==> y in s || y == x) && last.from > x.from
    requires forall i | 0 <= i < |s| :: s[i].from <= last.from
    ensures ClearOf(t, last) <==> ClearOf(s, last) && Clear(last, x)
  {
    assert Clear(last, x) <==> Clear(x, last);
    if ClearOf(t, last) {
      forall i | 0 <= i < |s|
        ensures Clear(s[i], last)
      {
        assert s[i] in t;
      }
      assert x in t;
    }
    if ClearOf(s, last) && Clear(x, last) {
      forall i | 0 <= i < |t|
        ensures Clear(t[i], last)
      {
        assert t[i] in t;
      }
    }
  }

  lemma OverlappingIsNotClear(up: seq<Span>, end: nat)
    requires Ascending(up) && InRange(up, end)
    ensures Overlapping(up) <==> !AllClear(up)
  {
    if !Overlapping(up) {
      NoOverlapFits(up, end);
    } else {
      var k :| 0 <= k < |up| - 1 && up[k + 1].from < up[k].to;
      assert !Clear(up[k], up[k + 1]);
    }
  }

  /** Main result for refusals: migrate refuses the spans exactly when some two of them overlap, where of two that start
      together the earlier one in the anchors' order must be empty. */
  lemma RefusedExactlyWhenOverlapping(spans: seq<Span>, end: nat)
    requires InRange(spans, end)
    ensures Overlapping(SortUp(spans)) <==> exists i, j :: 0 <= i < j < |spans| && !Clear(spans[i], spans[j])
  {
    SortUpInRange(spans, end);
    SortUpAscends(spans);
    OverlappingIsNotClear(SortUp(spans), end);
    SortIsClear(spans, end);
  }

  lemma {:induction false} SortIsClear(spans: seq<Span>, end: nat)
    requires InRange(spans, end)
    ensures AllClear(SortUp(spans)) <==> AllClear(spans)
  {
    if spans != [] {
      var n := |spans| - 1;
      hide AllClear, ClearOf, Clear, Ascending, InsertUp;
      var s := SortUp(spans[..n]);
      SortIsClear(spans[..n], end);
      SortUpInRange(spans[..n], end);
      SortUpAscends(spans[..n]);
      InsertIsClear(s, spans[n], end);
      SortUpMembers(spans[..n]);
      ClearSnoc(spans[..n], spans[n]);
      assert spans == spans[..n] + [spans[n]];
      SameMembersSameClear(s, spans[..n], spans[n]);
    }
  }

  lemma SameMembersSameClear(s: seq<Span>, t: seq<Span>, x: Span)
    requires forall y :: y in s <==> y in t
    ensures ClearOf(s, x) <==> ClearOf(t, x)
  {
    if ClearOf(s, x) {
      forall i | 0 <= i < |t|
        ensures Clear(t[i], x)
      {
        assert t[i] in s;
      }
    }
    if ClearOf(t, x) {
      forall i | 0 <= i < |s|
        ensures Clear(s[i], x)
      {
        assert s[i] in t;
      }
    }
  }

  /** Main result: for verified spans with distinct starts, the back-to-front loop replaces them all at once,
      keeping every character outside them. */
  lemma SplicingIsSimultaneous(mk: Markers, t: string, spans: seq<Span>)
    requires InRange(spans, |t|) && DistinctStarts(spans) && !Overlapping(SortUp(spans))
    ensures Fit(SortUp(spans), |t|)
    ensures SpliceAll(t, SortDown(spans), mk.Block) == AllAtOnce(t, SortUp(spans), |t|, mk.Block)
  {
    SortUpInRange(spans, |t|);
    SortUpAscends(spans);
    NoOverlapFits(SortUp(spans), |t|);
    SortsMirror(spans);
    BackToFront(t, SortUp(spans), mk.Block);
  }
}
