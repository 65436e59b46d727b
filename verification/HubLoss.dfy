/**
 When migrate loses a marker it has just written (bin/_fleet/hub.py).

 The overlap check accepts spans with equal starts. The sort is stable, so the later of two tied spans is
 spliced into the block of the earlier one; if it is more than two characters long it cuts into that block's
 begin marker. The damage cannot be undone by anything migrate does afterwards.
 */
module HubLoss {
  import opened Optional
  import opened HubText
  import opened HubRender
  import opened HubMigrate
  import opened HubWiring
  import opened HubSplices
  import opened HubUpgrade

  // ---------- Markers through a splice ----------

  /** An occurrence of another zone's marker after a splice stood before the span or behind it. */
  lemma SpliceOccurrence(mk: Markers, t: string, s: Span, m: string, i: nat)
    requires IsMarker(mk, m) && m != mk.begin(s.zone) && m != mk.end(s.zone)
    requires At(Splice(t, s, mk.Block), m, i)
    ensures (i + |m| <= s.from && At(t, m, i)) || exists j: nat :: s.to <= j && At(t, m, j)
  {
    hide At, Framed;
    var l, r, b, e := Upto(t, s.from), Since(t, s.to), mk.begin(s.zone), mk.end(s.zone);
    MarkersAreFramed(mk, m);
    FramedIsNonEmpty(m);
    RegroupSplice(l, b, e, r);
    GraftOccurrence(l, "", b, e, "\n\n", r, m, i);
    var j := |l| + 2;
    EmptyHasNone(m, i - |l| - 1);
    if i >= j {
      FramedAreIndependent(b, m, i - j);
    }
    if i > j + |b| {
      FramedAreIndependent(e, m, i - j - |b| - 1);
    }
    if i + |m| <= |l| {
      PrefixOccurrence(t, s.from, m, i);
    } else {
      SuffixOccurrence(t, s.to, m, i - j - |b| - 1 - |e| - 2);
    }
  }

  lemma FramedIsNonEmpty(m: string)
    ensures Framed(m) ==> m != ""
  {}

  lemma EmptyHasNone(m: string, i: int)
    ensures m != "" && i >= 0 ==> !At("", m, i)
  {}

  lemma PrefixOccurrence(t: string, k: nat, m: string, i: nat)
    requires At(Upto(t, k), m, i)
    ensures At(t, m, i) && i + |m| <= k
  {
    if k <= |t| {
      assert t == t[..k] + t[k..];
      AtLeft(t[..k], t[k..], m, i);
    }
  }

  lemma SuffixOccurrence(t: string, k: nat, m: string, i: nat)
    requires m != "" && At(Since(t, k), m, i)
    ensures At(t, m, k + i)
  {
    if k <= |t| {
      assert t == t[..k] + t[k..];
      AtRight(t[..k], t[k..], m, k + i);
    }
  }

  lemma OtherBegin(mk: Markers, z: Zone, w: Zone)
    ensures IsMarker(mk, mk.begin(z)) && (z != w ==> mk.begin(z) != mk.begin(w) && mk.begin(z) != mk.end(w))
  {}

  lemma SpliceKeepsAbsent(mk: Markers, t: string, s: Span, z: Zone)
    requires !Occurs(t, mk.begin(z)) && z != s.zone
    ensures !Occurs(Splice(t, s, mk.Block), mk.begin(z))
  {
    OtherBegin(mk, z, s.zone);
    forall i: nat
      ensures !At(Splice(t, s, mk.Block), mk.begin(z), i)
    {
      if At(Splice(t, s, mk.Block), mk.begin(z), i) {
        SpliceOccurrence(mk, t, s, mk.begin(z), i);
      }
    }
  }

  lemma {:induction false} SplicesKeepAbsent(mk: Markers, t: string, spans: seq<Span>, z: Zone)
    requires !Occurs(t, mk.begin(z)) && forall i | 0 <= i < |spans| :: spans[i].zone != z
    ensures !Occurs(SpliceAll(t, spans, mk.Block), mk.begin(z))
    decreases |spans|
  {
    hide Splice, Occurs;
    if spans != [] {
      SpliceKeepsAbsent(mk, t, spans[0], z);
      SplicesKeepAbsent(mk, Splice(t, spans[0], mk.Block), spans[1..], z);
    }
  }

  /** A spliced block stands two characters into its span. */
  lemma BlockStands(mk: Markers, t: string, s: Span)
    requires s.from <= |t|
    ensures At(Splice(t, s, mk.Block), mk.begin(s.zone), s.from + 2)
  {
    var l, b, r := t[..s.from] + "\n\n", mk.begin(s.zone), "\n" + mk.end(s.zone) + "\n\n" + Since(t, s.to);
    RegroupBlock(t[..s.from], b, mk.end(s.zone), Since(t, s.to));
    assert (l + b + r)[|l|..|l| + |b|] == b;
  }

  lemma RegroupBlock(p: string, b: string, e: string, r: string)
    ensures p + "\n\n" + (b + "\n" + e) + "\n\n" + r == (p + "\n\n") + b + ("\n" + e + "\n\n" + r)
  {}

  /** A tied span that reaches past the newlines takes the marker with it. */
  lemma LongTieCuts(mk: Markers, t: string, s: Span, z: Zone)
    requires AtMostOnce(t, mk.begin(z)) && At(t, mk.begin(z), s.from + 2) && s.to > s.from + 2 && s.zone != z
    ensures !Occurs(Splice(t, s, mk.Block), mk.begin(z))
  {
    OtherBegin(mk, z, s.zone);
    forall i: nat
      ensures !At(Splice(t, s, mk.Block), mk.begin(z), i)
    {
      if At(Splice(t, s, mk.Block), mk.begin(z), i) {
        SpliceOccurrence(mk, t, s, mk.begin(z), i);
      }
    }
  }

  // ---------- The first harmful splice ----------

  lemma {:induction false} FirstHarm(down: seq<Span>) returns (n: nat)
    requires Falls(down) && Disjoint(down) && !Harmless(down)
    ensures 0 < n < |down| && Harmless(down[..n])
    ensures down[n - 1].from == down[n].from && down[n].to > down[n].from + 2
    decreases |down|
  {
    hide Harmless, Falls, Disjoint;
    if down == [] {
      EmptyIsHarmless();
    } else if Harmless(down[..|down| - 1]) {
      n := |down| - 1;
      LastHarm(down);
    } else {
      var init := down[..|down| - 1];
      PrefixFalls(down, |down| - 1);
      n := FirstHarm(init);
      assert init[..n] == down[..n];
    }
  }

  lemma PrefixFalls(down: seq<Span>, k: nat)
    requires k <= |down| && Falls(down) && Disjoint(down)
    ensures Falls(down[..k]) && Disjoint(down[..k])
  {
    assert forall x | x in down[..k] :: x in down;
  }

  lemma LastHarm(down: seq<Span>)
    requires down != [] && Falls(down) && Disjoint(down) && Harmless(down[..|down| - 1]) && !Harmless(down)
    ensures var n := |down| - 1;
      n > 0 && down[n - 1].from == down[n].from && down[n].to > down[n].from + 2
  {
    hide After;
    var n := |down| - 1;
    var init := down[..n];
    forall i, j | 0 <= i < j < n
      ensures After(down[i], down[j])
    {
      assert After(init[i], init[j]);
    }
    var i, j :| 0 <= i < j < |down| && !After(down[i], down[j]);
    TieOf(down[i], down[n]) by {
      assert down[i] in down && down[n] in down;
    }
    assert down[i].from >= down[n - 1].from >= down[n].from;
  }

  lemma TieOf(x: Span, y: Span)
    requires !After(x, y) && y.from <= x.from && (y.from < x.from ==> y.to <= x.from)
    ensures x.from == y.from && y.to > y.from + 2
  {}

  /** The zones of a tie: the later span is longer than the two newlines before the earlier one's block. */
  ghost predicate LongTie(spans: seq<Span>, z: Zone) {
    exists x, y :: x in spans && y in spans && x.zone == z != y.zone && x.from == y.from && y.to > y.from + 2
  }

  lemma SortDownIsDisjoint(spans: seq<Span>)
    requires Disjoint(spans)
    ensures Disjoint(SortDown(spans))
  {
    SortDownMembers(spans);
  }

  lemma LongTieLosesMarker(mk: Markers, doc: seq<Piece>, spans: seq<Span>) returns (z: Zone)
    requires WellFormed(mk, doc) && AllInText(mk, doc, spans) && AllAbsent(doc, spans)
    requires InRange(spans, |Flat(mk, doc)|) && Disjoint(spans) && !ShortTies(spans)
    ensures !Occurs(SpliceAll(Flat(mk, doc), SortDown(spans), mk.Block), mk.begin(z)) && LongTie(spans, z)
  {
    hide WellFormed, InText, Has, Flat, SpliceAll, Splice, Occurs, ShortTies, Harmless, Falls, Disjoint, SortDown;
    var t, down := Flat(mk, doc), SortDown(spans);
    HarmlessExactlyWhenTiesAreShort(spans, |t|);
    InSplicingOrder(mk, doc, spans);
    SortDownIsDisjoint(spans);
    var n := FirstHarm(down);
    z := down[n - 1].zone;
    SortDownMembers(spans);
    assert down[n - 1] in down && down[n] in down;
    var t' := HarmfulSplice(mk, doc, down, n);
    assert down == down[..n + 1] + down[n + 1..];
    SpliceAllConcat(t, down[..n + 1], down[n + 1..], mk.Block);
    SplicesKeepAbsent(mk, t', down[n + 1..], z);
  }

  lemma HarmfulSplice(mk: Markers, doc: seq<Piece>, down: seq<Span>, n: nat) returns (t': string)
    requires WellFormed(mk, doc) && AllInText(mk, doc, down) && AllAbsent(doc, down)
    requires 0 < n < |down| && Harmless(down[..n])
    requires down[n - 1].from == down[n].from && down[n].to > down[n].from + 2
    ensures t' == SpliceAll(Flat(mk, doc), down[..n + 1], mk.Block) && !Occurs(t', mk.begin(down[n - 1].zone))
  {
    hide InText, Has, Flat, Harmless;
    var head, x, y := down[..n], down[n - 1], down[n];
    assert forall i | 0 <= i < n :: head[i] == down[i];
    var doc1 := SpansKeepWellFormed(mk, doc, head, n - 1);
    assert head[..n - 1] == down[..n - 1] && head[n - 1..] == [x];
    AbsentYet(doc1, doc, down, n - 1);
    var doc2 := SpliceOne(mk, doc1, [x]);
    InTextIsInRange(mk, doc1, x);
    BlockStands(mk, Flat(mk, doc1), x);
    OtherBegin(mk, x.zone, y.zone);
    LongTieCuts(mk, Flat(mk, doc2), y, x.zone);
    t' := Splice(Flat(mk, doc2), y, mk.Block);
    TwoMore(Flat(mk, doc), down, n, mk.Block);
  }

  lemma AbsentYet(doc1: seq<Piece>, doc: seq<Piece>, down: seq<Span>, k: nat)
    requires k < |down| && AllAbsent(doc, down)
    requires forall z :: Has(doc1, z) <==> Has(doc, z) || ZoneAmong(down[..k], z)
    ensures !Has(doc1, down[k].zone)
  {
    assert forall i | 0 <= i < k :: down[..k][i] == down[i];
  }

  lemma InTextIsInRange(mk: Markers, doc: seq<Piece>, s: Span)
    requires AllInText(mk, doc, [s])
    ensures s.from <= s.to <= |Flat(mk, doc)|
  {
    assert InText(mk, doc, [s][0]);
    var k: nat :| k < |doc| && InPiece(mk, doc, k, s);
    FlatSplit(mk, doc, k);
  }

  lemma TwoMore(t: string, down: seq<Span>, n: nat, block: Zone -> string)
    requires 0 < n < |down|
    ensures SpliceAll(t, down[..n + 1], block) ==
      Splice(Splice(SpliceAll(t, down[..n - 1], block), down[n - 1], block), down[n], block)
  {
    var t1 := SpliceAll(t, down[..n - 1], block);
    var two := [down[n - 1], down[n]];
    assert down[..n + 1] == down[..n - 1] + two;
    SpliceAllConcat(t, down[..n - 1], two, block);
    assert two[1..] == [down[n]] && [down[n]][1..] == [];
    var t2 := Splice(t1, down[n - 1], block);
    assert SpliceAll(t2, [down[n]], block) == SpliceAll(Splice(t2, down[n], block), [], block);
  }

  // ---------- Nothing brings it back ----------

  lemma TextKeepsAbsent(mk: Markers, t: string, p: string, z: Zone)
    requires !Occurs(t, mk.begin(z)) && Clean(mk, p)
    ensures !Occurs(t + "\n" + p, mk.begin(z))
  {
    var m := mk.begin(z);
    assert IsMarker(mk, m);
    MarkersAreFramed(mk, m);
    forall i: nat
      ensures !At(t + "\n" + p, m, i)
    {
      NoStraddle(t, p, m, i);
    }
  }

  lemma EndLineKeepsAbsent(mk: Markers, t: string, z: Zone)
    requires !Occurs(t, mk.begin(z))
    ensures !Occurs(EndLine(t), mk.begin(z))
  {
    EmptyIsClean(mk);
    TextKeepsAbsent(mk, t, "", z);
    assert t + "\n" + "" == t + "\n";
  }

  lemma ZoneKeepsAbsent(mk: Markers, t: string, lead: string, w: Zone, z: Zone)
    requires !Occurs(t, mk.begin(z)) && Clean(mk, lead) && z != w
    ensures !Occurs(AppendZone(mk, t, lead, w), mk.begin(z))
  {
    var m, b, e := mk.begin(z), mk.begin(w), mk.end(w);
    OtherBegin(mk, z, w);
    MarkersAreFramed(mk, m);
    RegroupAppended(t, lead, b, e);
    forall i: nat
      ensures !At(AppendZone(mk, t, lead, w), m, i)
    {
      if At(AppendZone(mk, t, lead, w), m, i) {
        GraftOccurrence(t, lead, b, e, "\n", "", m, i);
        var j := |t| + |lead| + 2;
        if i >= j {
          FramedAreIndependent(b, m, i - j);
        }
        if i > j + |b| {
          FramedAreIndependent(e, m, i - j - |b| - 1);
        }
      }
    }
  }

  lemma {:induction false} ZonesKeepAbsent(mk: Markers, t: string, zones: seq<Zone>, lead: Zone -> string, z: Zone)
    requires !Occurs(t, mk.begin(z)) && z !in zones && forall w :: Clean(mk, lead(w))
    ensures !Occurs(AppendZones(mk, t, zones, lead), mk.begin(z))
    decreases |zones|
  {
    hide AppendZone, Occurs, Clean;
    if zones != [] {
      assert zones[0] in zones;
      ZoneKeepsAbsent(mk, t, lead(zones[0]), zones[0], z);
      ZonesKeepAbsent(mk, AppendZone(mk, t, lead(zones[0]), zones[0]), zones[1..], lead, z);
    }
  }

  lemma SectionsKeepAbsent(mk: Markers, t: string, zones: seq<Zone>, isNew: bool, prose: Prose, z: Zone)
    requires !Occurs(t, mk.begin(z)) && z !in zones && CleanProse(mk, prose)
    ensures !Occurs(AppendSections(mk, t, zones, isNew, prose), mk.begin(z))
  {
    hide AppendZones, Occurs, Clean, EndLine;
    forall w
      ensures Clean(mk, prose.heading(w) + "\n") && Clean(mk, prose.heading(w) + "\n\n" + prose.note + "\n")
    {
      LeadsAreClean(mk, prose, w);
    }
    EndLineKeepsAbsent(mk, t, z);
    LeadsAreClean(mk, prose, z);
    TextKeepsAbsent(mk, EndLine(t), prose.header + "\n", z);
    HeaderShape(EndLine(t), prose.header);
    if isNew {
      ZonesKeepAbsent(mk, EndLine(t) + "\n" + prose.header + "\n", zones, w => prose.heading(w) + "\n", z);
    } else {
      ZonesKeepAbsent(mk, EndLine(t), zones, w => prose.heading(w) + "\n\n" + prose.note + "\n", z);
    }
  }

  lemma ProtocolKeepsAbsent(mk: Markers, t: string, prose: Prose, z: Zone)
    requires !Occurs(t, mk.begin(z)) && CleanProse(mk, prose)
    ensures !Occurs(AppendProtocol(t, prose), mk.begin(z))
  {
    hide Occurs, Clean, EndLine;
    EndLineKeepsAbsent(mk, t, z);
    TextKeepsAbsent(mk, EndLine(t), prose.protocol, z);
  }

  // ---------- The exact condition ----------

  /** With a long tie, the begin marker of its earlier zone is missing from what migrate writes. */
  lemma MigrateLoses(mk: Markers, doc: seq<Piece>, given: seq<Anchor>, prose: Prose) returns (z: Zone)
    requires WellFormed(mk, doc) && GoodAnchors(mk, doc, given) && CleanProse(mk, prose)
    requires !ShortTies(SpansUsed(mk, Flat(mk, doc), given))
    requires Migrate(mk, Flat(mk, doc), given, prose).Migrated?
    ensures !Occurs(Migrate(mk, Flat(mk, doc), given, prose).text, mk.begin(z))
    ensures LongTie(SpansUsed(mk, Flat(mk, doc), given), z)
  {
    hide WellFormed, Unwired, For, Spans, Missing, Overlapping, SortUp, SortDown, SpliceAll, Unanchored,
      AppendSections, AppendProtocol, Has, Flat, Migrate, Distinct, InText, ShortTies, Disjoint, Occurs;
    var t := Flat(mk, doc);
    var toWire, used := Unwired(mk, t, ZONES), Used(mk, t, given);
    var spans := Spans(t, used);
    MigratedText(mk, t, given, prose);
    ToWire(mk, doc);
    AnchorsFor(given, toWire);
    SpansAreAbsent(t, doc, used);
    VerifiedAreDisjoint(spans, |t|);
    z := LongTieLosesMarker(mk, doc, spans);
    TiedZoneIsAmong(spans, z);
    UnanchoredZones(toWire, used);
    var spliced := SpliceAll(t, SortDown(spans), mk.Block);
    SectionsKeepAbsent(mk, spliced, Unanchored(toWire, used), |toWire| == |ZONES|, prose, z);
    ProtocolKeepsAbsent(mk, AppendSections(mk, spliced, Unanchored(toWire, used), |toWire|
        == |ZONES|, prose), prose, z);
  }

  lemma TiedZoneIsAmong(spans: seq<Span>, z: Zone)
    requires LongTie(spans, z)
    ensures ZoneAmong(spans, z)
  {
    var x, y :| x in spans && y in spans && x.zone == z != y.zone && x.from == y.from && y.to > y.from + 2;
    var i :| 0 <= i < |spans| && spans[i] == x;
    assert spans[i].zone == z;
  }

  /** The text of a hub that has every zone, each with one ordered pair of markers apart from the others. */
  ghost predicate Wired(mk: Markers, t: string) {
    exists doc :: WellFormed(mk, doc) && Flat(mk, doc) == t && forall z :: Has(doc, z)
  }

  /** A hub without some begin marker is not wired: the next migrate has work to do, and render cannot fill that zone.
      */
  lemma AbsentIsNotWired(mk: Markers, t: string, z: Zone, given: seq<Anchor>, prose: Prose, body: string)
    requires !Occurs(t, mk.begin(z))
    ensures !Wired(mk, t) && !Migrate(mk, t, given, prose).NoOp? && ReplaceZone(mk, t, z, body) == Err(z)
  {
    hide Flat, WellFormed, For, Spans, Missing, Overlapping, SortUp, SortDown, SpliceAll, Unanchored,
      AppendSections, AppendProtocol;
    assert Find(t, mk.begin(z), 0).None?;
    ZonesAreDistinct();
    UnwiredZones(mk, t, ZONES);
    assert z in Unwired(mk, t, ZONES);
    forall doc | WellFormed(mk, doc) && Flat(mk, doc) == t
      ensures !Has(doc, z)
    {
      if Has(doc, z) {
        var k := PresentZone(mk, doc, z);
      }
    }
  }

  /** Main result: what migrate writes has every zone exactly when no tied span is longer than two characters; otherwise
      the zone it cut is lost, and a second migrate writes again. */
  lemma MigrateWiresExactlyWhenTiesAreShort(mk: Markers, doc: seq<Piece>, given: seq<Anchor>, prose: Prose,
                                            again: seq<Anchor>, prose': Prose)
    requires WellFormed(mk, doc) && GoodAnchors(mk, doc, given) && CleanProse(mk, prose)
    requires Migrate(mk, Flat(mk, doc), given, prose).Migrated?
    ensures var out := Migrate(mk, Flat(mk, doc), given, prose).text;
      var short := ShortTies(SpansUsed(mk, Flat(mk, doc), given));
      (Wired(mk, out) <==> short) && (Migrate(mk, out, again, prose').NoOp? <==> short)
  {
    hide WellFormed, Migrate, Has, GoodAnchors, CleanProse, Flat, ShortTies, SpansUsed, LongTie, Occurs;
    var out := Migrate(mk, Flat(mk, doc), given, prose).text;
    if ShortTies(SpansUsed(mk, Flat(mk, doc), given)) {
      var doc' := MigrateWires(mk, doc, given, prose);
      NoOpExactlyWhenWired(mk, doc', again, prose');
    } else {
      var z := MigrateLoses(mk, doc, given, prose);
      AbsentIsNotWired(mk, out, z, again, prose', "");
    }
  }

  /** And then rendering marker-free bodies cannot fail. */
  lemma WiredHubRenders(mk: Markers, t: string, bodies: Zone -> string)
    requires Wired(mk, t) && CleanBodies(mk, ZONES, bodies)
    ensures RenderAll(mk, t, ZONES, bodies).Ok?
  {
    hide WellFormed, RenderAll, Flat, Has, CleanBodies;
    var doc :| WellFormed(mk, doc) && Flat(mk, doc) == t && forall z :: Has(doc, z);
    RenderIsSubstitution(mk, doc, ZONES, bodies);
  }

  // ---------- An input that fails ----------

  const HUB := "ABxxC"
  const TIED := [Anchor(Now, "A", "B"), Anchor(Board, "A", "C")]

  lemma HubIsClean(mk: Markers)
    ensures Clean(mk, HUB)
  {
    forall m, i: nat | IsMarker(mk, m)
      ensures !At(HUB, m, i)
    {
      MarkersAreFramed(mk, m);
      if At(HUB, m, i) {
        AtShows(HUB, m, i, i);
      }
    }
  }

  lemma OnePiece(mk: Markers, t: string)
    ensures Flat(mk, [Text(t)]) == t
  {
    hide Framed;
    assert [Text(t)] == [] + [Text(t)];
    FlatAppend(mk, [], Text(t));
    assert Flat(mk, []) == "";
  }

  lemma CleanTextIsHub(mk: Markers, t: string)
    requires Clean(mk, t)
    ensures WellFormed(mk, [Text(t)]) && Flat(mk, [Text(t)]) == t && forall z :: !Has([Text(t)], z)
  {
    hide Flat, At, Framed;
    OnePiece(mk, t);
    forall z
      ensures IsMarker(mk, mk.begin(z)) && IsMarker(mk, mk.end(z))
    {}
  }

  lemma HubIsHandWritten(mk: Markers)
    ensures WellFormed(mk, [Text(HUB)]) && Flat(mk, [Text(HUB)]) == HUB && forall z :: !Has([Text(HUB)], z)
  {
    HubIsClean(mk);
    CleanTextIsHub(mk, HUB);
  }

  lemma TiedSpans()
    ensures Missing(HUB, TIED) == [] && Spans(HUB, TIED) == [Span(Now, 1, 1), Span(Board, 1, 4)]
  {
    assert At(HUB, "A", 0) && At(HUB, "B", 1) && At(HUB, "C", 4);
    var c := Find(HUB, "C", 1);
    AtShows(HUB, "C", c.value, c.value);
    assert SpanOf(HUB, TIED[0]) == Some(Span(Now, 1, 1)) && SpanOf(HUB, TIED[1]) == Some(Span(Board, 1, 4));
    var one := TIED[..1];
    assert one[..0] == [] && one[0] == TIED[0] && TIED[..1] == one;
    hide Find, At, SpanOf;
    assert Spans(HUB, one) == [] + [Span(Now, 1, 1)] && Missing(HUB, one) == [] + [];
  }

  lemma TiedSort(x: Span, y: Span)
    requires x.from == x.to == y.from
    ensures SortUp([x, y]) == [x, y] && !Overlapping([x, y])
  {
    assert [x, y][..1] == [x] && [x][..0] == [];
    assert SortUp([x]) == [x] && InsertUp([x], y) == [x] + [y];
  }

  lemma BothFor(zones: seq<Zone>)
    requires Now in zones && Board in zones
    ensures For(TIED, zones) == TIED
  {
    var one := TIED[..1];
    assert one[..0] == [];
    assert For(one, zones) == [] + [TIED[0]];
    assert TIED == one + [TIED[1]];
  }

  lemma AllUsed(mk: Markers)
    ensures Unwired(mk, HUB, ZONES) != [] && Used(mk, HUB, TIED) == TIED
  {
    hide Unwired, WellFormed, Flat, For, Has;
    HubIsHandWritten(mk);
    ToWire(mk, [Text(HUB)]);
    BothFor(Unwired(mk, HUB, ZONES));
  }

  /** Two anchors whose texts begin alike, one of them empty: migrate accepts them and cuts the marker of the mandatory
      first zone, so that the next render is refused. */
  lemma TiedAnchorsLoseAZone(mk: Markers, prose: Prose, again: seq<Anchor>, prose': Prose, bodies: Zone -> string)
    requires CleanProse(mk, prose)
    ensures var r := Migrate(mk, HUB, TIED, prose);
      r.Migrated? && !Migrate(mk, r.text, again, prose').NoOp? && RenderAll(mk, r.text, ZONES, bodies) == Err(Now)
  {
    hide Unwired, For, Find, SpliceAll, Unanchored, AppendSections, AppendProtocol, Flat, CleanProse, WellFormed,
        Occurs,
      SortUp, SortDown, Spans, Missing;
    var doc, x, y := [Text(HUB)], Span(Now, 1, 1), Span(Board, 1, 4);
    HubIsHandWritten(mk);
    AllUsed(mk);
    TiedSpans();
    TiedSort(x, y);
    var spans := SpansUsed(mk, HUB, TIED);
    assert spans == [x, y];
    assert spans[0].from == spans[1].from && spans[1].to > spans[1].from + 2;
    assert Flat(mk, doc[..0]) == "" by {
      EmptyFlat(mk);
    }
    assert InPiece(mk, doc, 0, x) && InPiece(mk, doc, 0, y);
    var z := MigrateLoses(mk, doc, TIED, prose);
    OnlyTie(x, y, z);
    var out := Migrate(mk, HUB, TIED, prose).text;
    AbsentIsNotWired(mk, out, Now, again, prose', bodies(Now));
    assert ZONES[0] == Now;
  }

  lemma EmptyFlat(mk: Markers)
    ensures Flat(mk, [Text(HUB)][..0]) == ""
  {}

  lemma OnlyTie(x: Span, y: Span, z: Zone)
    requires LongTie([x, y], z) && x.to <= x.from + 2
    ensures z == x.zone
  {}
}
