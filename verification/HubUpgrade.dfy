/** migrate as a whole: what it makes of a well-formed hub (bin/_fleet/hub.py). */
module HubUpgrade {
  import opened HubText
  import opened HubRender
  import opened HubMigrate
  import opened HubWiring
  import opened HubSplices

  // The anchored spans are spliced first, then a section is appended for every zone without an anchor, and
  // last the protocol paragraph. With short ties each stage keeps the hub well formed, so the result is wired in
  // every zone; HubLoss says what happens otherwise.

  // ---------- Appended text and zones ----------

  lemma TextKeepsWellFormed(mk: Markers, doc: seq<Piece>, p: string)
    requires WellFormed(mk, doc) && Clean(mk, p)
    ensures WellFormed(mk, doc + [Text("\n" + p)])
    ensures Flat(mk, doc + [Text("\n" + p)]) == Flat(mk, doc) + "\n" + p
    ensures forall z :: Has(doc + [Text("\n" + p)], z) <==> Has(doc, z)
  {
    var doc' := doc + [Text("\n" + p)];
    FlatAppend(mk, doc, Text("\n" + p));
    assert Flat(mk, doc) + ("\n" + p) == Flat(mk, doc) + "\n" + p;
    forall m, i: nat | IsMarker(mk, m)
      ensures At(Flat(mk, doc'), m, i) ==> At(Flat(mk, doc), m, i)
    {
      MarkersAreFramed(mk, m);
      NoStraddle(Flat(mk, doc), p, m, i);
    }
    forall z
      ensures Has(doc', z) <==> Has(doc, z)
    {
      HasConcat(doc, [Text("\n" + p)], z);
    }
    MarkersStayPut(mk, doc, doc');
  }

  lemma MarkersStayPut(mk: Markers, doc: seq<Piece>, doc': seq<Piece>)
    requires WellFormed(mk, doc)
    requires forall m, i: nat | IsMarker(mk, m) :: At(Flat(mk, doc'), m, i) ==> At(Flat(mk, doc), m, i)
    requires forall z :: Has(doc', z) <==> Has(doc, z)
    ensures WellFormed(mk, doc')
  {
    forall z | !Has(doc', z)
      ensures !Occurs(Flat(mk, doc'), mk.begin(z)) && !Occurs(Flat(mk, doc'), mk.end(z))
    {
      assert IsMarker(mk, mk.begin(z)) && IsMarker(mk, mk.end(z));
    }
  }

  lemma EndLineKeepsWellFormed(mk: Markers, doc: seq<Piece>) returns (doc': seq<Piece>)
    requires WellFormed(mk, doc)
    ensures WellFormed(mk, doc') && Flat(mk, doc') == EndLine(Flat(mk, doc))
    ensures forall z :: Has(doc', z) <==> Has(doc, z)
  {
    if EndLine(Flat(mk, doc)) == Flat(mk, doc) {
      doc' := doc;
    } else {
      EmptyIsClean(mk);
      TextKeepsWellFormed(mk, doc, "");
      doc' := doc + [Text("\n" + "")];
      assert Flat(mk, doc) + "\n" + "" == Flat(mk, doc) + "\n";
    }
  }

  function Appended(lead: string, z: Zone): seq<Piece> {
    [Text("\n" + lead + "\n"), Generated(z, "\n"), Text("\n")]
  }

  lemma RegroupAppended(l: string, lead: string, b: string, e: string)
    ensures l + ("\n" + lead + "\n") + (b + "\n" + e) + "\n" == Graft(l, lead, b, e, "\n", "")
    ensures l + "\n" + lead + "\n" + (b + "\n" + e) + "\n" == Graft(l, lead, b, e, "\n", "")
  {}

  lemma AppendedShows(mk: Markers, doc: seq<Piece>, lead: string, z: Zone)
    ensures Flat(mk, doc + Appended(lead, z)) == Graft(Flat(mk, doc), lead, mk.begin(z), mk.end(z), "\n", "")
    ensures AppendZone(mk, Flat(mk, doc), lead, z) == Graft(Flat(mk, doc), lead, mk.begin(z), mk.end(z), "\n", "")
  {
    FlatThree(mk, doc, Text("\n" + lead + "\n"), Generated(z, "\n"), Text("\n"), []);
    assert doc + Appended(lead, z) + [] == doc + Appended(lead, z);
    RegroupAppended(Flat(mk, doc), lead, mk.begin(z), mk.end(z));
  }

  lemma AppendKeepsWellFormed(mk: Markers, doc: seq<Piece>, lead: string, z: Zone)
    requires WellFormed(mk, doc) && !Has(doc, z) && Clean(mk, lead)
    ensures WellFormed(mk, doc + Appended(lead, z))
    ensures Flat(mk, doc + Appended(lead, z)) == AppendZone(mk, Flat(mk, doc), lead, z)
    ensures forall w :: Has(doc + Appended(lead, z), w) <==> Has(doc, w) || w == z
  {
    hide WellFormed, Show, Clean, Graft;
    AppendedShows(mk, doc, lead, z);
    forall w
      ensures Has(doc + Appended(lead, z), w) <==> Has(doc, w) || w == z
    {
      HasConcat(doc, Appended(lead, z), w);
      assert Appended(lead, z)[1] == Generated(z, "\n");
    }
    assert Flat(mk, doc) == Flat(mk, doc) + "" + "";
    GraftKeepsWellFormed(mk, doc, doc + Appended(lead, z), z, Flat(mk, doc), lead, "", "\n", "");
  }

  ghost predicate Distinct(zones: seq<Zone>) {
    forall i, j | 0 <= i < j < |zones| :: zones[i] != zones[j]
  }

  lemma {:induction false} ZonesKeepWellFormed(mk: Markers, doc: seq<Piece>, zones: seq<Zone>, lead: Zone -> string)
      returns (doc': seq<Piece>)
    requires WellFormed(mk, doc) && Distinct(zones)
    requires forall z | z in zones :: !Has(doc, z) && Clean(mk, lead(z))
    ensures WellFormed(mk, doc') && Flat(mk, doc') == AppendZones(mk, Flat(mk, doc), zones, lead)
    ensures forall z :: Has(doc', z) <==> Has(doc, z) || z in zones
    decreases |zones|
  {
    hide WellFormed, Show, AppendZone, Clean, Appended, Has;
    if zones == [] {
      doc' := doc;
    } else {
      var z := zones[0];
      AppendKeepsWellFormed(mk, doc, lead(z), z);
      assert zones == [z] + zones[1..];
      doc' := ZonesKeepWellFormed(mk, doc + Appended(lead(z), z), zones[1..], lead);
    }
  }

  // ---------- The appended sections ----------

  ghost predicate CleanProse(mk: Markers, prose: Prose) {
    && Clean(mk, prose.header) && Clean(mk, prose.note) && Clean(mk, prose.protocol)
    && (forall z :: Clean(mk, prose.heading(z)))
  }

  lemma LeadsAreClean(mk: Markers, prose: Prose, z: Zone)
    requires CleanProse(mk, prose)
    ensures Clean(mk, prose.heading(z) + "\n") && Clean(mk, prose.heading(z) + "\n\n" + prose.note + "\n")
    ensures Clean(mk, prose.header + "\n")
  {
    var h := prose.heading(z);
    EmptyIsClean(mk);
    CleanLines(mk, h, "");
    assert h + "\n" + "" == h + "\n";
    CleanLines(mk, prose.header, "");
    assert prose.header + "\n" + "" == prose.header + "\n";
    CleanLines(mk, h + "\n", prose.note);
    CleanLines(mk, h + "\n" + "\n" + prose.note, "");
    LeadShape(h, prose.note);
  }

  lemma LeadShape(h: string, note: string)
    ensures h + "\n" + "\n" + note + "\n" + "" == h + "\n\n" + note + "\n"
  {}

  lemma HeaderShape(t: string, header: string)
    ensures t + "\n" + header + "\n" == t + "\n" + (header + "\n")
  {}

  lemma SectionsKeepWellFormed(mk: Markers, doc: seq<Piece>, zones: seq<Zone>, isNew: bool, prose: Prose)
      returns (doc': seq<Piece>)
    requires WellFormed(mk, doc) && Distinct(zones) && CleanProse(mk, prose) && forall z | z in zones :: !Has(doc, z)
    ensures WellFormed(mk, doc') && Flat(mk, doc') == AppendSections(mk, Flat(mk, doc), zones, isNew, prose)
    ensures forall z :: Has(doc', z) <==> Has(doc, z) || z in zones
  {
    hide WellFormed, Clean, AppendZones, Has;
    forall z
      ensures Clean(mk, prose.heading(z) + "\n") && Clean(mk, prose.heading(z) + "\n\n" + prose.note + "\n")
      ensures Clean(mk, prose.header + "\n")
    {
      LeadsAreClean(mk, prose, z);
    }
    if zones == [] {
      doc' := doc;
    } else {
      doc' := EndLineKeepsWellFormed(mk, doc);
      if isNew {
        LeadsAreClean(mk, prose, Now);
        TextKeepsWellFormed(mk, doc', prose.header + "\n");
        HeaderShape(Flat(mk, doc'), prose.header);
        doc' := doc' + [Text("\n" + (prose.header + "\n"))];
        var lead := z => prose.heading(z) + "\n";
        assert forall z :: Clean(mk, lead(z));
        doc' := ZonesKeepWellFormed(mk, doc', zones, lead);
      } else {
        var lead := z => prose.heading(z) + "\n\n" + prose.note + "\n";
        assert forall z :: Clean(mk, lead(z));
        doc' := ZonesKeepWellFormed(mk, doc', zones, lead);
      }
    }
  }

  lemma ProtocolKeepsWellFormed(mk: Markers, doc: seq<Piece>, prose: Prose) returns (doc': seq<Piece>)
    requires WellFormed(mk, doc) && CleanProse(mk, prose)
    ensures WellFormed(mk, doc') && Flat(mk, doc') == AppendProtocol(Flat(mk, doc), prose)
    ensures forall z :: Has(doc', z) <==> Has(doc, z)
  {
    doc' := doc;
    if Find(Flat(mk, doc), prose.marker, 0).None? {
      doc' := EndLineKeepsWellFormed(mk, doc);
      TextKeepsWellFormed(mk, doc', prose.protocol);
      doc' := doc' + [Text("\n" + prose.protocol)];
    }
  }

  // ---------- Which zones are wired where ----------

  lemma {:induction false} UnwiredZones(mk: Markers, t: string, zones: seq<Zone>)
    requires Distinct(zones)
    ensures forall z :: z in Unwired(mk, t, zones) <==> z in zones && Find(t, mk.begin(z), 0).None?
    ensures Distinct(Unwired(mk, t, zones))
  {
    if zones != [] {
      UnwiredZones(mk, t, zones[..|zones| - 1]);
      assert zones == zones[..|zones| - 1] + [zones[|zones| - 1]];
    }
  }

  lemma {:induction false} UnanchoredZones(zones: seq<Zone>, anchors: seq<Anchor>)
    requires Distinct(zones)
    ensures forall z :: z in Unanchored(zones, anchors) <==> z in zones && !Anchored(anchors, z)
    ensures Distinct(Unanchored(zones, anchors))
  {
    if zones != [] {
      UnanchoredZones(zones[..|zones| - 1], anchors);
      assert zones == zones[..|zones| - 1] + [zones[|zones| - 1]];
    }
  }

  ghost predicate OneAnchorEach(anchors: seq<Anchor>) {
    forall i, j | 0 <= i < j < |anchors| :: anchors[i].zone != anchors[j].zone
  }

  lemma {:induction false} AnchorsFor(anchors: seq<Anchor>, zones: seq<Zone>)
    requires OneAnchorEach(anchors)
    ensures forall a :: a in For(anchors, zones) <==> a in anchors && a.zone in zones
    ensures OneAnchorEach(For(anchors, zones))
  {
    if anchors != [] {
      var n := |anchors| - 1;
      AnchorsFor(anchors[..n], zones);
      assert anchors == anchors[..n] + [anchors[n]];
    }
  }

  /** Without a missing anchor, every anchor has its span. */
  lemma {:induction false} SpansFollowAnchors(t: string, anchors: seq<Anchor>)
    requires Missing(t, anchors) == []
    ensures |Spans(t, anchors)| == |anchors| && InRange(Spans(t, anchors), |t|)
    ensures forall i | 0 <= i < |anchors| :: Spans(t, anchors)[i].zone == anchors[i].zone
  {
    hide Find, At;
    if anchors != [] {
      var n := |anchors| - 1;
      assert SpanOf(t, anchors[n]).Some? && Missing(t, anchors[..n]) == [];
      SpansFollowAnchors(t, anchors[..n]);
    }
  }

  // ---------- The whole of migrate ----------

  /** Anchors of this hub that migrate uses. */
  function Used(mk: Markers, t: string, given: seq<Anchor>): seq<Anchor> {
    For(given, Unwired(mk, t, ZONES))
  }

  /** The spans migrate splices. */
  function SpansUsed(mk: Markers, t: string, given: seq<Anchor>): seq<Span> {
    Spans(t, Used(mk, t, given))
  }

  /** What the operator's anchors must satisfy: one per zone, spans in hand-written text. */
  ghost predicate GoodAnchors(mk: Markers, doc: seq<Piece>, given: seq<Anchor>) {
    OneAnchorEach(given) && AllInText(mk, doc, SpansUsed(mk, Flat(mk, doc), given))
  }

  lemma ZonesAreDistinct()
    ensures Distinct(ZONES) && forall z :: z in ZONES
  {
    forall z
      ensures z in ZONES
    {
      match z
      case Now => assert ZONES[0] == Now;
      case Prompts => assert ZONES[1] == Prompts;
      case Tree => assert ZONES[2] == Tree;
      case Attended => assert ZONES[3] == Attended;
      case Board => assert ZONES[4] == Board;
      case Recent => assert ZONES[5] == Recent;
    }
  }

  /** In a well-formed hub the zones to wire are those it does not have. */
  lemma ToWire(mk: Markers, doc: seq<Piece>)
    requires WellFormed(mk, doc)
    ensures forall z :: z in Unwired(mk, Flat(mk, doc), ZONES) <==> !Has(doc, z)
    ensures Distinct(Unwired(mk, Flat(mk, doc), ZONES))
  {
    ZonesAreDistinct();
    UnwiredZones(mk, Flat(mk, doc), ZONES);
    forall z
      ensures Find(Flat(mk, doc), mk.begin(z), 0).None? <==> !Has(doc, z)
    {
      if Has(doc, z) {
        var k := PresentZone(mk, doc, z);
      } else {
        AbsentZone(mk, doc, z);
      }
    }
  }

  /** When no anchor is missing, there is a span for each anchor used, for a zone the hub does not have. */
  lemma SpansAreAbsent(t: string, doc: seq<Piece>, used: seq<Anchor>)
    requires OneAnchorEach(used) && Missing(t, used) == [] && forall a | a in used :: !Has(doc, a.zone)
    ensures InRange(Spans(t, used), |t|) && AllAbsent(doc, Spans(t, used))
    ensures forall z :: ZoneAmong(Spans(t, used), z) <==> Anchored(used, z)
  {
    hide Spans, Missing, Has;
    SpansFollowAnchors(t, used);
    var spans := Spans(t, used);
    forall i | 0 <= i < |spans|
      ensures !Has(doc, spans[i].zone)
    {
      assert used[i] in used;
    }
  }

  lemma MigratedText(mk: Markers, t: string, given: seq<Anchor>, prose: Prose)
    requires Migrate(mk, t, given, prose).Migrated?
    ensures var toWire, used := Unwired(mk, t, ZONES), Used(mk, t, given);
      var spans := Spans(t, used);
      && Missing(t, used) == [] && !Overlapping(SortUp(spans))
      && Migrate(mk, t, given, prose).text ==
           AppendProtocol(AppendSections(mk, SpliceAll(t, SortDown(spans), mk.Block), Unanchored(toWire, used),
                                         |toWire| == |ZONES|, prose), prose)
  {
    hide Unwired, For, Spans, Missing, Overlapping, SortUp, SortDown, SpliceAll, Unanchored, AppendSections,
        AppendProtocol;
  }

  /** migrate does nothing exactly when the hub has every zone. */
  lemma NoOpExactlyWhenWired(mk: Markers, doc: seq<Piece>, given: seq<Anchor>, prose: Prose)
    requires WellFormed(mk, doc)
    ensures Migrate(mk, Flat(mk, doc), given, prose).NoOp? <==> forall z :: Has(doc, z)
  {
    hide WellFormed, Unwired, For, Spans, Missing, Overlapping, SortUp, SortDown, SpliceAll, Unanchored,
      AppendSections, AppendProtocol, Has, Flat;
    var toWire := Unwired(mk, Flat(mk, doc), ZONES);
    ToWire(mk, doc);
    if toWire != [] {
      assert toWire[0] in toWire;
    }
  }

  /** With short ties, whenever migrate writes it leaves a well-formed hub that has every zone. */
  lemma MigrateWires(mk: Markers, doc: seq<Piece>, given: seq<Anchor>, prose: Prose) returns (doc': seq<Piece>)
    requires WellFormed(mk, doc) && GoodAnchors(mk, doc, given) && CleanProse(mk, prose)
    requires ShortTies(SpansUsed(mk, Flat(mk, doc), given))
    requires Migrate(mk, Flat(mk, doc), given, prose).Migrated?
    ensures Migrate(mk, Flat(mk, doc), given, prose).text == Flat(mk, doc')
    ensures WellFormed(mk, doc') && forall z :: Has(doc', z)
  {
    hide WellFormed, Unwired, For, Spans, Missing, Overlapping, SortUp, SortDown, SpliceAll, Unanchored,
      AppendSections, AppendProtocol, Has, Flat, Migrate, Distinct, InText, ShortTies, Harmless, Falls;
    var t := Flat(mk, doc);
    var toWire, used := Unwired(mk, t, ZONES), Used(mk, t, given);
    var spans := Spans(t, used);
    MigratedText(mk, t, given, prose);
    ToWire(mk, doc);
    AnchorsFor(given, toWire);
    SpansAreAbsent(t, doc, used);
    VerifiedAreDisjoint(spans, |t|);
    HarmlessExactlyWhenTiesAreShort(spans, |t|);
    InSplicingOrder(mk, doc, spans);
    var down := SortDown(spans);
    doc' := SpansKeepWellFormed(mk, doc, down, |down|);
    assert down[..|down|] == down;
    UnanchoredZones(toWire, used);
    doc' := SectionsKeepWellFormed(mk, doc', Unanchored(toWire, used), |toWire| == |ZONES|, prose);
    doc' := ProtocolKeepsWellFormed(mk, doc', prose);
  }
}
