/** What migrate appends. */
module HubProse {
  import opened Optional
  import opened HubText
  import opened HubMigrate
  import opened HubUpgrade

  // The source (bin/_fleet/hub.py) builds the appended text as lists of lines that it joins, one list for a hub
  // without any zone and another for a hub that has some, and adds the protocol paragraph unless its marker is there.

  /** "\n".join(parts) */
  function JoinLines(parts: seq<string>): string {
    if parts == [] then ""
    else if |parts| == 1 then parts[0]
    else JoinLines(parts[..|parts| - 1]) + "\n" + parts[|parts| - 1]
  }

  /** _generated_section: the section header, then a heading and a block for each zone. */
  function SectionLines(mk: Markers, zones: seq<Zone>, prose: Prose): (parts: seq<string>)
    ensures parts != []
  {
    if zones == [] then [prose.header]
    else
      var z := zones[|zones| - 1];
      SectionLines(mk, zones[..|zones| - 1], prose) + ["", prose.heading(z), "", mk.Block(z)]
  }

  /** _upgrade_blocks: a heading, a note and a block for each zone, and no header. */
  function UpgradeLines(mk: Markers, zones: seq<Zone>, prose: Prose): seq<string> {
    if zones == [] then []
    else
      var z := zones[|zones| - 1];
      UpgradeLines(mk, zones[..|zones| - 1], prose) + [prose.heading(z), "", prose.note, "", mk.Block(z), ""]
  }

  lemma JoinOne(parts: seq<string>, line: string)
    requires parts != []
    ensures JoinLines(parts + [line]) == JoinLines(parts) + "\n" + line
  {
    assert (parts + [line])[..|parts|] == parts;
  }

  lemma JoinFour(parts: seq<string>, a: string, b: string, c: string, d: string)
    requires parts != []
    ensures JoinLines(parts + [a, b, c, d]) == JoinLines(parts) + "\n" + a + "\n" + b + "\n" + c + "\n" + d
  {
    JoinOne(parts, a);
    JoinOne(parts + [a], b);
    JoinOne(parts + [a] + [b], c);
    JoinOne(parts + [a] + [b] + [c], d);
    assert parts + [a, b, c, d] == parts + [a] + [b] + [c] + [d];
  }

  lemma JoinSix(parts: seq<string>, a: string, b: string, c: string, d: string, e: string, f: string)
    requires parts != []
    ensures JoinLines(parts + [a, b, c, d, e, f])
         == JoinLines(parts) + "\n" + a + "\n" + b + "\n" + c + "\n" + d + "\n" + e + "\n" + f
  {
    JoinFour(parts, a, b, c, d);
    JoinOne(parts + [a, b, c, d], e);
    JoinOne(parts + [a, b, c, d] + [e], f);
    assert parts + [a, b, c, d, e, f] == parts + [a, b, c, d] + [e] + [f];
  }

  lemma {:induction false} AppendZonesLast(mk: Markers, t: string, zones: seq<Zone>, lead: Zone -> string)
    requires zones != []
    ensures var n := |zones| - 1;
      AppendZones(mk, t, zones, lead) == AppendZone(mk, AppendZones(mk, t, zones[..n], lead), lead(zones[n]), zones[n])
    decreases |zones|
  {
    hide AppendZone;
    var n := |zones| - 1;
    if n > 0 {
      AppendZonesLast(mk, AppendZone(mk, t, lead(zones[0]), zones[0]), zones[1..], lead);
      assert zones[1..][..n - 1] == zones[..n][1..];
    }
  }

  lemma {:induction false} FreshIsJoined(mk: Markers, t: string, zones: seq<Zone>, prose: Prose)
    ensures AppendZones(mk, t + "\n" + prose.header + "\n", zones, z => prose.heading(z) + "\n")
         == t + "\n" + JoinLines(SectionLines(mk, zones, prose)) + "\n"
    decreases |zones|
  {
    if zones != [] {
      var n := |zones| - 1;
      var z := zones[n];
      var lead := (w: Zone) => prose.heading(w) + "\n";
      FreshIsJoined(mk, t, zones[..n], prose);
      AppendZonesLast(mk, t + "\n" + prose.header + "\n", zones, lead);
      JoinFour(SectionLines(mk, zones[..n], prose), "", prose.heading(z), "", mk.Block(z));
      FreshShape(t, JoinLines(SectionLines(mk, zones[..n], prose)), prose.heading(z), mk.Block(z));
    }
  }

  lemma FreshShape(t: string, j: string, h: string, b: string)
    ensures (t + "\n" + j + "\n") + "\n" + (h + "\n") + "\n" + b + "\n"
         == t + "\n" + (j + "\n" + "" + "\n" + h + "\n" + "" + "\n" + b) + "\n"
  {}

  lemma FirstUpgrade(h: string, note: string, b: string)
    ensures JoinLines([h, "", note, "", b, ""]) == h + "\n" + "" + "\n" + note + "\n" + "" + "\n" + b + "\n" + ""
  {
    JoinFour([h], "", note, "", b);
    JoinOne([h] + ["", note, "", b], "");
    assert [h, "", note, "", b, ""] == [h] + ["", note, "", b] + [""];
  }

  lemma UpgradeShape(t: string, j: string, h: string, note: string, b: string)
    ensures (t + "\n" + j) + "\n" + (h + "\n\n" + note + "\n") + "\n" + b + "\n"
         == t + "\n" + (j + "\n" + h + "\n" + "" + "\n" + note + "\n" + "" + "\n" + b + "\n" + "")
    ensures t + "\n" + (h + "\n\n" + note + "\n") + "\n" + b + "\n"
         == t + "\n" + (h + "\n" + "" + "\n" + note + "\n" + "" + "\n" + b + "\n" + "")
  {}

  lemma {:induction false} UpgradeIsJoined(mk: Markers, t: string, zones: seq<Zone>, prose: Prose)
    requires zones != []
    ensures AppendZones(mk, t, zones, z => prose.heading(z) + "\n\n" + prose.note + "\n")
         == t + "\n" + JoinLines(UpgradeLines(mk, zones, prose))
    decreases |zones|
  {
    var n := |zones| - 1;
    var z := zones[n];
    var lead := (w: Zone) => prose.heading(w) + "\n\n" + prose.note + "\n";
    AppendZonesLast(mk, t, zones, lead);
    var before := UpgradeLines(mk, zones[..n], prose);
    UpgradeShape(t, JoinLines(before), prose.heading(z), prose.note, mk.Block(z));
    if n == 0 {
      assert before == [] && AppendZones(mk, t, zones[..n], lead) == t;
      FirstUpgrade(prose.heading(z), prose.note, mk.Block(z));
      assert before + [prose.heading(z), "", prose.note, "", mk.Block(z), ""]
          == [prose.heading(z), "", prose.note, "", mk.Block(z), ""];
    } else {
      UpgradeIsJoined(mk, t, zones[..n], prose);
      assert before != [];
      JoinSix(before, prose.heading(z), "", prose.note, "", mk.Block(z), "");
    }
  }

  // ---------- What is appended to which hub ----------

  /** The spliced hub, closed by a line feed, and the section or the compact blocks. */
  function WithSections(mk: Markers, spliced: string, zones: seq<Zone>, anyWired: bool, prose: Prose): string {
    if zones == [] then spliced
    else if anyWired then EndLine(spliced) + "\n" + JoinLines(UpgradeLines(mk, zones, prose))
    else EndLine(spliced) + "\n" + JoinLines(SectionLines(mk, zones, prose)) + "\n"
  }

  lemma SectionsAreJoined(mk: Markers, t: string, zones: seq<Zone>, isNew: bool, prose: Prose)
    ensures AppendSections(mk, t, zones, isNew, prose) == WithSections(mk, t, zones, !isNew, prose)
  {
    hide JoinLines, SectionLines, UpgradeLines, AppendZones, EndLine;
    if zones != [] {
      if isNew {
        FreshIsJoined(mk, EndLine(t), zones, prose);
      } else {
        UpgradeIsJoined(mk, EndLine(t), zones, prose);
      }
    }
  }

  /** Ends with a line feed, one added only if there was none. */
  lemma LineIsEnded(t: string)
    ensures EndLine(t) == t || EndLine(t) == t + "\n"
    ensures EndLine(t) == t <==> t != "" && t[|t| - 1] == '\n'
  {
    assert |t + "\n"| == |t| + 1;
  }

  lemma OccursBehind(a: string, b: string, m: string)
    requires Occurs(b, m)
    ensures Occurs(a + b, m)
  {
    var i: nat :| At(b, m, i);
    AtRight(a, b, m, |a| + i);
  }

  /** The protocol is appended exactly if its marker is missing; afterwards the marker is there, and a second time
      nothing is appended. */
  lemma ProtocolIsAppendedOnce(t: string, prose: Prose)
    requires Occurs(prose.protocol, prose.marker)
    ensures var out := AppendProtocol(t, prose);
      && (if Occurs(t, prose.marker) then out == t
          else EndLine(t) <= out && out[|EndLine(t)|..] == "\n" + prose.protocol)
      && Occurs(out, prose.marker) && AppendProtocol(out, prose) == out
  {
    var head := EndLine(t) + "\n";
    OccursBehind(head, prose.protocol, prose.marker);
    assert head + prose.protocol == EndLine(t) + ("\n" + prose.protocol);
  }

  lemma {:induction false} UnwiredCount(mk: Markers, t: string, zones: seq<Zone>)
    ensures |Unwired(mk, t, zones)| <= |zones|
    ensures |Unwired(mk, t, zones)| == |zones| <==> forall z | z in zones :: !Occurs(t, mk.begin(z))
  {
    if zones != [] {
      var n := |zones| - 1;
      UnwiredCount(mk, t, zones[..n]);
      assert zones == zones[..n] + [zones[n]];
      FindsIfOccurs(t, mk.begin(zones[n]));
    }
  }

  lemma FindsIfOccurs(t: string, m: string)
    ensures Find(t, m, 0).Some? <==> Occurs(t, m)
  {}

  /** Main result: what migrate writes is the spliced hub, then for the zones it neither has nor is given an anchor
      for the joined lines of one section if no zone was wired and compact blocks without a header if some were, and
      then the protocol unless its marker is already there. */
  lemma MigrateAppends(mk: Markers, t: string, given: seq<Anchor>, prose: Prose)
      returns (spliced: string, zones: seq<Zone>)
    requires Migrate(mk, t, given, prose).Migrated? && Occurs(prose.protocol, prose.marker) && OneAnchorEach(given)
    ensures spliced == SpliceAll(t, SortDown(SpansUsed(mk, t, given)), mk.Block)
    ensures forall z :: z in zones <==> !Occurs(t, mk.begin(z)) && !Anchored(given, z)
    ensures Distinct(zones)
    ensures var anyWired := exists z :: Occurs(t, mk.begin(z));
      Migrate(mk, t, given, prose).text == AppendProtocol(WithSections(mk, spliced, zones, anyWired, prose), prose)
    ensures Occurs(Migrate(mk, t, given, prose).text, prose.marker)
  {
    hide Unwired, For, Spans, Missing, Overlapping, SortUp, SortDown, SpliceAll, Unanchored, AppendSections,
        AppendProtocol,
      Migrate, Occurs, WithSections, EndLine;
    var toWire, used := Unwired(mk, t, ZONES), Used(mk, t, given);
    MigratedText(mk, t, given, prose);
    ZonesAreDistinct();
    UnwiredZones(mk, t, ZONES);
    UnwiredCount(mk, t, ZONES);
    UnanchoredZones(toWire, used);
    AnchorsFor(given, toWire);
    zones := Unanchored(toWire, used);
    spliced := SpliceAll(t, SortDown(Spans(t, used)), mk.Block);
    forall z
      ensures z in zones <==> !Occurs(t, mk.begin(z)) && !Anchored(given, z)
    {
      FindsIfOccurs(t, mk.begin(z));
      UsedAnchors(given, used, toWire, z);
    }
    SectionsAreJoined(mk, spliced, zones, |toWire| == |ZONES|, prose);
    ProtocolIsAppendedOnce(AppendSections(mk, spliced, zones, |toWire| == |ZONES|, prose), prose);
  }

  lemma UsedAnchors(given: seq<Anchor>, used: seq<Anchor>, zones: seq<Zone>, z: Zone)
    requires forall a :: a in used <==> a in given && a.zone in zones
    ensures z in zones ==> (Anchored(used, z) <==> Anchored(given, z))
  {
    if z in zones {
      if k :| 0 <= k < |given| && given[k].zone == z {
        assert given[k] in used;
      }
      if k :| 0 <= k < |used| && used[k].zone == z {
        assert used[k] in given;
      }
    }
  }
}
