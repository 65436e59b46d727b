/**
 What migrate makes of a well-formed hub: every zone ends up with one ordered pair of markers, disjoint
 from the others, so a second migrate does nothing and rendering cannot fail.
 */
module HubWiring {
  import opened HubText
  import opened HubRender
  import opened HubMigrate

  // ---------- Adding a zone to a text ----------

  /** l, a lead-in, the zone's two markers on lines of their own, then `gap` and the rest of the text. */
  function Graft(l: string, lead: string, b: string, e: string, gap: string, r: string): string {
    l + "\n" + (lead + "\n" + (b + "\n" + (e + (gap + r))))
  }

  /** The rest starts on a new line, or there is none. */
  predicate IsGap(gap: string, r: string) {
    gap == "\n" || gap == "\n\n" || (gap == "" && r == "")
  }

  lemma TailOccurrence(e: string, gap: string, r: string, m: string, i: nat)
    requires IsGap(gap, r) && '\n' !in m && m != ""
    ensures At(e + (gap + r), m, i) ==>
      (i + |m| <= |e| && At(e, m, i)) || (i >= |e| + |gap| && At(r, m, i - |e| - |gap|))
  {
    if gap == "" {
      assert e + (gap + r) == e;
    } else if gap == "\n" {
      assert e + (gap + r) == e + "\n" + r;
      NoStraddle(e, r, m, i);
    } else {
      assert e + (gap + r) == e + "\n" + ("" + "\n" + r);
      NoStraddle(e, "" + "\n" + r, m, i);
      if i > |e| {
        NoStraddle("", r, m, i - |e| - 1);
      }
    }
  }

  /** An occurrence in the grafted text lies in the left part, in the lead-in, in a marker, or in the rest. */
  lemma GraftOccurrence(l: string, lead: string, b: string, e: string, gap: string, r: string, m: string, i: nat)
    requires IsGap(gap, r) && '\n' !in m && m != "" && At(Graft(l, lead, b, e, gap, r), m, i)
    ensures var j := |l| + |lead| + 2;
      || (i + |m| <= |l| && At(l, m, i))
      || (i > |l| && At(lead, m, i - |l| - 1))
      || (i >= j && At(b, m, i - j))
      || (i > j + |b| && At(e, m, i - j - |b| - 1))
      || (i > j + |b| + |e| + |gap| && At(r, m, i - j - |b| - 1 - |e| - |gap|))
  {
    hide At;
    NoStraddle(l, lead + "\n" + (b + "\n" + (e + (gap + r))), m, i);
    if i > |l| {
      var i1 := i - |l| - 1;
      NoStraddle(lead, b + "\n" + (e + (gap + r)), m, i1);
      if i1 > |lead| {
        var i2 := i1 - |lead| - 1;
        NoStraddle(b, e + (gap + r), m, i2);
        if i2 > |b| {
          TailOccurrence(e, gap, r, m, i2 - |b| - 1);
        }
      }
    }
  }

  ghost predicate TwoMarkers(mk: Markers, b: string, e: string, lead: string) {
    && Framed(b) && Framed(e) && b != e
    && (forall m, i: nat | IsMarker(mk, m) :: !At(lead, m, i))
  }

  /** Where an occurrence of another marker stood before the graft replaced `mid`. */
  function Origin(l: string, lead: string, b: string, e: string, mid: string, gap: string, m: string, i: nat): int {
    if i + |m| <= |l| then i else i - |lead| - |b| - |e| - 3 - |gap| + |mid|
  }

  lemma OtherMarker(mk: Markers, l: string, lead: string, b: string, e: string, mid: string, gap: string, r: string,
                    m: string, i: nat)
    requires TwoMarkers(mk, b, e, lead) && IsGap(gap, r) && IsMarker(mk, m) && m != b && m != e
    requires At(Graft(l, lead, b, e, gap, r), m, i)
    ensures Origin(l, lead, b, e, mid, gap, m, i) >= 0 && At(l + mid + r, m, Origin(l, lead, b, e, mid, gap, m, i))
    ensures i + |m| <= |l| || Origin(l, lead, b, e, mid, gap, m, i) >= |l| + |mid|
  {
    hide At, Framed, IsMarker, Graft;
    MarkersAreFramed(mk, m);
    GraftOccurrence(l, lead, b, e, gap, r, m, i);
    var j := |l| + |lead| + 2;
    if i >= j {
      FramedAreIndependent(b, m, i - j);
    }
    if i > j + |b| {
      FramedAreIndependent(e, m, i - j - |b| - 1);
    }
    if i + |m| <= |l| {
      AtLeft(l, mid + r, m, i);
      assert l + mid + r == l + (mid + r);
    } else {
      AtRight(l + mid, r, m, Origin(l, lead, b, e, mid, gap, m, i));
    }
  }

  /** The new markers stand in one place each. */
  lemma OwnMarker(mk: Markers, l: string, lead: string, b: string, e: string, mid: string, gap: string, r: string,
                  m: string, i: nat)
    requires TwoMarkers(mk, b, e, lead) && IsGap(gap, r) && IsMarker(mk, m) && (m == b || m == e)
    requires !Occurs(l, m) && !Occurs(r, m) && At(Graft(l, lead, b, e, gap, r), m, i)
    ensures i == |l| + |lead| + 2 + (if m == b then 0 else |b| + 1)
  {
    MarkersAreFramed(mk, m);
    GraftOccurrence(l, lead, b, e, gap, r, m, i);
    var j := |l| + |lead| + 2;
    if i >= j {
      FramedAreIndependent(b, m, i - j);
    }
    if i > j + |b| {
      FramedAreIndependent(e, m, i - j - |b| - 1);
    }
  }

  lemma PartsOccur(l: string, mid: string, r: string, m: string)
    ensures Occurs(l, m) || Occurs(r, m) ==> Occurs(l + mid + r, m)
  {
    assert l + mid + r == l + (mid + r);
    if i: nat :| At(l, m, i) {
      AtLeft(l, mid + r, m, i);
      assert At(l + mid + r, m, i);
    } else if i: nat :| At(r, m, i) {
      AtRight(l + mid, r, m, i + |l + mid|);
      assert At(l + mid + r, m, i + |l + mid|);
    }
  }

  /** Grafting a zone that was absent keeps every marker single. */
  lemma GraftKeepsSingle(mk: Markers, l: string, lead: string, b: string, e: string, mid: string, gap: string,
                         r: string, m: string)
    requires TwoMarkers(mk, b, e, lead) && IsGap(gap, r) && IsMarker(mk, m)
    requires AtMostOnce(l + mid + r, m) && (m == b || m == e ==> !Occurs(l + mid + r, m))
    ensures AtMostOnce(Graft(l, lead, b, e, gap, r), m)
    ensures m != b && m != e && !Occurs(l + mid + r, m) ==> !Occurs(Graft(l, lead, b, e, gap, r), m)
  {
    var t := Graft(l, lead, b, e, gap, r);
    if m == b || m == e {
      PartsOccur(l, mid, r, m);
      forall i: nat | At(t, m, i)
        ensures i == |l| + |lead| + 2 + (if m == b then 0 else |b| + 1)
      {
        OwnMarker(mk, l, lead, b, e, mid, gap, r, m, i);
      }
    } else {
      MarkersAreFramed(mk, m);
      forall i: nat | At(t, m, i)
        ensures Origin(l, lead, b, e, mid, gap, m, i) >= 0 && At(l + mid + r, m, Origin(l, lead, b, e, mid, gap, m, i))
        ensures i + |m| <= |l| || Origin(l, lead, b, e, mid, gap, m, i) >= |l| + |mid|
      {
        OtherMarker(mk, l, lead, b, e, mid, gap, r, m, i);
      }
      forall i: nat, i': nat | At(t, m, i) && At(t, m, i')
        ensures i == i'
      {
        assert Origin(l, lead, b, e, mid, gap, m, i) == Origin(l, lead, b, e, mid, gap, m, i');
      }
    }
  }

  // ---------- Adding a zone to a hub ----------

  lemma HasConcat(a: seq<Piece>, b: seq<Piece>, z: Zone)
    ensures Has(a + b, z) <==> Has(a, z) || Has(b, z)
  {
    if k :| 0 <= k < |a| && a[k].Generated? && a[k].zone == z {
      assert (a + b)[k] == a[k];
    }
    if k :| 0 <= k < |b| && b[k].Generated? && b[k].zone == z {
      assert (a + b)[|a| + k] == b[k];
    }
    if k :| 0 <= k < |a + b| && (a + b)[k].Generated? && (a + b)[k].zone == z {
      assert (a + b)[k] == if k < |a| then a[k] else b[k - |a|];
    }
  }

  lemma OwnMarkers(mk: Markers, z: Zone, lead: string)
    ensures Clean(mk, lead) ==>
      TwoMarkers(mk, mk.begin(z), mk.end(z), lead) && IsMarker(mk, mk.begin(z)) && IsMarker(mk, mk.end(z))
  {}

  lemma HasThree(a: seq<Piece>, b: seq<Piece>, c: seq<Piece>, z: Zone)
    ensures Has(a + b + c, z) <==> Has(a, z) || Has(b, z) || Has(c, z)
  {
    HasConcat(a + b, c, z);
    HasConcat(a, b, z);
  }

  /** A hub whose text is a graft of an absent zone is well formed. */
  lemma GraftKeepsWellFormed(mk: Markers, doc: seq<Piece>, doc': seq<Piece>, z: Zone,
                             l: string, lead: string, mid: string, gap: string, r: string)
    requires WellFormed(mk, doc) && !Has(doc, z) && Clean(mk, lead) && IsGap(gap, r)
    requires Flat(mk, doc) == l + mid + r && Flat(mk, doc') == Graft(l, lead, mk.begin(z), mk.end(z), gap, r)
    requires forall y :: Has(doc', y) <==> Has(doc, y) || y == z
    ensures WellFormed(mk, doc')
  {
    OwnMarkers(mk, z, lead);
    forall m | IsMarker(mk, m)
      ensures AtMostOnce(Flat(mk, doc'), m)
      ensures m != mk.begin(z) && m != mk.end(z) && !Occurs(Flat(mk, doc), m) ==> !Occurs(Flat(mk, doc'), m)
    {
      GraftKeepsSingle(mk, l, lead, mk.begin(z), mk.end(z), mid, gap, r, m);
    }
    forall y | !Has(doc', y)
      ensures !Occurs(Flat(mk, doc'), mk.begin(y)) && !Occurs(Flat(mk, doc'), mk.end(y))
    {
      assert IsMarker(mk, mk.begin(y)) && IsMarker(mk, mk.end(y));
    }
  }

  // ---------- Splicing a zone into hand-written text ----------

  /** The zone between two stretches of text. */
  function ZoneIn(x: string, z: Zone, y: string): seq<Piece> {
    [Text(x + "\n\n"), Generated(z, "\n"), Text("\n\n" + y)]
  }

  lemma FlatThree(mk: Markers, a: seq<Piece>, x: Piece, y: Piece, z: Piece, b: seq<Piece>)
    ensures Flat(mk, a + [x, y, z] + b) == Flat(mk, a) + Show(mk, x) + Show(mk, y) + Show(mk, z) + Flat(mk, b)
  {
    assert a + [x, y, z] == a + [x] + [y] + [z];
    FlatConcat(mk, a + [x, y, z], b);
    FlatAppend(mk, a + [x] + [y], z);
    FlatAppend(mk, a + [x], y);
    FlatAppend(mk, a, x);
  }

  function Around(p: string, x: string, block: string, y: string, q: string): string {
    p + (x + "\n\n") + block + ("\n\n" + y) + q
  }

  lemma RegroupPieces(p: string, x: string, b: string, e: string, y: string, q: string)
    ensures Around(p, x, b + "\n" + e, y, q) == Graft(p + x, "", b, e, "\n\n", y + q)
  {}

  lemma ZoneInShows(mk: Markers, a: seq<Piece>, x: string, z: Zone, y: string, b: seq<Piece>)
    ensures Flat(mk, a + ZoneIn(x, z, y) + b)
        == Graft(Flat(mk, a) + x, "", mk.begin(z), mk.end(z), "\n\n", y + Flat(mk, b))
  {
    FlatThree(mk, a, Text(x + "\n\n"), Generated(z, "\n"), Text("\n\n" + y), b);
    assert Flat(mk, a + ZoneIn(x, z, y) + b) == Around(Flat(mk, a), x, mk.begin(z) + "\n" + mk.end(z), y, Flat(mk, b));
    RegroupPieces(Flat(mk, a), x, mk.begin(z), mk.end(z), y, Flat(mk, b));
  }

  lemma TextShows(mk: Markers, a: seq<Piece>, x: string, mid: string, y: string, b: seq<Piece>)
    ensures Flat(mk, a + [Text(x + mid + y)] + b) == (Flat(mk, a) + x) + mid + (y + Flat(mk, b))
  {
    FlatConcat(mk, a + [Text(x + mid + y)], b);
    FlatAppend(mk, a, Text(x + mid + y));
    RegroupText(Flat(mk, a), x, mid, y, Flat(mk, b));
  }

  lemma RegroupText(p: string, x: string, mid: string, y: string, q: string)
    ensures p + (x + mid + y) + q == (p + x) + mid + (y + q)
  {}

  lemma EmptyIsClean(mk: Markers)
    ensures Clean(mk, "")
  {
    forall m, i: nat | IsMarker(mk, m)
      ensures !At("", m, i)
    {
      MarkersAreFramed(mk, m);
    }
  }

  lemma ZonesAround(a: seq<Piece>, x: string, z: Zone, y: string, b: seq<Piece>, text: string, w: Zone)
    ensures Has(a + ZoneIn(x, z, y) + b, w) <==> Has(a + [Text(text)] + b, w) || w == z
  {
    HasThree(a, ZoneIn(x, z, y), b, w);
    HasThree(a, [Text(text)], b, w);
    assert ZoneIn(x, z, y)[1] == Generated(z, "\n");
  }

  /** Replacing a stretch of hand-written text by an absent zone. */
  lemma ZoneInKeepsWellFormed(mk: Markers, a: seq<Piece>, x: string, mid: string, y: string, b: seq<Piece>, z: Zone)
    requires WellFormed(mk, a + [Text(x + mid + y)] + b) && !Has(a + [Text(x + mid + y)] + b, z)
    ensures WellFormed(mk, a + ZoneIn(x, z, y) + b)
  {
    var doc, doc' := a + [Text(x + mid + y)] + b, a + ZoneIn(x, z, y) + b;
    TextShows(mk, a, x, mid, y, b);
    ZoneInShows(mk, a, x, z, y, b);
    EmptyIsClean(mk);
    forall w
      ensures Has(doc', w) <==> Has(doc, w) || w == z
    {
      ZonesAround(a, x, z, y, b, x + mid + y, w);
    }
    GraftKeepsWellFormed(mk, doc, doc', z, Flat(mk, a) + x, "", mid, "\n\n", y + Flat(mk, b));
  }

  // ---------- Spans ----------

  /** The span lies in the k-th piece, which is hand-written. */
  ghost predicate InPiece(mk: Markers, doc: seq<Piece>, k: nat, s: Span)
    requires k < |doc|
  {
    doc[k].Text? && |Flat(mk, doc[..k])| <= s.from <= s.to <= |Flat(mk, doc[..k])| + |doc[k].text|
  }

  ghost predicate InText(mk: Markers, doc: seq<Piece>, s: Span) {
    exists k: nat :: k < |doc| && InPiece(mk, doc, k, s)
  }

  function SpliceDoc(mk: Markers, doc: seq<Piece>, k: nat, s: Span): seq<Piece>
    requires k < |doc| && doc[k].Text? && |Flat(mk, doc[..k])| <= s.from <= s.to <= |Flat(mk, doc[..k])| + |doc[k].text|
  {
    var lo := |Flat(mk, doc[..k])|;
    doc[..k] + ZoneIn(doc[k].text[..s.from - lo], s.zone, doc[k].text[s.to - lo..]) + doc[k + 1..]
  }

  lemma SpliceIsGraft(mk: Markers, l: string, mid: string, r: string, s: Span)
    requires s.from == |l| && s.to == |l| + |mid|
    ensures Splice(l + mid + r, s, mk.Block) == Graft(l, "", mk.begin(s.zone), mk.end(s.zone), "\n\n", r)
  {
    var t := l + mid + r;
    assert t[..s.from] == l && t[s.to..] == r;
    RegroupSplice(l, mk.begin(s.zone), mk.end(s.zone), r);
  }

  lemma RegroupSplice(l: string, b: string, e: string, r: string)
    ensures l + "\n\n" + (b + "\n" + e) + "\n\n" + r == Graft(l, "", b, e, "\n\n", r)
  {}

  lemma SpliceBetween(mk: Markers, a: seq<Piece>, x: string, mid: string, y: string, b: seq<Piece>, s: Span)
    requires s.from == |Flat(mk, a)| + |x| && s.to == s.from + |mid|
    ensures Flat(mk, a + ZoneIn(x, s.zone, y) + b) == Splice(Flat(mk, a + [Text(x + mid + y)] + b), s, mk.Block)
  {
    TextShows(mk, a, x, mid, y, b);
    ZoneInShows(mk, a, x, s.zone, y, b);
    SpliceIsGraft(mk, Flat(mk, a) + x, mid, y + Flat(mk, b), s);
  }

  /** A text cut at the span's two ends. */
  lemma Cuts(text: string, i: nat, j: nat)
    ensures i <= j <= |text| ==> text == text[..i] + text[i..j] + text[j..]
  {}

  lemma SpliceKeepsWellFormed(mk: Markers, doc: seq<Piece>, k: nat, s: Span)
    requires WellFormed(mk, doc) && k < |doc| && InPiece(mk, doc, k, s) && !Has(doc, s.zone)
    ensures WellFormed(mk, SpliceDoc(mk, doc, k, s))
    ensures Flat(mk, SpliceDoc(mk, doc, k, s)) == Splice(Flat(mk, doc), s, mk.Block)
  {
    var a, b := doc[..k], doc[k + 1..];
    var i, j := s.from - |Flat(mk, a)|, s.to - |Flat(mk, a)|;
    var text := doc[k].text;
    Cuts(text, i, j);
    SplitAt(doc, k);
    ZoneInKeepsWellFormed(mk, a, text[..i], text[i..j], text[j..], b, s.zone);
    SpliceBetween(mk, a, text[..i], text[i..j], text[j..], b, s);
  }

  lemma ZonesAfterSplice(mk: Markers, doc: seq<Piece>, k: nat, s: Span, w: Zone)
    requires k < |doc| && InPiece(mk, doc, k, s)
    ensures Has(SpliceDoc(mk, doc, k, s), w) <==> Has(doc, w) || w == s.zone
  {
    var lo, text := |Flat(mk, doc[..k])|, doc[k].text;
    SplitAt(doc, k);
    ZonesAround(doc[..k], text[..s.from - lo], s.zone, text[s.to - lo..], doc[k + 1..], text, w);
  }
}
