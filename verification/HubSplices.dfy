/**
 The order in which migrate splices its spans, and when that keeps a hub well formed.

 The spans are spliced by descending start. A span that ends where the one before it starts is still in
 hand-written text; one that starts where the one before it starts is too, as long as it does not reach past
 the two newlines now standing before the spliced block.
 */
module HubSplices {
  import opened HubText
  import opened HubRender
  import opened HubMigrate
  import opened HubWiring

  // ---------- The order ----------

  /** Spliced after a, the span b still lies in hand-written text. */
  predicate After(a: Span, b: Span) {
    b.to <= a.from || (b.from == a.from && b.to <= b.from + 2)
  }

  ghost predicate Harmless(down: seq<Span>) {
    forall i, j | 0 <= i < j < |down| :: After(down[i], down[j])
  }

  ghost predicate Falls(down: seq<Span>) {
    forall i, j | 0 <= i < j < |down| :: down[j].from <= down[i].from
  }

  /** Spans with different starts do not overlap. */
  ghost predicate Disjoint(spans: seq<Span>) {
    forall x, y | x in spans && y in spans && x.from < y.from :: x.to <= y.from
  }

  /** Of two spans with the same start the later one is at most two characters long. */
  ghost predicate ShortTies(spans: seq<Span>) {
    forall i, j | 0 <= i < j < |spans| && spans[i].from == spans[j].from :: spans[j].to <= spans[j].from + 2
  }

  lemma VerifiedAreDisjoint(spans: seq<Span>, end: nat)
    requires InRange(spans, end) && !Overlapping(SortUp(spans))
    ensures Disjoint(spans)
  {
    hide Overlapping, SortUp;
    var up := SortUp(spans);
    SortUpMembers(spans);
    SortUpInRange(spans, end);
    SortUpAscends(spans);
    NoOverlapFits(up, end);
    forall x, y | x in spans && y in spans && x.from < y.from
      ensures x.to <= y.from
    {
      assert x in up && y in up;
      var a :| 0 <= a < |up| && up[a] == x;
      var b :| 0 <= b < |up| && up[b] == y;
      assert a < b;
    }
  }

  /** All of t may come after a. */
  ghost predicate AllAfter(a: Span, t: seq<Span>) {
    forall i | 0 <= i < |t| :: After(a, t[i])
  }

  /** x may come after all of s that starts no earlier. */
  ghost predicate AfterAll(s: seq<Span>, x: Span) {
    forall i | 0 <= i < |s| && s[i].from >= x.from :: After(s[i], x)
  }

  lemma HarmlessCons(a: Span, t: seq<Span>)
    ensures Harmless([a] + t) <==> Harmless(t) && AllAfter(a, t)
  {
    hide After;
    var s := [a] + t;
    if Harmless(s) {
      forall i, j | 0 <= i < j < |t|
        ensures After(t[i], t[j])
      {
        assert After(s[i + 1], s[j + 1]);
      }
      forall i | 0 <= i < |t|
        ensures After(a, t[i])
      {
        assert After(s[0], s[i + 1]);
      }
    }
  }

  lemma AfterAllCons(a: Span, t: seq<Span>, x: Span)
    ensures AfterAll([a] + t, x) <==> (a.from >= x.from ==> After(a, x)) && AfterAll(t, x)
  {
    hide After;
    var s := [a] + t;
    assert forall i | 0 <= i < |t| :: s[i + 1] == t[i];
    assert s[0] == a;
  }

  lemma AllAfterMembers(a: Span, t: seq<Span>, s: seq<Span>, x: Span)
    requires forall y :: y in t <==> y in s || y == x
    ensures AllAfter(a, t) <==> AllAfter(a, s) && After(a, x)
  {
    hide After;
    if AllAfter(a, t) {
      assert x in t;
      forall i | 0 <= i < |s|
        ensures After(a, s[i])
      {
        assert s[i] in t;
      }
    } else {
      var i :| 0 <= i < |t| && !After(a, t[i]);
      assert t[i] in t;
    }
  }

  lemma {:induction false} InsertDownFalls(s: seq<Span>, x: Span)
    requires Falls(s)
    ensures Falls(InsertDown(s, x))
    decreases |s|
  {
    if s != [] && s[0].from >= x.from {
      var t := InsertDown(s[1..], x);
      InsertDownFalls(s[1..], x);
      InsertDownMembers(s[1..], x);
      forall i | 0 <= i < |t|
        ensures t[i].from <= s[0].from
      {
        assert t[i] in t;
      }
    }
  }

  /** The stable sort puts x behind everything that starts no earlier. */
  lemma {:induction false} InsertDownHarmless(s: seq<Span>, x: Span)
    requires Falls(s) && forall i | 0 <= i < |s| && s[i].from < x.from :: After(x, s[i])
    ensures Harmless(InsertDown(s, x)) <==> Harmless(s) && AfterAll(s, x)
    decreases |s|
  {
    hide After, Harmless;
    if s == [] {
      HarmlessCons(x, []);
      assert [x] + [] == s + [x];
    } else if s[0].from >= x.from {
      hide AllAfter, AfterAll;
      var t := InsertDown(s[1..], x);
      InsertDownHarmless(s[1..], x);
      InsertDownMembers(s[1..], x);
      AllAfterMembers(s[0], t, s[1..], x);
      HarmlessCons(s[0], t);
      HarmlessCons(s[0], s[1..]);
      AfterAllCons(s[0], s[1..], x);
      assert s == [s[0]] + s[1..];
    } else {
      HarmlessCons(x, s);
    }
  }

  /** The later span of a tie with an earlier one of init. */
  ghost predicate ShortAgainst(init: seq<Span>, x: Span) {
    forall i | 0 <= i < |init| && init[i].from == x.from :: x.to <= x.from + 2
  }

  lemma ShortTiesSnoc(init: seq<Span>, x: Span)
    ensures ShortTies(init + [x]) <==> ShortTies(init) && ShortAgainst(init, x)
  {
    var spans := init + [x];
    assert forall i | 0 <= i < |init| :: spans[i] == init[i];
    assert spans[|init|] == x;
  }

  lemma AfterAllIsShort(init: seq<Span>, s: seq<Span>, x: Span)
    requires x.from <= x.to && (forall y :: y in s <==> y in init)
    requires forall y | y in init && y.from > x.from :: x.to <= y.from
    ensures AfterAll(s, x) <==> ShortAgainst(init, x)
  {
    forall i | 0 <= i < |init|
      ensures init[i] in s
    {
      assert init[i] in init;
    }
    forall i | 0 <= i < |s|
      ensures s[i] in init
    {
      assert s[i] in s;
    }
  }

  /** Main result: verified spans come in a harmless order exactly when their ties are short. */
  lemma {:induction false} HarmlessExactlyWhenTiesAreShort(spans: seq<Span>, end: nat)
    requires Disjoint(spans) && InRange(spans, end)
    ensures Falls(SortDown(spans)) && (Harmless(SortDown(spans)) <==> ShortTies(spans))
  {
    hide Falls, Harmless, ShortTies, AfterAll, ShortAgainst, InsertDown;
    if spans == [] {
      EmptyIsHarmless();
    } else {
      var n := |spans| - 1;
      var init, x, s := spans[..n], spans[n], SortDown(spans[..n]);
      assert spans == init + [x] && x in spans;
      assert forall y | y in init :: y in spans;
      HarmlessExactlyWhenTiesAreShort(init, end);
      SortDownMembers(init);
      forall i | 0 <= i < |s| && s[i].from < x.from
        ensures After(x, s[i])
      {
        assert s[i] in s && s[i] in spans;
      }
      InsertDownFalls(s, x);
      InsertDownHarmless(s, x);
      AfterAllIsShort(init, s, x);
      ShortTiesSnoc(init, x);
    }
  }

  lemma EmptyIsHarmless()
    ensures Falls([]) && Harmless([]) && ShortTies([])
  {}

  lemma {:induction false} InsertDownZones(s: seq<Span>, x: Span)
    requires forall i, j | 0 <= i < j < |s| :: s[i].zone != s[j].zone
    requires forall i | 0 <= i < |s| :: s[i].zone != x.zone
    ensures forall i, j | 0 <= i < j < |InsertDown(s, x)| :: InsertDown(s, x)[i].zone != InsertDown(s, x)[j].zone
    decreases |s|
  {
    if s != [] && s[0].from >= x.from {
      var t := InsertDown(s[1..], x);
      InsertDownZones(s[1..], x);
      InsertDownMembers(s[1..], x);
      forall i | 0 <= i < |t|
        ensures t[i].zone != s[0].zone
      {
        assert t[i] in t;
      }
    }
  }

  lemma {:induction false} SortDownZones(spans: seq<Span>)
    requires forall i, j | 0 <= i < j < |spans| :: spans[i].zone != spans[j].zone
    ensures forall i, j | 0 <= i < j < |SortDown(spans)| :: SortDown(spans)[i].zone != SortDown(spans)[j].zone
  {
    if spans != [] {
      var n := |spans| - 1;
      var s := SortDown(spans[..n]);
      SortDownZones(spans[..n]);
      SortDownMembers(spans[..n]);
      forall i | 0 <= i < |s|
        ensures s[i].zone != spans[n].zone
      {
        assert s[i] in s && s[i] in spans[..n];
      }
      InsertDownZones(s, spans[n]);
    }
  }

  // ---------- Splicing ----------

  ghost predicate AllInText(mk: Markers, doc: seq<Piece>, spans: seq<Span>) {
    forall i | 0 <= i < |spans| :: InText(mk, doc, spans[i])
  }

  ghost predicate AllAbsent(doc: seq<Piece>, spans: seq<Span>) {
    && (forall i | 0 <= i < |spans| :: !Has(doc, spans[i].zone))
    && (forall i, j | 0 <= i < j < |spans| :: spans[i].zone != spans[j].zone)
  }

  ghost predicate ZoneAmong(spans: seq<Span>, z: Zone) {
    exists i :: 0 <= i < |spans| && spans[i].zone == z
  }

  lemma FlatPrefixGrows(mk: Markers, doc: seq<Piece>, j: nat, k: nat)
    requires j < k <= |doc|
    ensures |Flat(mk, doc[..j])| + |Show(mk, doc[j])| <= |Flat(mk, doc[..k])|
  {
    FlatSplit(mk, doc[..k], j);
    assert doc[..k][..j] == doc[..j];
  }

  /** Splicing one span leaves the spans to its left in hand-written text. */
  lemma LeftSpansStay(mk: Markers, doc: seq<Piece>, k: nat, s: Span, r: Span)
    requires k < |doc| && InPiece(mk, doc, k, s) && InText(mk, doc, r) && r.to <= s.from
    ensures InText(mk, SpliceDoc(mk, doc, k, s), r)
  {
    hide Show;
    var j: nat :| j < |doc| && InPiece(mk, doc, j, r);
    var doc' := SpliceDoc(mk, doc, k, s);
    if j < k {
      assert doc'[..j] == doc[..j] && doc'[j] == doc[j];
      assert InPiece(mk, doc', j, r);
    } else {
      if k < j {
        FlatPrefixGrows(mk, doc, k, j);
      }
      assert doc'[..k] == doc[..k];
      assert InPiece(mk, doc', k, r);
    }
  }

  /** A tied span that cuts newlines only lies in the text before the spliced block. */
  lemma TiedSpanStays(mk: Markers, doc: seq<Piece>, k: nat, s: Span, r: Span)
    requires k < |doc| && InPiece(mk, doc, k, s) && r.from == s.from <= r.to <= r.from + 2
    ensures InText(mk, SpliceDoc(mk, doc, k, s), r)
  {
    hide Show;
    var doc' := SpliceDoc(mk, doc, k, s);
    assert doc'[..k] == doc[..k];
    assert InPiece(mk, doc', k, r);
  }

  /** One splice leaves the spans that may come after it in place and absent. */
  lemma SpliceOne(mk: Markers, doc: seq<Piece>, down: seq<Span>) returns (next: seq<Piece>)
    requires WellFormed(mk, doc) && down != [] && AllInText(mk, doc, down)
    requires forall i | 1 <= i < |down| :: After(down[0], down[i])
    requires !Has(doc, down[0].zone)
    ensures WellFormed(mk, next) && Flat(mk, next) == Splice(Flat(mk, doc), down[0], mk.Block)
    ensures forall z :: Has(next, z) <==> Has(doc, z) || z == down[0].zone
    ensures AllInText(mk, next, down[1..])
  {
    var s := down[0];
    assert InText(mk, doc, s);
    var k: nat :| k < |doc| && InPiece(mk, doc, k, s);
    next := SpliceDoc(mk, doc, k, s);
    SpliceKeepsWellFormed(mk, doc, k, s);
    forall z
      ensures Has(next, z) <==> Has(doc, z) || z == s.zone
    {
      ZonesAfterSplice(mk, doc, k, s, z);
    }
    forall i | 0 <= i < |down[1..]|
      ensures InText(mk, next, down[1..][i])
    {
      var r := down[i + 1];
      assert InText(mk, doc, r) && After(s, r);
      if r.to <= s.from {
        LeftSpansStay(mk, doc, k, s, r);
      } else {
        TiedSpanStays(mk, doc, k, s, r);
      }
    }
  }

  /** The first n splices of a harmless order. */
  lemma {:induction false} SpansKeepWellFormed(mk: Markers, doc: seq<Piece>, down: seq<Span>, n: nat)
      returns (doc': seq<Piece>)
    requires WellFormed(mk, doc) && Harmless(down) && AllInText(mk, doc, down) && AllAbsent(doc, down) && n <= |down|
    ensures WellFormed(mk, doc') && Flat(mk, doc') == SpliceAll(Flat(mk, doc), down[..n], mk.Block)
    ensures forall z :: Has(doc', z) <==> Has(doc, z) || ZoneAmong(down[..n], z)
    ensures AllInText(mk, doc', down[n..])
    decreases n
  {
    hide WellFormed, Show, Splice, InText, After;
    if n == 0 {
      doc' := doc;
    } else {
      var next := SpliceOne(mk, doc, down);
      doc' := SpansKeepWellFormed(mk, next, down[1..], n - 1);
      var first := down[..n];
      assert first[0] == down[0] && first[1..] == down[1..][..n - 1];
      assert down[n..] == down[1..][n - 1..];
      forall z
        ensures ZoneAmong(first, z) <==> z == down[0].zone || ZoneAmong(first[1..], z)
      {
        FirstOrLater(first, z);
      }
    }
  }

  lemma FirstOrLater(down: seq<Span>, z: Zone)
    requires down != []
    ensures ZoneAmong(down, z) <==> z == down[0].zone || ZoneAmong(down[1..], z)
  {
    if i :| 0 <= i < |down| && down[i].zone == z {
      assert i > 0 ==> down[1..][i - 1].zone == z;
    }
    if i :| 0 <= i < |down[1..]| && down[1..][i].zone == z {
      assert down[i + 1].zone == z;
    }
  }

  /** What holds of the spans holds of them in splicing order. */
  lemma InSplicingOrder(mk: Markers, doc: seq<Piece>, spans: seq<Span>)
    requires AllInText(mk, doc, spans) && AllAbsent(doc, spans)
    ensures AllInText(mk, doc, SortDown(spans)) && AllAbsent(doc, SortDown(spans))
    ensures forall z :: ZoneAmong(SortDown(spans), z) <==> ZoneAmong(spans, z)
  {
    hide InText, Has;
    var down := SortDown(spans);
    SortDownMembers(spans);
    SortDownZones(spans);
    forall i | 0 <= i < |down|
      ensures InText(mk, doc, down[i]) && !Has(doc, down[i].zone)
    {
      assert down[i] in down && down[i] in spans;
    }
    forall z
      ensures ZoneAmong(down, z) <==> ZoneAmong(spans, z)
    {
      if i :| 0 <= i < |down| && down[i].zone == z {
        assert down[i] in down && down[i] in spans;
      }
      if i :| 0 <= i < |spans| && spans[i].zone == z {
        assert spans[i] in spans && spans[i] in down;
      }
    }
  }
}
