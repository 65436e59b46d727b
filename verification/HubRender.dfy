/** Regenerating marked zones in place. */
module HubRender {
  import opened Optional
  import opened HubText

  // The code is _replace_zone and render_hub_write in bin/_fleet/engine.py.

  // ---------- The code ----------

  /** Put the body between the first occurrences of the two markers. */
  function ReplaceBetween(t: string, b: string, e: string, body: string): Option<string> {
    var i, j := Find(t, b, 0), Find(t, e, 0);
    if i.None? || j.None? || j.value < i.value then None
    else Some(t[..i.value + |b|] + "\n" + body + "\n" + t[j.value..])
  }

  /** Or name the zone whose markers are missing. */
  function ReplaceZone(mk: Markers, t: string, z: Zone, body: string): Result<string, Zone> {
    var r := ReplaceBetween(t, mk.begin(z), mk.end(z), body);
    if r.None? then Err(z) else Ok(r.value)
  }

  /** The render loop over the zones in `order`. */
  function RenderAll(mk: Markers, t: string, order: seq<Zone>, bodies: Zone -> string): Result<string, Zone>
    decreases |order|
  {
    if order == [] then Ok(t)
    else
      var z := order[0];
      if IsOptional(z) && Find(t, mk.begin(z), 0).None? && Find(t, mk.end(z), 0).None? then
        RenderAll(mk, t, order[1..], bodies)
      else
        var r := ReplaceZone(mk, t, z, bodies(z));
        if r.Err? then r else RenderAll(mk, r.value, order[1..], bodies)
  }

  // ---------- Hubs with disjoint, singly marked zones ----------

  datatype Piece = Text(text: string) | Generated(zone: Zone, body: string)

  function Show(mk: Markers, p: Piece): string {
    match p
    case Text(s) => s
    case Generated(z, body) => mk.begin(z) + body + mk.end(z)
  }

  function Flat(mk: Markers, doc: seq<Piece>): string {
    if doc == [] then "" else Flat(mk, doc[..|doc| - 1]) + Show(mk, doc[|doc| - 1])
  }

  ghost predicate Has(doc: seq<Piece>, z: Zone) {
    exists k :: 0 <= k < |doc| && doc[k].Generated? && doc[k].zone == z
  }

  /** No marker occurs twice, and none of a zone the hub does not have. */
  ghost predicate WellFormed(mk: Markers, doc: seq<Piece>) {
    && (forall m | IsMarker(mk, m) :: AtMostOnce(Flat(mk, doc), m))
    && (forall z | !Has(doc, z) :: !Occurs(Flat(mk, doc), mk.begin(z)) && !Occurs(Flat(mk, doc), mk.end(z)))
  }

  lemma {:induction false} FlatConcat(mk: Markers, a: seq<Piece>, b: seq<Piece>)
    ensures Flat(mk, a + b) == Flat(mk, a) + Flat(mk, b)
    decreases |b|
  {
    if b == [] {
      assert a + b == a;
    } else {
      hide Show;
      FlatConcat(mk, a, b[..|b| - 1]);
      assert (a + b)[..|a + b| - 1] == a + b[..|b| - 1] && (a + b)[|a + b| - 1] == b[|b| - 1];
      Reassociate(Flat(mk, a), Flat(mk, b[..|b| - 1]), Show(mk, b[|b| - 1]));
    }
  }

  lemma Reassociate(a: string, b: string, c: string)
    ensures (a + b) + c == a + (b + c)
  {}

  lemma FlatAppend(mk: Markers, a: seq<Piece>, p: Piece)
    ensures Flat(mk, a + [p]) == Flat(mk, a) + Show(mk, p)
  {
    assert (a + [p])[..|a|] == a;
  }

  lemma SplitAt(doc: seq<Piece>, k: nat)
    ensures k < |doc| ==> doc == (doc[..k] + [doc[k]]) + doc[k + 1..]
  {}

  lemma FlatSplit(mk: Markers, doc: seq<Piece>, k: nat)
    requires k < |doc|
    ensures Flat(mk, doc) == Flat(mk, doc[..k]) + Show(mk, doc[k]) + Flat(mk, doc[k + 1..])
  {
    SplitAt(doc, k);
    FlatConcat(mk, doc[..k] + [doc[k]], doc[k + 1..]);
    FlatAppend(mk, doc[..k], doc[k]);
  }

  lemma FlatUpdate(mk: Markers, doc: seq<Piece>, k: nat, p: Piece)
    requires k < |doc|
    ensures Flat(mk, doc[k := p]) == Flat(mk, doc[..k]) + Show(mk, p) + Flat(mk, doc[k + 1..])
  {
    FlatSplit(mk, doc[k := p], k);
    assert doc[k := p][..k] == doc[..k] && doc[k := p][k + 1..] == doc[k + 1..];
  }

  // ---------- One zone ----------

  lemma MarkersStand(l: string, b: string, old_: string, e: string, r: string)
    ensures var t := l + (b + old_ + e) + r;
      At(t, b, |l|) && At(t, e, |l| + |b| + |old_|)
  {
    var t := l + (b + old_ + e) + r;
    assert t[|l|..|l| + |b|] == b;
    assert t[|l| + |b| + |old_|..|l| + |b| + |old_| + |e|] == e;
  }

  lemma Cut(l: string, b: string, old_: string, e: string, r: string)
    ensures var t := l + (b + old_ + e) + r;
      t[..|l| + |b|] == l + b && t[|l| + |b| + |old_|..] == e + r
  {
    var t := l + (b + old_ + e) + r;
    assert t == (l + b) + (old_ + e + r);
    assert t == (l + b + old_) + (e + r);
  }

  /** On a singly marked zone the code puts the body between the two markers it found. */
  lemma ReplaceSingle(l: string, b: string, old_: string, e: string, r: string, body: string)
    requires AtMostOnce(l + (b + old_ + e) + r, b) && AtMostOnce(l + (b + old_ + e) + r, e)
    ensures ReplaceBetween(l + (b + old_ + e) + r, b, e, body) == Some(l + b + "\n" + body + "\n" + (e + r))
  {
    var t := l + (b + old_ + e) + r;
    MarkersStand(l, b, old_, e, r);
    FindUnique(t, b, |l|);
    FindUnique(t, e, |l| + |b| + |old_|);
    Cut(l, b, old_, e, r);
  }

  /** Where an occurrence outside the new body came from. */
  function Before(l: string, old_: string, body: string, m: string, i: nat): int {
    if i + |m| <= |l| then i else i - |body| - 2 + |old_|
  }

  lemma OccurrenceComesFromBefore(l: string, old_: string, r: string, body: string, m: string, i: nat)
    requires '\n' !in m && m != "" && !Occurs(body, m)
    requires At(l + "\n" + (body + "\n" + r), m, i)
    ensures i + |m| <= |l| || i >= |l| + |body| + 2
    ensures Before(l, old_, body, m, i) >= 0
    ensures At(l + old_ + r, m, Before(l, old_, body, m, i))
  {
    NoStraddle(l, body + "\n" + r, m, i);
    if i + |m| <= |l| {
      AtLeft(l, old_ + r, m, i);
      assert l + old_ + r == l + (old_ + r);
    } else {
      NoStraddle(body, r, m, i - |l| - 1);
      AtRight(l + old_, r, m, i - |body| - 2 + |old_|);
    }
  }

  lemma NewBodyAddsNoMarker(l: string, old_: string, r: string, body: string, m: string)
    requires '\n' !in m && m != "" && !Occurs(body, m)
    ensures AtMostOnce(l + old_ + r, m) ==> AtMostOnce(l + "\n" + (body + "\n" + r), m)
    ensures !Occurs(l + old_ + r, m) ==> !Occurs(l + "\n" + (body + "\n" + r), m)
  {
    var t, t' := l + old_ + r, l + "\n" + (body + "\n" + r);
    forall i: nat | At(t', m, i)
      ensures Before(l, old_, body, m, i) >= 0 && At(t, m, Before(l, old_, body, m, i))
      ensures i + |m| <= |l| || i >= |l| + |body| + 2
    {
      OccurrenceComesFromBefore(l, old_, r, body, m, i);
    }
    if AtMostOnce(t, m) {
      forall i: nat, j: nat | At(t', m, i) && At(t', m, j)
        ensures i == j
      {
        assert Before(l, old_, body, m, i) == Before(l, old_, body, m, j);
      }
    }
  }

  function Fill(z: Zone, body: string): Piece {
    Generated(z, "\n" + body + "\n")
  }

  lemma Regroup(l: string, b: string, body: string, e: string, r: string)
    ensures l + (b + ("\n" + body + "\n") + e) + r == l + b + "\n" + body + "\n" + (e + r)
    ensures l + (b + ("\n" + body + "\n") + e) + r == (l + b) + "\n" + (body + "\n" + (e + r))
  {}

  lemma RegroupOld(l: string, b: string, old_: string, e: string, r: string)
    ensures l + (b + old_ + e) + r == (l + b) + old_ + (e + r)
  {}

  /** Filling a zone with a clean body keeps the hub well formed. */
  lemma FillKeepsWellFormed(mk: Markers, doc: seq<Piece>, k: nat, body: string)
    requires WellFormed(mk, doc) && k < |doc| && doc[k].Generated? && Clean(mk, body)
    ensures WellFormed(mk, doc[k := Fill(doc[k].zone, body)])
  {
    var z, old_ := doc[k].zone, doc[k].body;
    var l, r := Flat(mk, doc[..k]), Flat(mk, doc[k + 1..]);
    var doc' := doc[k := Fill(z, body)];
    FlatSplit(mk, doc, k);
    FlatUpdate(mk, doc, k, Fill(z, body));
    RegroupOld(l, mk.begin(z), old_, mk.end(z), r);
    Regroup(l, mk.begin(z), body, mk.end(z), r);
    forall m | IsMarker(mk, m)
      ensures AtMostOnce(Flat(mk, doc), m) ==> AtMostOnce(Flat(mk, doc'), m)
      ensures !Occurs(Flat(mk, doc), m) ==> !Occurs(Flat(mk, doc'), m)
    {
      MarkersAreFramed(mk, m);
      NewBodyAddsNoMarker(l + mk.begin(z), old_, mk.end(z) + r, body, m);
    }
    forall y | !Has(doc', y)
      ensures !Has(doc, y)
    {
      forall i | 0 <= i < |doc| && doc[i].Generated?
        ensures doc[i].zone != y
      {
        assert doc'[i].Generated?;
      }
    }
  }

  /** The code on one zone of a well-formed hub. */
  lemma ReplaceFills(mk: Markers, doc: seq<Piece>, k: nat, body: string)
    requires WellFormed(mk, doc) && k < |doc| && doc[k].Generated?
    ensures ReplaceZone(mk, Flat(mk, doc), doc[k].zone, body) == Ok(Flat(mk, doc[k := Fill(doc[k].zone, body)]))
  {
    var z, l, r := doc[k].zone, Flat(mk, doc[..k]), Flat(mk, doc[k + 1..]);
    FlatSplit(mk, doc, k);
    FlatUpdate(mk, doc, k, Fill(z, body));
    assert IsMarker(mk, mk.begin(z)) && IsMarker(mk, mk.end(z));
    ReplaceSingle(l, mk.begin(z), doc[k].body, mk.end(z), r, body);
    Regroup(l, mk.begin(z), body, mk.end(z), r);
  }

  /** A zone has one place in a well-formed hub. */
  lemma ZoneIsUnique(mk: Markers, doc: seq<Piece>, j: nat, k: nat)
    requires WellFormed(mk, doc) && j < |doc| && k < |doc|
    requires doc[j].Generated? && doc[k].Generated? && doc[j].zone == doc[k].zone
    ensures j == k
  {
    var b := mk.begin(doc[j].zone);
    BeginStands(mk, doc, j);
    BeginStands(mk, doc, k);
    assert IsMarker(mk, b);
    if j < k {
      FlatGrows(mk, doc, j, k);
    } else if k < j {
      FlatGrows(mk, doc, k, j);
    }
  }

  lemma BeginStands(mk: Markers, doc: seq<Piece>, k: nat)
    requires k < |doc| && doc[k].Generated?
    ensures At(Flat(mk, doc), mk.begin(doc[k].zone), |Flat(mk, doc[..k])|)
    ensures At(Flat(mk, doc), mk.end(doc[k].zone), |Flat(mk, doc[..k])| + |mk.begin(doc[k].zone)| + |doc[k].body|)
  {
    FlatSplit(mk, doc, k);
    var z := doc[k].zone;
    MarkersStand(Flat(mk, doc[..k]), mk.begin(z), doc[k].body, mk.end(z), Flat(mk, doc[k + 1..]));
  }

  lemma FlatGrows(mk: Markers, doc: seq<Piece>, j: nat, k: nat)
    requires j < k < |doc| && doc[j].Generated?
    ensures |Flat(mk, doc[..j])| < |Flat(mk, doc[..k])|
  {
    FlatSplit(mk, doc[..k], j);
    assert doc[..k][..j] == doc[..j];
    
  }

  // ---------- All zones ----------

  /** Every zone in `zones` gets its new body at once; everything else stays. */
  function Substitute(doc: seq<Piece>, zones: seq<Zone>, bodies: Zone -> string): (r: seq<Piece>)
    ensures |r| == |doc|
  {
    seq(|doc|, i requires 0 <= i < |doc| =>
      if doc[i].Generated? && doc[i].zone in zones then Fill(doc[i].zone, bodies(doc[i].zone)) else doc[i])
  }

  ghost predicate Renderable(doc: seq<Piece>, order: seq<Zone>) {
    forall z | z in order :: Has(doc, z) || IsOptional(z)
  }

  ghost predicate CleanBodies(mk: Markers, order: seq<Zone>, bodies: Zone -> string) {
    forall z | z in order :: Clean(mk, bodies(z))
  }

  lemma AbsentZone(mk: Markers, doc: seq<Piece>, z: Zone)
    ensures WellFormed(mk, doc) && !Has(doc, z) ==>
      Find(Flat(mk, doc), mk.begin(z), 0).None? && Find(Flat(mk, doc), mk.end(z), 0).None?
  {}

  lemma PresentZone(mk: Markers, doc: seq<Piece>, z: Zone) returns (k: nat)
    requires WellFormed(mk, doc) && Has(doc, z)
    ensures k < |doc| && doc[k].Generated? && doc[k].zone == z
    ensures Find(Flat(mk, doc), mk.begin(z), 0).Some?
    ensures forall j | 0 <= j < |doc| && doc[j].Generated? && doc[j].zone == z :: j == k
  {
    k :| 0 <= k < |doc| && doc[k].Generated? && doc[k].zone == z;
    BeginStands(mk, doc, k);
    forall j | 0 <= j < |doc| && doc[j].Generated? && doc[j].zone == z
      ensures j == k
    {
      ZoneIsUnique(mk, doc, j, k);
    }
  }

  lemma SubstituteOneThenRest(doc: seq<Piece>, k: nat, order: seq<Zone>, bodies: Zone -> string)
    requires k < |doc| && order != [] && doc[k].Generated? && doc[k].zone == order[0]
    requires forall j | 0 <= j < |doc| && doc[j].Generated? && doc[j].zone == order[0] :: j == k
    ensures Substitute(doc[k := Fill(order[0], bodies(order[0]))], order[1..], bodies) == Substitute(doc, order, bodies)
  {
    assert order == [order[0]] + order[1..];
  }

  lemma SubstituteSkips(doc: seq<Piece>, order: seq<Zone>, bodies: Zone -> string)
    requires order != [] && !Has(doc, order[0])
    ensures Substitute(doc, order[1..], bodies) == Substitute(doc, order, bodies)
  {
    assert order == [order[0]] + order[1..];
  }

  predicate SameKind(p: Piece, q: Piece) {
    p.Generated? == q.Generated? && (p.Generated? ==> p.zone == q.zone)
  }

  lemma HasAfterFill(doc: seq<Piece>, k: nat, body: string, z: Zone)
    requires k < |doc| && doc[k].Generated?
    ensures Has(doc[k := Fill(doc[k].zone, body)], z) <==> Has(doc, z)
  {
    var doc' := doc[k := Fill(doc[k].zone, body)];
    assert forall i | 0 <= i < |doc| :: SameKind(doc'[i], doc[i]);
  }

  /** Main result: on a well-formed hub with marker-free bodies, rendering the zones one after the other, in any
      order, is substituting all of them at once, and the result is again well formed; it is refused exactly when
      a mandatory zone is missing. */
  lemma {:induction false} RenderIsSubstitution(mk: Markers, doc: seq<Piece>, order: seq<Zone>, bodies: Zone -> string)
    requires WellFormed(mk, doc) && CleanBodies(mk, order, bodies)
    ensures RenderAll(mk, Flat(mk, doc), order, bodies).Ok? <==> Renderable(doc, order)
    ensures Renderable(doc, order) ==>
      RenderAll(mk, Flat(mk, doc), order, bodies) == Ok(Flat(mk, Substitute(doc, order, bodies)))
    ensures WellFormed(mk, Substitute(doc, order, bodies))
    decreases |order|
  {
    if order == [] {
      assert Substitute(doc, order, bodies) == doc;
    } else {
      var z := order[0];
      if Has(doc, z) {
        var k := PresentZone(mk, doc, z);
        var doc' := doc[k := Fill(z, bodies(z))];
        ReplaceFills(mk, doc, k, bodies(z));
        FillKeepsWellFormed(mk, doc, k, bodies(z));
        RenderIsSubstitution(mk, doc', order[1..], bodies);
        SubstituteOneThenRest(doc, k, order, bodies);
        RenderableAfterFill(doc, k, bodies(z), order);
      } else {
        AbsentZone(mk, doc, z);
        RenderIsSubstitution(mk, doc, order[1..], bodies);
        SubstituteSkips(doc, order, bodies);
      }
    }
  }

  lemma RenderableAfterFill(doc: seq<Piece>, k: nat, body: string, order: seq<Zone>)
    requires k < |doc| && doc[k].Generated? && order != [] && doc[k].zone == order[0]
    ensures Renderable(doc[k := Fill(doc[k].zone, body)], order[1..]) <==> Renderable(doc, order)
  {
    forall z
      ensures Has(doc[k := Fill(doc[k].zone, body)], z) <==> Has(doc, z)
    {
      HasAfterFill(doc, k, body, z);
    }
    assert Has(doc, order[0]);
    assert order == [order[0]] + order[1..];
  }

  /** The order of the zones does not matter. */
  lemma OrderDoesNotMatter(mk: Markers, doc: seq<Piece>, order: seq<Zone>, order': seq<Zone>, bodies: Zone -> string)
    requires WellFormed(mk, doc) && CleanBodies(mk, order, bodies)
    requires forall z :: z in order <==> z in order'
    ensures RenderAll(mk, Flat(mk, doc), order, bodies).Ok? <==> RenderAll(mk, Flat(mk, doc), order', bodies).Ok?
    ensures RenderAll(mk, Flat(mk, doc), order, bodies).Ok? ==>
      RenderAll(mk, Flat(mk, doc), order, bodies) == RenderAll(mk, Flat(mk, doc), order', bodies)
  {
    RenderIsSubstitution(mk, doc, order, bodies);
    RenderIsSubstitution(mk, doc, order', bodies);
    assert Substitute(doc, order, bodies) == Substitute(doc, order', bodies);
  }

  /** Everything but the zones' bodies. */
  function Outside(doc: seq<Piece>): seq<Piece> {
    seq(|doc|, i requires 0 <= i < |doc| => if doc[i].Generated? then Generated(doc[i].zone, "") else doc[i])
  }

  lemma SubstituteTwice(doc: seq<Piece>, order: seq<Zone>, bodies: Zone -> string)
    ensures Substitute(Substitute(doc, order, bodies), order, bodies) == Substitute(doc, order, bodies)
    ensures Outside(Substitute(doc, order, bodies)) == Outside(doc)
  {}

  lemma SubstituteKeepsZones(doc: seq<Piece>, order: seq<Zone>, bodies: Zone -> string, z: Zone)
    ensures Has(Substitute(doc, order, bodies), z) <==> Has(doc, z)
  {
    var doc' := Substitute(doc, order, bodies);
    assert forall i | 0 <= i < |doc| :: SameKind(doc'[i], doc[i]);
  }

  /** Rendering twice is rendering once, and leaves every byte outside the zones alone: the result differs from
      the hub in the zones' bodies only. */
  lemma RenderIsIdempotent(mk: Markers, doc: seq<Piece>, order: seq<Zone>, bodies: Zone -> string)
      returns (doc': seq<Piece>)
    requires WellFormed(mk, doc) && CleanBodies(mk, order, bodies) && Renderable(doc, order)
    ensures WellFormed(mk, doc') && Outside(doc') == Outside(doc)
    ensures RenderAll(mk, Flat(mk, doc), order, bodies) == Ok(Flat(mk, doc'))
        == RenderAll(mk, Flat(mk, doc'), order, bodies)
  {
    doc' := Substitute(doc, order, bodies);
    RenderIsSubstitution(mk, doc, order, bodies);
    SubstituteTwice(doc, order, bodies);
    forall z
      ensures Has(doc', z) <==> Has(doc, z)
    {
      SubstituteKeepsZones(doc, order, bodies, z);
    }
    RenderIsSubstitution(mk, doc', order, bodies);
  }
}
