/** Runs of the fleet, and its board. */
module FleetBoard {
  import opened Optional
  import opened Fleet

  // What the fleet keeps over whole runs, and render_board of bin/_fleet/engine.py.

  // ---------- Runs ----------

  datatype Command =
    | DoUpdate(slug: string, patch: Patch, note: string, ts: string)
    | DoClose(slug: string, options: Options, ts: string)

  /** A command that is refused changes nothing. */
  function Apply(f: FleetState, c: Command): FleetState {
    match c
    case DoUpdate(slug, p, note, ts) =>
      var u := Updated(f.live, slug, p, note, ts);
      if u.Some? then f.(live := u.value) else f
    case DoClose(slug, o, ts) => if Refused(f, slug, o).Some? then f else ClosedFleet(f, slug, o, ts)
  }

  function ApplyAll(f: FleetState, cs: seq<Command>): FleetState {
    if cs == [] then f else Apply(ApplyAll(f, cs[..|cs| - 1]), cs[|cs| - 1])
  }

  ghost predicate DistinctClosed(closed: seq<ClosedEntry>) {
    forall i, j | 0 <= i < j < |closed| :: closed[i].slug != closed[j].slug
  }

  lemma ApplyKeepsDistinct(f: FleetState, c: Command)
    ensures DistinctClosed(f.meta.closed) ==> DistinctClosed(Apply(f, c).meta.closed)
  {}

  lemma {:induction false} RunKeepsDistinct(f: FleetState, cs: seq<Command>)
    requires DistinctClosed(f.meta.closed)
    ensures DistinctClosed(ApplyAll(f, cs).meta.closed)
  {
    if cs != [] {
      RunKeepsDistinct(f, cs[..|cs| - 1]);
      ApplyKeepsDistinct(ApplyAll(f, cs[..|cs| - 1]), cs[|cs| - 1]);
    }
  }

  // ---------- History ----------

  /** The history of a slug: its archived log if it has one, and its live log. */
  ghost predicate Keeps(before: FleetState, after: FleetState) {
    && (forall s | s in before.archive :: s in after.archive && after.archive[s] == before.archive[s])
    && (forall s | s in before.live :: Continued(before.live[s].log, s, after))
  }

  /** The log lives on, possibly extended, in the live directory or the archived one. */
  ghost predicate Continued(log: seq<Event>, slug: string, f: FleetState) {
    || (slug in f.live && log <= f.live[slug].log)
    || (slug in f.archive && log <= f.archive[slug].log)
  }

  lemma LogGrows(d: Dir, s: SlugState, actor: Option<string>, note: string, ts: string)
    ensures d.log <= Logged(d, s, actor, note, ts).log
  {}

  lemma FlipKeepsLogs(live: map<string, Dir>, slug: string, note: string, ts: string)
    ensures Flipped(live, slug, note, ts).Keys == live.Keys
    ensures forall s | s in live :: live[s].log <= Flipped(live, slug, note, ts)[s].log
  {}

  lemma CloseKeepsHistory(f: FleetState, slug: string, o: Options, ts: string)
    requires Refused(f, slug, o).None?
    ensures Keeps(f, ClosedFleet(f, slug, o, ts))
  {
    hide Flipped, Reconciled, Logged, Merged;
    FlipKeepsLogs(f.live, slug, o.note, ts);
    var flipped, g := Flipped(f.live, slug, o.note, ts), ClosedFleet(f, slug, o, ts);
    forall s | s in f.live
      ensures Continued(f.live[s].log, s, g)
    {
      if s == slug && !o.noArchive {
        assert g.archive[s] == flipped[s];
      } else {
        assert g.live[s] == flipped[s];
      }
    }
  }

  lemma ApplyKeepsHistory(f: FleetState, c: Command)
    ensures Keeps(f, Apply(f, c))
  {
    match c
    case DoUpdate(slug, p, note, ts) =>
      LogGrows(DirOf(f.live, slug), Merged(DirOf(f.live, slug).state, p, ts), p.actor, note, ts);
    case DoClose(slug, o, ts) =>
      if Refused(f, slug, o).None? {
        CloseKeepsHistory(f, slug, o, ts);
      }
  }

  lemma KeepsTransitive(a: FleetState, b: FleetState, c: FleetState)
    requires Keeps(a, b) && Keeps(b, c)
    ensures Keeps(a, c)
  {
    forall s | s in a.live
      ensures Continued(a.live[s].log, s, c)
    {
      assert Continued(a.live[s].log, s, b);
      if s in b.live && a.live[s].log <= b.live[s].log {
        assert Continued(b.live[s].log, s, c);
      }
    }
  }

  /** Main result: over any run no event is ever lost, and an archived directory never changes again. */
  lemma {:induction false} RunKeepsHistory(f: FleetState, cs: seq<Command>)
    ensures Keeps(f, ApplyAll(f, cs))
  {
    if cs != [] {
      var mid := ApplyAll(f, cs[..|cs| - 1]);
      RunKeepsHistory(f, cs[..|cs| - 1]);
      ApplyKeepsHistory(mid, cs[|cs| - 1]);
      KeepsTransitive(f, mid, ApplyAll(f, cs));
    }
  }

  // ---------- The board ----------

  /** load_all_states: live directories with a state file. */
  predicate HasState(f: FleetState, slug: string) {
    slug in f.live && f.live[slug].state.Some?
  }

  datatype BoardRow = LiveRow(slug: string) | ClosedRow(slug: string)

  /** Every slug with a state, once, in some order. */
  ghost predicate ListsStates(f: FleetState, order: seq<string>) {
    && (forall s :: s in order <==> HasState(f, s))
    && (forall i, j | 0 <= i < j < |order| :: order[i] != order[j])
  }

  function LiveRows(order: seq<string>): (rows: seq<BoardRow>)
    ensures |rows| == |order| && forall i | 0 <= i < |order| :: rows[i] == LiveRow(order[i])
  {
    seq(|order|, i requires 0 <= i < |order| => LiveRow(order[i]))
  }

  /** Closed entries whose slug has no live state. */
  function ClosedRows(f: FleetState, closed: seq<ClosedEntry>): seq<BoardRow> {
    if closed == [] then []
    else
      var rest := ClosedRows(f, closed[..|closed| - 1]);
      var slug := closed[|closed| - 1].slug;
      if HasState(f, slug) then rest else rest + [ClosedRow(slug)]
  }

  method RenderBoard(f: FleetState, order: seq<string>) returns (rows: seq<BoardRow>)
    ensures rows == LiveRows(order) + ClosedRows(f, f.meta.closed)
  {
    rows := [];
    for i := 0 to |order|
      invariant rows == LiveRows(order)[..i]
    {
      rows := rows + [LiveRow(order[i])];
    }
    ghost var live := rows;
    assert live == LiveRows(order);
    var closed := f.meta.closed;
    for i := 0 to |closed|
      invariant rows == live + ClosedRows(f, closed[..i])
    {
      assert closed[..i + 1][..i] == closed[..i];
      if !HasState(f, closed[i].slug) {
        rows := rows + [ClosedRow(closed[i].slug)];
      }
    }
    assert closed[..|closed|] == closed;
  }

  function RowsFor(rows: seq<BoardRow>, slug: string): nat {
    if rows == [] then 0
    else RowsFor(rows[..|rows| - 1], slug) + (if rows[|rows| - 1].slug == slug then 1 else 0)
  }

  lemma {:induction false} RowsForConcat(a: seq<BoardRow>, b: seq<BoardRow>, slug: string)
    ensures RowsFor(a + b, slug) == RowsFor(a, slug) + RowsFor(b, slug)
    decreases |b|
  {
    if b == [] {
      assert a + b == a;
    } else {
      assert (a + b)[..|a + b| - 1] == a + b[..|b| - 1];
      RowsForConcat(a, b[..|b| - 1], slug);
    }
  }

  lemma {:induction false} LiveRowsFor(order: seq<string>, slug: string)
    requires forall i, j | 0 <= i < j < |order| :: order[i] != order[j]
    ensures RowsFor(LiveRows(order), slug) == if slug in order then 1 else 0
  {
    if order != [] {
      var n := |order| - 1;
      LiveRowsFor(order[..n], slug);
      assert LiveRows(order)[..n] == LiveRows(order[..n]);
      assert order == order[..n] + [order[n]];
    }
  }

  lemma {:induction false} ClosedRowsFor(f: FleetState, closed: seq<ClosedEntry>, slug: string)
    requires DistinctClosed(closed)
    ensures RowsFor(ClosedRows(f, closed), slug) == if Lists(closed, slug) && !HasState(f, slug) then 1 else 0
  {
    if closed != [] {
      var n := |closed| - 1;
      ClosedRowsFor(f, closed[..n], slug);
      ListsSplits(closed, slug);
      var rest := ClosedRows(f, closed[..n]);
      assert (rest + [ClosedRow(closed[n].slug)])[..|rest|] == rest;
    }
  }

  lemma ListsSplits(closed: seq<ClosedEntry>, slug: string)
    requires closed != []
    ensures Lists(closed, slug) <==> Lists(closed[..|closed| - 1], slug) || closed[|closed| - 1].slug == slug
  {
    var n := |closed| - 1;
    if i :| 0 <= i < |closed| && closed[i].slug == slug {
      assert i < n ==> closed[..n][i].slug == slug;
    }
    if i :| 0 <= i < n && closed[..n][i].slug == slug {
      assert closed[i].slug == slug;
    }
  }

  lemma LiveKind(order: seq<string>, slug: string)
    ensures LiveRow(slug) in LiveRows(order) <==> slug in order
    ensures ClosedRow(slug) !in LiveRows(order)
  {
    if i :| 0 <= i < |order| && order[i] == slug {
      assert LiveRows(order)[i] == LiveRow(slug);
    }
  }

  lemma {:induction false} KindOfRow(f: FleetState, closed: seq<ClosedEntry>, slug: string)
    ensures ClosedRow(slug) in ClosedRows(f, closed) <==> Lists(closed, slug) && !HasState(f, slug)
    ensures LiveRow(slug) !in ClosedRows(f, closed)
  {
    if closed != [] {
      KindOfRow(f, closed[..|closed| - 1], slug);
      ListsSplits(closed, slug);
    }
  }

  /** Main result: over any run of updates, closes and successor mints from a closed list without duplicates,
      every slug with a state or a closed entry has exactly one board row, a live one exactly if it has a state, and
      nothing else has any. */
  lemma OneRowPerSlug(f: FleetState, cs: seq<Command>, order: seq<string>, slug: string)
    requires DistinctClosed(f.meta.closed) && ListsStates(ApplyAll(f, cs), order)
    ensures var g := ApplyAll(f, cs);
      var rows := LiveRows(order) + ClosedRows(g, g.meta.closed);
      && RowsFor(rows, slug) == (if HasState(g, slug) || Lists(g.meta.closed, slug) then 1 else 0)
      && (LiveRow(slug) in rows <==> HasState(g, slug))
      && (ClosedRow(slug) in rows <==> Lists(g.meta.closed, slug) && !HasState(g, slug))
  {
    var g := ApplyAll(f, cs);
    KindOfRow(g, g.meta.closed, slug);
    LiveKind(order, slug);
    RunKeepsDistinct(f, cs);
    RowsForConcat(LiveRows(order), ClosedRows(g, g.meta.closed), slug);
    LiveRowsFor(order, slug);
    ClosedRowsFor(g, g.meta.closed, slug);
  }

  // ---------- A closed slug ----------

  /** After a full close the slug is out of the roster and the live tree, in the closed list, and archived with its
      whole history if it had a directory; closing it once more is refused. */
  lemma CloseIsTerminal(f: FleetState, slug: string, o: Options, ts: string)
    requires Refused(f, slug, o).None? && !o.noArchive
    ensures var g := ClosedFleet(f, slug, o, ts);
      && slug !in g.meta.roster && slug !in g.live && Lists(g.meta.closed, slug)
      && (slug in f.live ==> slug in g.archive && IsClosed(g.archive[slug]) && f.live[slug].log <= g.archive[slug].log)
      && (forall o' :: Refused(g, slug, o') == Some(if slug in f.live then AlreadyArchived else UnknownSlug))
  {
    HalfCloseLists(f, slug, o, ts);
  }
}
