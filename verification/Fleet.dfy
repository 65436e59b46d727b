/** The fleet tracker. */
module Fleet {
  import opened Optional

  // Per-slug state and history (update in bin/_fleet/engine.py), the roster, and the terminal transition
  // (bin/_fleet/close.py).

  // ---------- Data ----------

  datatype Status = Ready | Wip | Done | Blocked | Parked | Closed | Invalid(text: string)

  datatype SlugState = SlugState(
    stage: Option<string>, status: Option<Status>, next: Option<string>, blockers: Option<string>,
    piece: Option<string>, wave: Option<int>, actor: Option<string>, directive: Option<string>, updated: string)

  datatype Event = Event(ts: string, stage: Option<string>, status: Option<Status>, actor: string, note: string)

  /** A slug's directory: its state file, if any, and its log. */
  datatype Dir = Dir(state: Option<SlugState>, log: seq<Event>)

  datatype RosterEntry = RosterEntry(piece: Option<string>, wave: Option<int>)

  datatype ClosedEntry = ClosedEntry(slug: string, piece: string, closed: string, note: string, wave: Option<int>)

  datatype Wave = Wave(id: Option<int>, title: string)

  datatype Meta = Meta(waves: seq<Wave>, roster: map<string, RosterEntry>, closed: seq<ClosedEntry>)

  /** Everything on disk: live directories, archived ones, and the cross-slug file. */
  datatype FleetState = FleetState(meta: Meta, live: map<string, Dir>, archive: map<string, Dir>)

  // ---------- update ----------

  /** The fields given on the command line. */
  datatype Patch = Patch(
    stage: Option<string>, status: Option<Status>, next: Option<string>, blockers: Option<string>,
    piece: Option<string>, wave: Option<int>, actor: Option<string>, directive: Option<string>)

  const NO_STATE := SlugState(None, None, None, None, None, None, None, None, "")

  function Or<T>(given: Option<T>, old_: Option<T>): Option<T> {
    if given.Some? then given else old_
  }

  function DirOf(live: map<string, Dir>, slug: string): Dir {
    if slug in live then live[slug] else Dir(None, [])
  }

  function Merged(s: Option<SlugState>, p: Patch, ts: string): SlugState {
    var b := if s.Some? then s.value else NO_STATE;
    SlugState(Or(p.stage, b.stage), Or(p.status, b.status), Or(p.next, b.next), Or(p.blockers, b.blockers),
              Or(p.piece, b.piece), Or(p.wave, b.wave), Or(p.actor, b.actor), Or(p.directive, b.directive), ts)
  }

  predicate Valid(s: SlugState) {
    s.status.Some? && !s.status.value.Invalid?
  }

  const MAX_NOTE_CHARS := 1000

  /** Long notes are cut so that the log line stays one atomic write. */
  function Clamped(note: string): (r: string)
    ensures |r| <= MAX_NOTE_CHARS
    ensures |note| <= MAX_NOTE_CHARS ==> r == note
  {
    if |note| > MAX_NOTE_CHARS then note[..MAX_NOTE_CHARS - 1] + "\U{2026}" else note
  }

  function Logged(d: Dir, s: SlugState, actor: Option<string>, note: string, ts: string): Dir {
    Dir(Some(s), d.log + [Event(ts, s.stage, s.status, NoteOr(if actor.Some? then actor.value else "", "unknown"),
                                Clamped(note))])
  }

  /** None: the merged status is not in the vocabulary. */
  function Updated(live: map<string, Dir>, slug: string, p: Patch, note: string, ts: string): Option<map<string, Dir>> {
    var s := Merged(DirOf(live, slug).state, p, ts);
    if Valid(s) then Some(live[slug := Logged(DirOf(live, slug), s, p.actor, note, ts)]) else None
  }

  // ---------- close ----------

  datatype Successor = Successor(slug: string, piece: string, wave: Option<int>, next: string, directive: Option<string>)

  datatype Options = Options(note: string, noArchive: bool, successor: Option<Successor>)

  datatype Refusal = AlreadyArchived | UnknownSlug | IncompleteSuccessor | SuccessorExists

  function Refused(f: FleetState, slug: string, o: Options): Option<Refusal> {
    if slug in f.archive then Some(AlreadyArchived)
    else if DirOf(f.live, slug).state.None? && slug !in f.meta.roster && slug !in f.live then Some(UnknownSlug)
    else if o.successor.None? then None
    else
      var n := o.successor.value;
      if n.piece == "" || n.wave.None? || n.next == "" then Some(IncompleteSuccessor)
      else if n.slug in f.live || n.slug in f.archive || n.slug in f.meta.roster then Some(SuccessorExists)
      else None
  }

  function Day(ts: string): string {
    if |ts| > 10 then ts[..10] else ts
  }

  function NoteOr(note: string, default_: string): string {
    if note == "" then default_ else note
  }

  const CLOSING := Patch(None, Some(Closed), Some("\U{2014}"), None, None, None, Some("fleet-close"), None)

  predicate IsClosed(d: Dir) {
    d.state.Some? && d.state.value.status == Some(Closed)
  }

  /** The final event and state flip, unless the slug has no directory or is closed already. */
  function Flipped(live: map<string, Dir>, slug: string, note: string, ts: string): map<string, Dir> {
    if slug !in live || IsClosed(live[slug]) then live
    else
      var d := live[slug];
      live[slug := Logged(d, Merged(d.state, CLOSING, ts), CLOSING.actor, NoteOr(note, "closed " + Day(ts)), ts)]
  }

  predicate Lists(closed: seq<ClosedEntry>, slug: string) {
    exists i :: 0 <= i < |closed| && closed[i].slug == slug
  }

  function EntryFor(f: FleetState, slug: string, note: string, ts: string): ClosedEntry {
    var r := if slug in f.meta.roster then f.meta.roster[slug] else RosterEntry(None, None);
    var s := DirOf(f.live, slug).state;
    var statePiece := if s.Some? && s.value.piece.Some? then s.value.piece.value else "";
    ClosedEntry(slug, if r.piece.Some? then r.piece.value else statePiece, Day(ts),
                NoteOr(note, "\U{2192} _closed/ (" + Day(ts) + ")"), r.wave)
  }

  function Reconciled(f: FleetState, slug: string, o: Options, ts: string): Meta {
    var roster := f.meta.roster - {slug};
    f.meta.(
      roster := if o.successor.Some?
                then roster[o.successor.value.slug := RosterEntry(Some(o.successor.value.piece),
                    o.successor.value.wave)]
                else roster,
      closed := if Lists(f.meta.closed, slug) then f.meta.closed
                else f.meta.closed + [EntryFor(f, slug, o.note, ts)])
  }

  function Minted(live: map<string, Dir>, slug: string, n: Successor, ts: string): map<string, Dir> {
    var p := Patch(Some("seed"), Some(Ready), Some(n.next), None, Some(n.piece), n.wave, Some("fleet-close"),
        n.directive);
    live[n.slug := Logged(Dir(None, []), Merged(None, p, ts), p.actor, "minted as successor of " + slug, ts)]
  }

  /** A close that is not refused. */
  function ClosedFleet(f: FleetState, slug: string, o: Options, ts: string): FleetState {
    var flipped := Flipped(f.live, slug, o.note, ts);
    var archiving := slug in flipped && !o.noArchive;
    var kept := if archiving then flipped - {slug} else flipped;
    FleetState(Reconciled(f, slug, o, ts),
               if o.successor.Some? then Minted(kept, slug, o.successor.value, ts) else kept,
               if archiving then f.archive[slug := flipped[slug]] else f.archive)
  }

  // ---------- The commands ----------

  class Tracker {
    var meta: Meta
    var live: map<string, Dir>
    var archive: map<string, Dir>

    function Value(): FleetState
      reads this
    {
      FleetState(meta, live, archive)
    }

    constructor (waves: seq<Wave>)
      ensures Value() == FleetState(Meta(waves, map[], []), map[], map[])
    {
      meta, live, archive := Meta(waves, map[], []), map[], map[];
    }

    /** One state write and one event, or a refusal that changes nothing. */
    method Update(slug: string, p: Patch, note: string, ts: string) returns (ok: bool)
      modifies this`live
      ensures ok == Updated(old(live), slug, p, note, ts).Some?
      ensures live == if ok then Updated(old(live), slug, p, note, ts).value else old(live)
    {
      var d := DirOf(live, slug);
      var s := Merged(d.state, p, ts);
      if !Valid(s) {
        return false;
      }
      live := live[slug := d.(state := Some(s))];
      live := live[slug := Logged(live[slug], s, p.actor, note, ts)];
      ok := true;
    }

    /** Every refusal comes before the first write. */
    method Close(slug: string, o: Options, ts: string) returns (r: Option<Refusal>)
      modifies this
      ensures r == Refused(old(Value()), slug, o)
      ensures Value() == if r.Some? then old(Value()) else ClosedFleet(old(Value()), slug, o, ts)
    {
      if slug in archive {
        return Some(AlreadyArchived);
      }
      if DirOf(live, slug).state.None? && slug !in meta.roster && slug !in live {
        return Some(UnknownSlug);
      }
      if o.successor.Some? {
        var n := o.successor.value;
        if n.piece == "" || n.wave.None? || n.next == "" {
          return Some(IncompleteSuccessor);
        }
        if n.slug in live || n.slug in archive || n.slug in meta.roster {
          return Some(SuccessorExists);
        }
      }
      ghost var before := Value();
      var entry := EntryFor(Value(), slug, o.note, ts);
      if slug in live && !IsClosed(live[slug]) {
        var ok := Update(slug, CLOSING, NoteOr(o.note, "closed " + Day(ts)), ts);
      }
      assert live == Flipped(before.live, slug, o.note, ts);
      var roster, closed := meta.roster - {slug}, meta.closed;
      if !Lists(closed, slug) {
        closed := closed + [entry];
      }
      if o.successor.Some? {
        roster := roster[o.successor.value.slug := RosterEntry(Some(o.successor.value.piece), o.successor.value.wave)];
      }
      meta := meta.(roster := roster, closed := closed);
      if slug in live && !o.noArchive {
        archive := archive[slug := live[slug]];
        live := live - {slug};
      }
      if o.successor.Some? {
        var n := o.successor.value;
        var p := Patch(Some("seed"), Some(Ready), Some(n.next), None, Some(n.piece), n.wave, Some("fleet-close"),
                       n.directive);
        var ok := Update(n.slug, p, "minted as successor of " + slug, ts);
      }
      r := None;
    }
  }

  // ---------- Two halves make one close ----------

  /** Main result: `close --no-archive` followed by `close` (with any note, at any later time) reaches exactly the
      state of one `close`: either the second call archives what the first left, or it is refused because the
      slug never had a directory, and then the first call had already reached that state. */
  lemma TwoHalvesMakeOneClose(f: FleetState, slug: string, o: Options, ts: string, note': string, ts': string)
    requires Refused(f, slug, o).None? && !o.noArchive
    ensures var half := ClosedFleet(f, slug, o.(noArchive := true), ts);
      var again := Options(note', false, None);
      && Refused(f, slug, o.(noArchive := true)).None?
      && (if Refused(half, slug, again).None? then ClosedFleet(half, slug, again, ts')
          else half) == ClosedFleet(f, slug, o, ts)
  {
    var half := ClosedFleet(f, slug, o.(noArchive := true), ts);
    var again := Options(note', false, None);
    var flipped := Flipped(f.live, slug, o.note, ts);
    assert Lists(half.meta.closed, slug) by {
      HalfCloseLists(f, slug, o.(noArchive := true), ts);
    }
    if slug in f.live {
      assert IsClosed(flipped[slug]) && half.live[slug] == flipped[slug];
      assert ClosedFleet(half, slug, again, ts').archive == ClosedFleet(f, slug, o, ts).archive;
      assert half.meta.roster - {slug} == half.meta.roster;
      LiveAgrees(flipped, slug, o, ts);
    } else {
      assert flipped == f.live;
      assert flipped - {slug} == flipped;
    }
  }

  lemma HalfCloseLists(f: FleetState, slug: string, o: Options, ts: string)
    ensures Lists(Reconciled(f, slug, o, ts).closed, slug)
  {
    var closed := f.meta.closed + [EntryFor(f, slug, o.note, ts)];
    assert closed[|f.meta.closed|].slug == slug;
  }

  lemma LiveAgrees(flipped: map<string, Dir>, slug: string, o: Options, ts: string)
    requires o.successor.Some? ==> o.successor.value.slug != slug
    ensures o.successor.Some? ==>
      Minted(flipped, slug, o.successor.value, ts) - {slug} == Minted(flipped - {slug}, slug, o.successor.value, ts)
  {}
}
