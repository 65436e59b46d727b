/** Where every field of a slug's state comes from, over whole runs. */
module FleetHistory {
  import opened Optional
  import opened Fleet
  import opened FleetBoard

  // Each field is the one given by the last command that wrote the slug's state and gave that field
  // (bin/_fleet/engine.py, update; bin/_fleet/close.py). Nothing here speaks of how states are merged.

  datatype Field = StageField | StatusField | NextField | BlockersField | PieceField | WaveField | ActorField
                 | DirectiveField | UpdatedField

  datatype Value = Text(text: string) | Is(status: Status) | Number(n: int)

  function TextOf(s: Option<string>): Option<Value> {
    if s.Some? then Some(Text(s.value)) else None
  }

  function StatusOf(s: Option<Status>): Option<Value> {
    if s.Some? then Some(Is(s.value)) else None
  }

  function NumberOf(n: Option<int>): Option<Value> {
    if n.Some? then Some(Number(n.value)) else None
  }

  function FieldOf(s: SlugState, field: Field): Option<Value> {
    match field
    case StageField => TextOf(s.stage)
    case StatusField => StatusOf(s.status)
    case NextField => TextOf(s.next)
    case BlockersField => TextOf(s.blockers)
    case PieceField => TextOf(s.piece)
    case WaveField => NumberOf(s.wave)
    case ActorField => TextOf(s.actor)
    case DirectiveField => TextOf(s.directive)
    case UpdatedField => Some(Text(s.updated))
  }

  /** The field in a directory's state file. */
  function Stored(dirs: map<string, Dir>, slug: string, field: Field): Option<Value> {
    if slug in dirs && dirs[slug].state.Some? then FieldOf(dirs[slug].state.value, field) else None
  }

  // ---------- What a command gives ----------

  /** An update's own options. */
  function GivenByUpdate(p: Patch, ts: string, field: Field): Option<Value> {
    match field
    case StageField => TextOf(p.stage)
    case StatusField => StatusOf(p.status)
    case NextField => TextOf(p.next)
    case BlockersField => TextOf(p.blockers)
    case PieceField => TextOf(p.piece)
    case WaveField => NumberOf(p.wave)
    case ActorField => TextOf(p.actor)
    case DirectiveField => TextOf(p.directive)
    case UpdatedField => Some(Text(ts))
  }

  /** A close gives the slug its final status, a dash for the next action and the actor fleet-close. */
  function GivenByClose(ts: string, field: Field): Option<Value> {
    match field
    case StatusField => Some(Is(Closed))
    case NextField => Some(Text("\U{2014}"))
    case ActorField => Some(Text("fleet-close"))
    case UpdatedField => Some(Text(ts))
    case _ => None
  }

  /** And its successor everything but blockers. */
  function GivenToSuccessor(n: Successor, ts: string, field: Field): Option<Value> {
    match field
    case StageField => Some(Text("seed"))
    case StatusField => Some(Is(Ready))
    case NextField => Some(Text(n.next))
    case BlockersField => None
    case PieceField => Some(Text(n.piece))
    case WaveField => NumberOf(n.wave)
    case ActorField => Some(Text("fleet-close"))
    case DirectiveField => TextOf(n.directive)
    case UpdatedField => Some(Text(ts))
  }

  function Given(c: Command, slug: string, field: Field): Option<Value> {
    match c
    case DoUpdate(_, p, _, ts) => GivenByUpdate(p, ts, field)
    case DoClose(closed, o, ts) =>
      if slug == closed then GivenByClose(ts, field)
      else if o.successor.Some? then GivenToSuccessor(o.successor.value, ts, field)
      else None
  }

  // ---------- Which commands write a slug's state ----------

  /** An update is accepted exactly when the status it leaves is one of the vocabulary. */
  predicate Accepts(f: FleetState, slug: string, p: Patch) {
    var status := if p.status.Some? then StatusOf(p.status) else Stored(f.live, slug, StatusField);
    status.Some? && status.value.Is? && !status.value.status.Invalid?
  }

  predicate Writes(f: FleetState, c: Command, slug: string) {
    match c
    case DoUpdate(target, p, _, _) => slug == target && Accepts(f, slug, p)
    case DoClose(closed, o, _) =>
      Refused(f, closed, o).None?
      && ((slug == closed && slug in f.live && Stored(f.live, slug, StatusField) != Some(Is(Closed)))
          || (o.successor.Some? && slug == o.successor.value.slug))
  }

  /** A full close moves the directory of the slug away. */
  predicate Archives(f: FleetState, c: Command, slug: string) {
    c.DoClose? && c.slug == slug && Refused(f, slug, c.options).None? && slug in f.live && !c.options.noArchive
  }

  // ---------- One command ----------

  lemma MergedFields(s: Option<SlugState>, p: Patch, ts: string, field: Field)
    ensures FieldOf(Merged(s, p, ts), field)
         == var given := GivenByUpdate(p, ts, field);
            if given.Some? then given else if s.Some? then FieldOf(s.value, field) else None
  {}

  lemma UpdateFields(f: FleetState, slug: string, p: Patch, note: string, ts: string, field: Field)
    ensures var u := Updated(f.live, slug, p, note, ts);
      && (u.Some? <==> Accepts(f, slug, p))
      && (u.Some? ==>
            && u.value.Keys == f.live.Keys + {slug}
            && (forall other | other in f.live && other != slug :: u.value[other] == f.live[other])
            && Stored(u.value, slug, field)
            == var given := GivenByUpdate(p, ts, field); if given.Some? then given else Stored(f.live, slug, field))
  {
    MergedFields(DirOf(f.live, slug).state, p, ts, field);
    MergedFields(DirOf(f.live, slug).state, p, ts, StatusField);
  }

  lemma FlipFields(live: map<string, Dir>, slug: string, note: string, ts: string, field: Field)
    requires slug in live && Stored(live, slug, StatusField) != Some(Is(Closed))
    ensures var flipped := Flipped(live, slug, note, ts);
      && flipped.Keys == live.Keys
      && (forall other | other in live && other != slug :: flipped[other] == live[other])
      && Stored(flipped, slug, field)
      == var given := GivenByClose(ts, field); if given.Some? then given else Stored(live, slug, field)
  {
    MergedFields(live[slug].state, CLOSING, ts, field);
  }

  lemma MintFields(live: map<string, Dir>, slug: string, n: Successor, ts: string, field: Field)
    ensures var minted := Minted(live, slug, n, ts);
      && minted.Keys == live.Keys + {n.slug}
      && (forall other | other in live && other != n.slug :: minted[other] == live[other])
      && Stored(minted, n.slug, field) == GivenToSuccessor(n, ts, field)
  {}

  /** The state a directory would have after the command, before it is archived. */
  function Left(f: FleetState, c: Command, slug: string, field: Field): Option<Value> {
    var given := Given(c, slug, field);
    if Writes(f, c, slug) && given.Some? then given else Stored(f.live, slug, field)
  }

  lemma KnownSuccessor(f: FleetState, c: Command)
    requires c.DoClose? && Refused(f, c.slug, c.options).None? && c.options.successor.Some?
    ensures c.options.successor.value.slug != c.slug
    ensures c.options.successor.value.slug !in f.live && c.options.successor.value.slug !in f.archive
  {}

  lemma NoFlip(live: map<string, Dir>, slug: string, note: string, ts: string)
    requires slug in live ==> Stored(live, slug, StatusField) == Some(Is(Closed))
    ensures Flipped(live, slug, note, ts) == live
  {}

  /** The close's own slug and the others, before anything is moved or minted. */
  lemma FlippedFields(live: map<string, Dir>, closed: string, note: string, ts: string, slug: string, field: Field)
    ensures var flipped := Flipped(live, closed, note, ts);
      && flipped.Keys == live.Keys
      && Stored(flipped, slug, field)
      == if slug == closed && slug in live && Stored(live, slug, StatusField) != Some(Is(Closed))
          && GivenByClose(ts, field).Some?
         then GivenByClose(ts, field) else Stored(live, slug, field)
  {
    hide GivenByClose, FieldOf;
    if closed in live && Stored(live, closed, StatusField) != Some(Is(Closed)) {
      FlipFields(live, closed, note, ts, field);
    } else {
      NoFlip(live, closed, note, ts);
    }
  }

  lemma MintedFields(live: map<string, Dir>, closed: string, n: Successor, ts: string, slug: string, field: Field)
    ensures Stored(Minted(live, closed, n, ts), slug, field)
         == if slug == n.slug then GivenToSuccessor(n, ts, field) else Stored(live, slug, field)
  {
    MintFields(live, closed, n, ts, field);
  }

  /** What a close leaves in the live tree before the mint. */
  function Kept(f: FleetState, c: Command): map<string, Dir>
    requires c.DoClose?
  {
    var flipped := Flipped(f.live, c.slug, c.options.note, c.ts);
    if c.slug in flipped && !c.options.noArchive then flipped - {c.slug} else flipped
  }

  lemma KeptFields(f: FleetState, c: Command, slug: string, field: Field)
    requires c.DoClose? && Refused(f, c.slug, c.options).None?
    ensures Stored(Kept(f, c), slug, field)
         == if Archives(f, c, slug) then None else Stored(Flipped(f.live, c.slug, c.options.note, c.ts), slug, field)
  {
    hide Flipped, Refused, FieldOf;
    FlippedFields(f.live, c.slug, c.options.note, c.ts, slug, field);
  }

  lemma CloseFields(f: FleetState, c: Command, slug: string, field: Field)
    requires c.DoClose? && Refused(f, c.slug, c.options).None?
    ensures var g := ClosedFleet(f, c.slug, c.options, c.ts);
      && Stored(g.live, slug, field) == (if Archives(f, c, slug) then None else Left(f, c, slug, field))
      && (Archives(f, c, slug) ==> Stored(g.archive, slug, field) == Left(f, c, slug, field))
  {
    hide Flipped, Minted, Reconciled, Refused, GivenByClose, GivenToSuccessor, FieldOf, Merged, Logged;
    var o := c.options;
    var flipped := Flipped(f.live, c.slug, o.note, c.ts);
    FlippedFields(f.live, c.slug, o.note, c.ts, slug, field);
    KeptFields(f, c, slug, field);
    if o.successor.Some? {
      KnownSuccessor(f, c);
      MintedFields(Kept(f, c), c.slug, o.successor.value, c.ts, slug, field);
    }
  }

  /** One command, any fleet, any field. */
  lemma CommandFields(f: FleetState, c: Command, slug: string, field: Field)
    ensures var g := Apply(f, c);
      && Stored(g.live, slug, field) == (if Archives(f, c, slug) then None else Left(f, c, slug, field))
      && (Archives(f, c, slug) ==> Stored(g.archive, slug, field) == Left(f, c, slug, field))
  {
    match c
    case DoUpdate(target, p, note, ts) =>
      UpdateFields(f, target, p, note, ts, field);
    case DoClose(closed, o, ts) =>
      if Refused(f, closed, o).None? {
        CloseFields(f, c, slug, field);
      }
  }

  // ---------- Runs ----------

  /** The value last given, among the commands that wrote the slug's state since it was last archived; before them,
      what the run began with. */
  function LastGiven(f: FleetState, cs: seq<Command>, slug: string, field: Field): Option<Value> {
    if cs == [] then Stored(f.live, slug, field)
    else
      var rest, c := cs[..|cs| - 1], cs[|cs| - 1];
      var g := ApplyAll(f, rest);
      if Archives(g, c, slug) then None
      else if Writes(g, c, slug) && Given(c, slug, field).Some? then Given(c, slug, field)
      else LastGiven(f, rest, slug, field)
  }

  /** Main result: after any run of updates, closes and successor mints, accepted or refused, every field of every
      slug's state is the one last given, and absent if none was; `updated` is the time of the last write. */
  lemma {:induction false} FieldsAreLastGiven(f: FleetState, cs: seq<Command>, slug: string, field: Field)
    ensures Stored(ApplyAll(f, cs).live, slug, field) == LastGiven(f, cs, slug, field)
  {
    hide Given, Writes, Archives, Apply, Stored;
    if cs != [] {
      FieldsAreLastGiven(f, cs[..|cs| - 1], slug, field);
      CommandFields(ApplyAll(f, cs[..|cs| - 1]), cs[|cs| - 1], slug, field);
    }
  }

  /** What a close archives: the fields last given, with those of the close itself unless the slug was closed already.
      */
  lemma ArchivedFieldsAreLastGiven(f: FleetState, cs: seq<Command>, c: Command, slug: string, field: Field)
    requires Archives(ApplyAll(f, cs), c, slug)
    ensures var g := ApplyAll(f, cs);
      Stored(Apply(g, c).archive, slug, field)
      == if Writes(g, c, slug) && Given(c, slug, field).Some? then Given(c, slug, field)
          else LastGiven(f, cs, slug, field)
  {
    FieldsAreLastGiven(f, cs, slug, field);
    CommandFields(ApplyAll(f, cs), c, slug, field);
  }

  // ---------- Events ----------

  function ActorGiven(c: Command): string {
    match c
    case DoUpdate(_, p, _, _) => if p.actor.Some? && p.actor.value != "" then p.actor.value else "unknown"
    case DoClose(_, _, _) => "fleet-close"
  }

  function NoteGiven(c: Command, slug: string): string {
    match c
    case DoUpdate(_, _, note, _) => note
    case DoClose(closed, o, ts) =>
      if slug != closed then "minted as successor of " + closed
      else if o.note != "" then o.note
      else "closed " + if |ts| > 10 then ts[..10] else ts
  }

  /** A note of up to 1000 characters is recorded as it is, a longer one by its first 999 and an ellipsis. */
  predicate Records(recorded: string, note: string) {
    if |note| <= 1000 then recorded == note else recorded == note[..999] + "\U{2026}"
  }

  /** The directory after one more event, and this is it. */
  ghost predicate OneMoreEvent(before: seq<Event>, dirs: map<string, Dir>, slug: string, c: Command) {
    && slug in dirs && |dirs[slug].log| == |before| + 1 && dirs[slug].log[..|before|] == before
    && var e := dirs[slug].log[|before|];
      && e.ts == c.ts && e.actor == ActorGiven(c) && Records(e.note, NoteGiven(c, slug))
      && TextOf(e.stage) == Stored(dirs, slug, StageField) && StatusOf(e.status) == Stored(dirs, slug, StatusField)
  }

  lemma LoggedRecords(dirs: map<string, Dir>, d: Dir, s: SlugState, actor: Option<string>, note: string, slug: string,
                      c: Command)
    requires slug in dirs && dirs[slug] == Logged(d, s, actor, note, c.ts) && NoteGiven(c, slug) == note
    requires ActorGiven(c) == if actor.Some? && actor.value != "" then actor.value else "unknown"
    ensures OneMoreEvent(d.log, dirs, slug, c)
  {
    assert (d.log + [dirs[slug].log[|d.log|]])[..|d.log|] == d.log;
  }

  /** Main result: every write appends exactly one event to the slug's log, with the time, the acting name, the note,
      and the stage and status that the write left; a command that does not write a slug leaves its log alone. */
  lemma OneEventPerWrite(f: FleetState, c: Command, slug: string)
    ensures var g := Apply(f, c);
      var dirs := if Archives(f, c, slug) then g.archive else g.live;
      if Writes(f, c, slug) then OneMoreEvent(DirOf(f.live, slug).log, dirs, slug, c)
      else DirOf(dirs, slug).log == DirOf(f.live, slug).log
  {
    match c
    case DoUpdate(target, p, note, ts) =>
      UpdateEvent(f, target, p, note, ts, slug);
    case DoClose(closed, o, ts) =>
      if Refused(f, closed, o).None? {
        CloseEvent(f, c, slug);
      }
  }

  lemma UpdateEvent(f: FleetState, target: string, p: Patch, note: string, ts: string, slug: string)
    ensures var c := DoUpdate(target, p, note, ts);
      var g := Apply(f, c);
      if Writes(f, c, slug) then OneMoreEvent(DirOf(f.live, slug).log, g.live, slug, c)
      else DirOf(g.live, slug).log == DirOf(f.live, slug).log
  {
    var d := DirOf(f.live, target);
    UpdateFields(f, target, p, note, ts, StatusField);
    if Updated(f.live, target, p, note, ts).Some? {
      LoggedRecords(Updated(f.live, target, p, note, ts).value, d, Merged(d.state, p, ts), p.actor, note, target,
                    DoUpdate(target, p, note, ts));
    }
  }

  lemma ClosingEvent(f: FleetState, c: Command)
    requires c.DoClose? && Refused(f, c.slug, c.options).None? && c.slug in f.live && !IsClosed(f.live[c.slug])
    ensures var g := ClosedFleet(f, c.slug, c.options, c.ts);
      OneMoreEvent(f.live[c.slug].log, if c.options.noArchive then g.live else g.archive, c.slug, c)
  {
    hide Merged, Reconciled, Clamped, OneMoreEvent;
    if c.options.successor.Some? {
      KnownSuccessor(f, c);
    }
    var d, g := f.live[c.slug], ClosedFleet(f, c.slug, c.options, c.ts);
    LoggedRecords(if c.options.noArchive then g.live else g.archive, d, Merged(d.state, CLOSING, c.ts), CLOSING.actor,
                  NoteGiven(c, c.slug), c.slug, c);
  }

  lemma MintingEvent(f: FleetState, c: Command)
    requires c.DoClose? && Refused(f, c.slug, c.options).None? && c.options.successor.Some?
    ensures c.options.successor.value.slug !in f.live
    ensures OneMoreEvent([], ClosedFleet(f, c.slug, c.options, c.ts).live, c.options.successor.value.slug, c)
  {
    hide Flipped, Reconciled, Clamped, OneMoreEvent;
    KnownSuccessor(f, c);
    var n, g := c.options.successor.value, ClosedFleet(f, c.slug, c.options, c.ts);
    LoggedRecords(g.live, Dir(None, []), g.live[n.slug].state.value, Some("fleet-close"), NoteGiven(c, n.slug),
        n.slug, c);
  }

  lemma OtherLogsStay(f: FleetState, c: Command, slug: string)
    requires c.DoClose? && Refused(f, c.slug, c.options).None? && !Writes(f, c, slug)
    ensures var g := ClosedFleet(f, c.slug, c.options, c.ts);
      DirOf(if Archives(f, c, slug) then g.archive else g.live, slug).log == DirOf(f.live, slug).log
  {
    hide Merged, Reconciled, Clamped, Logged, Refused;
    if c.options.successor.Some? {
      KnownSuccessor(f, c);
    }
  }

  lemma CloseEvent(f: FleetState, c: Command, slug: string)
    requires c.DoClose? && Refused(f, c.slug, c.options).None?
    ensures var g := ClosedFleet(f, c.slug, c.options, c.ts);
      var dirs := if Archives(f, c, slug) then g.archive else g.live;
      if Writes(f, c, slug) then OneMoreEvent(DirOf(f.live, slug).log, dirs, slug, c)
      else DirOf(dirs, slug).log == DirOf(f.live, slug).log
  {
    hide ClosedFleet, OneMoreEvent, Refused;
    if !Writes(f, c, slug) {
      OtherLogsStay(f, c, slug);
    } else if slug == c.slug {
      if c.options.successor.Some? {
        KnownSuccessor(f, c);
      }
      ClosingEvent(f, c);
    } else {
      MintingEvent(f, c);
    }
  }

  // ---------- The record of a close ----------

  /** Main result: a close that is accepted adds an entry to the closed list exactly when the slug has none yet, with
      the roster's piece or else the state's, the day, the note and the roster's wave; it takes the slug out of the
      roster, puts the successor in, and leaves every other roster entry and closed entry as it was. */
  lemma CloseIsRecorded(f: FleetState, slug: string, o: Options, ts: string)
    requires Refused(f, slug, o).None?
    ensures var g := ClosedFleet(f, slug, o, ts);
      && g.meta.waves == f.meta.waves
      && (forall other | other != slug && (o.successor.Some? ==> other != o.successor.value.slug) ::
            (other in g.meta.roster <==> other in f.meta.roster)
            && (other in f.meta.roster ==> g.meta.roster[other] == f.meta.roster[other]))
      && slug !in g.meta.roster
      && (o.successor.Some? ==>
            o.successor.value.slug in g.meta.roster
            && g.meta.roster[o.successor.value.slug].piece == Some(o.successor.value.piece)
            && g.meta.roster[o.successor.value.slug].wave == o.successor.value.wave)
      && var n := |f.meta.closed|;
        if exists i :: 0 <= i < n && f.meta.closed[i].slug == slug then g.meta.closed == f.meta.closed
        else
          && |g.meta.closed| == n + 1 && g.meta.closed[..n] == f.meta.closed
          && RecordedAs(f, g.meta.closed[n], slug, o.note, if |ts| > 10 then ts[..10] else ts)
  {
    if o.successor.Some? {
      KnownSuccessor(f, DoClose(slug, o, ts));
    }
  }

  predicate RecordedAs(f: FleetState, e: ClosedEntry, slug: string, note: string, day: string) {
    && e.slug == slug && e.closed == day
    && e.note == (if note != "" then note else "\U{2192} _closed/ (" + day + ")")
    && e.wave == (if slug in f.meta.roster then f.meta.roster[slug].wave else None)
    && Some(Text(e.piece))
    == if slug in f.meta.roster && f.meta.roster[slug].piece.Some? then TextOf(f.meta.roster[slug].piece)
       else if Stored(f.live, slug, PieceField).Some? then Stored(f.live, slug, PieceField)
       else Some(Text(""))
  }
}
