/** How many lines each slug gets in the generated execution tree. */
module FleetTree {
  import opened Optional
  import opened Fleet
  import opened FleetBoard
  import Order

  // The code is render_tree in bin/_fleet/engine.py.

  datatype TreeLine = LiveLine(slug: string) | ClosedLine(slug: string)

  /** Lines so far, and the slugs they cover. */
  datatype Tree = Tree(lines: seq<TreeLine>, seen: set<string>)

  // ---------- The listing ----------

  predicate InWave(roster: map<string, RosterEntry>, slug: string, id: Option<int>) {
    slug in roster && roster[slug].wave == id
  }

  /** The wave's roster slugs, listed whether or not they were seen. */
  function RosterPart(t: Tree, roster: map<string, RosterEntry>, slugs: seq<string>, id: Option<int>): Tree {
    if slugs == [] then t
    else
      var r := RosterPart(t, roster, slugs[..|slugs| - 1], id);
      var slug := slugs[|slugs| - 1];
      if InWave(roster, slug, id) then Tree(r.lines + [LiveLine(slug)], r.seen + {slug}) else r
  }

  /** The wave's closed entries, unless seen. */
  function ClosedPart(t: Tree, closed: seq<ClosedEntry>, id: Option<int>): Tree {
    if closed == [] then t
    else
      var r := ClosedPart(t, closed[..|closed| - 1], id);
      var e := closed[|closed| - 1];
      if e.wave == id && e.slug !in r.seen then Tree(r.lines + [ClosedLine(e.slug)], r.seen + {e.slug}) else r
  }

  function WaveParts(meta: Meta, slugs: seq<string>, waves: seq<Wave>): Tree {
    if waves == [] then Tree([], {})
    else
      var id := waves[|waves| - 1].id;
      ClosedPart(RosterPart(WaveParts(meta, slugs, waves[..|waves| - 1]), meta.roster, slugs, id), meta.closed, id)
  }

  /** Tracked slugs outside every wave, unless they also have a closed entry. */
  function Unwaved(seen: set<string>, closed: seq<ClosedEntry>, slugs: seq<string>): seq<TreeLine> {
    if slugs == [] then []
    else
      var slug := slugs[|slugs| - 1];
      Unwaved(seen, closed, slugs[..|slugs| - 1])
      + (if slug !in seen && !Lists(closed, slug) then [LiveLine(slug)] else [])
  }

  /** Closed entries that nothing above covered. */
  function Legacy(seen: set<string>, slugs: seq<string>, closed: seq<ClosedEntry>): seq<TreeLine> {
    if closed == [] then []
    else
      var slug := closed[|closed| - 1].slug;
      Legacy(seen, slugs, closed[..|closed| - 1])
      + (if slug !in seen && slug !in slugs then [ClosedLine(slug)] else [])
  }

  function TreeLines(meta: Meta, slugs: seq<string>): seq<TreeLine> {
    var t := WaveParts(meta, slugs, meta.waves);
    t.lines + Unwaved(t.seen, meta.closed, slugs) + Legacy(t.seen, slugs, meta.closed)
  }

  /** The roster's and the live slugs in ascending order. */
  ghost predicate Sorted(f: FleetState, slugs: seq<string>) {
    && (forall s :: s in slugs <==> s in f.meta.roster || HasState(f, s))
    && (forall i, j | 0 <= i < j < |slugs| :: Order.Before(slugs[i], slugs[j]))
  }

  /** One wave's body: its roster slugs, then its closed entries that nothing covered yet. */
  method RenderWave(meta: Meta, slugs: seq<string>, id: Option<int>, t: Tree)
      returns (lines: seq<TreeLine>, seen: set<string>)
    ensures Tree(lines, seen) == ClosedPart(RosterPart(t, meta.roster, slugs, id), meta.closed, id)
  {
    lines, seen := t.lines, t.seen;
    for i := 0 to |slugs|
      invariant Tree(lines, seen) == RosterPart(t, meta.roster, slugs[..i], id)
    {
      assert slugs[..i + 1][..i] == slugs[..i];
      if InWave(meta.roster, slugs[i], id) {
        seen := seen + {slugs[i]};
        lines := lines + [LiveLine(slugs[i])];
      }
    }
    assert slugs[..|slugs|] == slugs;
    ghost var mid := Tree(lines, seen);
    var closed := meta.closed;
    for i := 0 to |closed|
      invariant Tree(lines, seen) == ClosedPart(mid, closed[..i], id)
    {
      assert closed[..i + 1][..i] == closed[..i];
      if closed[i].wave == id && closed[i].slug !in seen {
        seen := seen + {closed[i].slug};
        lines := lines + [ClosedLine(closed[i].slug)];
      }
    }
    assert closed[..|closed|] == closed;
  }

  method RenderTree(meta: Meta, slugs: seq<string>) returns (lines: seq<TreeLine>)
    ensures lines == TreeLines(meta, slugs)
  {
    lines := [];
    var seen: set<string> := {};
    var waves, closed := meta.waves, meta.closed;
    for w := 0 to |waves|
      invariant Tree(lines, seen) == WaveParts(meta, slugs, waves[..w])
    {
      assert waves[..w + 1][..w] == waves[..w];
      lines, seen := RenderWave(meta, slugs, waves[w].id, Tree(lines, seen));
    }
    assert waves[..|waves|] == waves;
    ghost var waved := lines;
    for i := 0 to |slugs|
      invariant lines == waved + Unwaved(seen, closed, slugs[..i])
    {
      assert slugs[..i + 1][..i] == slugs[..i];
      if slugs[i] !in seen && !Lists(closed, slugs[i]) {
        lines := lines + [LiveLine(slugs[i])];
      }
    }
    assert slugs[..|slugs|] == slugs;
    ghost var tracked := lines;
    for i := 0 to |closed|
      invariant lines == tracked + Legacy(seen, slugs, closed[..i])
    {
      assert closed[..i + 1][..i] == closed[..i];
      if closed[i].slug !in seen && closed[i].slug !in slugs {
        lines := lines + [ClosedLine(closed[i].slug)];
      }
    }
    assert closed[..|closed|] == closed;
  }

  // ---------- Counting ----------

  function LinesFor(lines: seq<TreeLine>, slug: string): nat {
    if lines == [] then 0
    else LinesFor(lines[..|lines| - 1], slug) + (if lines[|lines| - 1].slug == slug then 1 else 0)
  }

  lemma LinesForLast(lines: seq<TreeLine>, l: TreeLine, slug: string)
    ensures LinesFor(lines + [l], slug) == LinesFor(lines, slug) + (if l.slug == slug then 1 else 0)
  {
    assert (lines + [l])[..|lines|] == lines;
  }

  lemma {:induction false} LinesForConcat(a: seq<TreeLine>, b: seq<TreeLine>, slug: string)
    ensures LinesFor(a + b, slug) == LinesFor(a, slug) + LinesFor(b, slug)
    decreases |b|
  {
    if b == [] {
      assert a + b == a;
    } else {
      assert (a + b)[..|a + b| - 1] == a + b[..|b| - 1];
      LinesForConcat(a, b[..|b| - 1], slug);
    }
  }

  ghost predicate Distinct(slugs: seq<string>) {
    forall i, j | 0 <= i < j < |slugs| :: slugs[i] != slugs[j]
  }

  lemma {:induction false} RosterPartCounts(t: Tree, roster: map<string, RosterEntry>, slugs: seq<string>,
                                            id: Option<int>, slug: string)
    requires Distinct(slugs)
    ensures var r := RosterPart(t, roster, slugs, id);
      var listed := slug in slugs && InWave(roster, slug, id);
      && LinesFor(r.lines, slug) == LinesFor(t.lines, slug) + (if listed then 1 else 0)
      && (slug in r.seen <==> slug in t.seen || listed)
  {
    hide InWave, LinesFor;
    if slugs != [] {
      var n := |slugs| - 1;
      RosterPartCounts(t, roster, slugs[..n], id, slug);
      LinesForLast(RosterPart(t, roster, slugs[..n], id).lines, LiveLine(slugs[n]), slug);
      assert slugs == slugs[..n] + [slugs[n]];
    }
  }

  /** The slug's closed entry names this wave. */
  ghost predicate ClosedIn(closed: seq<ClosedEntry>, slug: string, id: Option<int>) {
    exists i :: 0 <= i < |closed| && closed[i].slug == slug && closed[i].wave == id
  }

  lemma ClosedInSplits(closed: seq<ClosedEntry>, slug: string, id: Option<int>)
    requires closed != []
    ensures var e := closed[|closed| - 1];
      ClosedIn(closed, slug, id) <==> ClosedIn(closed[..|closed| - 1], slug, id) || (e.slug == slug && e.wave == id)
  {
    var n := |closed| - 1;
    if i :| 0 <= i < |closed| && closed[i].slug == slug && closed[i].wave == id {
      assert i < n ==> closed[..n][i].slug == slug;
    }
    if i :| 0 <= i < n && closed[..n][i].slug == slug && closed[..n][i].wave == id {
      assert closed[i].slug == slug;
    }
  }

  lemma {:induction false} ClosedPartCounts(t: Tree, closed: seq<ClosedEntry>, id: Option<int>, slug: string)
    ensures var r := ClosedPart(t, closed, id);
      var added := ClosedIn(closed, slug, id) && slug !in t.seen;
      && LinesFor(r.lines, slug) == LinesFor(t.lines, slug) + (if added then 1 else 0)
      && (slug in r.seen <==> slug in t.seen || ClosedIn(closed, slug, id))
  {
    if closed != [] {
      var n := |closed| - 1;
      ClosedPartCounts(t, closed[..n], id, slug);
      ClosedInSplits(closed, slug, id);
      LinesForLast(ClosedPart(t, closed[..n], id).lines, ClosedLine(closed[n].slug), slug);
    }
  }

  // ---------- Waves ----------

  ghost predicate DistinctWaves(waves: seq<Wave>) {
    forall i, j | 0 <= i < j < |waves| :: waves[i].id != waves[j].id
  }

  /** The place of the wave a roster entry names. */
  ghost predicate RosterWave(meta: Meta, waves: seq<Wave>, slug: string, i: nat) {
    i < |waves| && InWave(meta.roster, slug, waves[i].id)
  }

  /** The place of the wave a closed entry names. */
  ghost predicate ClosedWave(meta: Meta, waves: seq<Wave>, slug: string, j: nat) {
    j < |waves| && ClosedIn(meta.closed, slug, waves[j].id)
  }

  ghost predicate InRosterWave(meta: Meta, waves: seq<Wave>, slug: string) {
    exists i: nat :: RosterWave(meta, waves, slug, i)
  }

  ghost predicate InClosedWave(meta: Meta, waves: seq<Wave>, slug: string) {
    exists j: nat :: ClosedWave(meta, waves, slug, j)
  }

  /** The closed entry's wave comes before the roster entry's, or there is no such roster wave. */
  ghost predicate ClosedFirst(meta: Meta, waves: seq<Wave>, slug: string) {
    exists j: nat :: ClosedWave(meta, waves, slug, j) && forall i: nat | RosterWave(meta, waves, slug, i) :: j < i
  }

  /** In how many waves the roster entry puts the slug: more than one only if wave ids repeat. */
  function RosterWaves(meta: Meta, waves: seq<Wave>, slug: string): nat {
    if waves == [] then 0
    else
      RosterWaves(meta, waves[..|waves| - 1], slug)
      + (if InWave(meta.roster, slug, waves[|waves| - 1].id) then 1 else 0)
  }

  lemma OneMoreWave(meta: Meta, waves: seq<Wave>, slug: string)
    requires waves != []
    ensures var n := |waves| - 1;
      var init, id := waves[..n], waves[n].id;
      var listed, closed := InWave(meta.roster, slug, id), ClosedIn(meta.closed, slug, id);
      && (InRosterWave(meta, waves, slug) <==> InRosterWave(meta, init, slug) || listed)
      && (InClosedWave(meta, waves, slug) <==> InClosedWave(meta, init, slug) || closed)
      && (ClosedFirst(meta, waves, slug) <==>
            ClosedFirst(meta, init, slug) || (closed && !listed && !InRosterWave(meta, init, slug)))
  {
    var n := |waves| - 1;
    var init := waves[..n];
    forall i: nat
      ensures RosterWave(meta, waves, slug, i) <==>
        RosterWave(meta, init, slug, i) || (i == n && InWave(meta.roster, slug, waves[n].id))
      ensures ClosedWave(meta, waves, slug, i) <==>
        ClosedWave(meta, init, slug, i) || (i == n && ClosedIn(meta.closed, slug, waves[n].id))
    {}
    assert RosterWave(meta, waves, slug, n) <==> InWave(meta.roster, slug, waves[n].id);
    assert ClosedWave(meta, waves, slug, n) <==> ClosedIn(meta.closed, slug, waves[n].id);
  }

  lemma {:induction false} RosterWavesArePlaces(meta: Meta, waves: seq<Wave>, slug: string)
    ensures RosterWaves(meta, waves, slug) > 0 <==> InRosterWave(meta, waves, slug)
    ensures DistinctWaves(waves) ==> RosterWaves(meta, waves, slug) <= 1
  {
    if waves != [] {
      var n := |waves| - 1;
      RosterWavesArePlaces(meta, waves[..n], slug);
      OneMoreWave(meta, waves, slug);
      if DistinctWaves(waves) && InRosterWave(meta, waves[..n], slug) {
        var i: nat :| RosterWave(meta, waves[..n], slug, i);
        assert waves[i].id != waves[n].id;
      }
    }
  }

  /** After the waves: one line for each wave the roster names, and one for the closed entry if its wave came first. */
  lemma {:induction false} WavePartsCount(meta: Meta, slugs: seq<string>, waves: seq<Wave>, slug: string)
    requires Distinct(slugs)
    requires slug in meta.roster ==> slug in slugs
    ensures var t := WaveParts(meta, slugs, waves);
      && LinesFor(t.lines, slug) == RosterWaves(meta, waves, slug) + (if ClosedFirst(meta, waves, slug) then 1 else 0)
      && (slug in t.seen <==> InRosterWave(meta, waves, slug) || InClosedWave(meta, waves, slug))
  {
    if waves != [] {
      var n := |waves| - 1;
      var init, id := waves[..n], waves[n].id;
      WavePartsCount(meta, slugs, init, slug);
      var t := WaveParts(meta, slugs, init);
      RosterPartCounts(t, meta.roster, slugs, id, slug);
      ClosedPartCounts(RosterPart(t, meta.roster, slugs, id), meta.closed, id, slug);
      OneMoreWave(meta, waves, slug);
      ClosedFirstIsListed(meta, init, slug);
    }
  }

  // ---------- The rest of the tree ----------

  lemma UnwavedStep(seen: set<string>, closed: seq<ClosedEntry>, slugs: seq<string>)
    requires slugs != []
    ensures var n := |slugs| - 1;
      var rest := Unwaved(seen, closed, slugs[..n]);
      Unwaved(seen, closed, slugs)
      == if slugs[n] !in seen && !Lists(closed, slugs[n]) then rest + [LiveLine(slugs[n])] else rest
  {
    hide Lists;
    var rest := Unwaved(seen, closed, slugs[..|slugs| - 1]);
    assert rest + [] == rest;
  }

  lemma LastIsNew(slugs: seq<string>)
    requires Distinct(slugs) && slugs != []
    ensures var n := |slugs| - 1;
      Distinct(slugs[..n]) && slugs[n] !in slugs[..n] && forall s :: s in slugs <==> s in slugs[..n] || s == slugs[n]
  {
    assert slugs == slugs[..|slugs| - 1] + [slugs[|slugs| - 1]];
  }

  lemma {:induction false} UnwavedCounts(seen: set<string>, closed: seq<ClosedEntry>, slugs: seq<string>, slug: string)
    requires Distinct(slugs)
    ensures LinesFor(Unwaved(seen, closed, slugs), slug) ==
      if slug in slugs && slug !in seen && !Lists(closed, slug) then 1 else 0
  {
    if slugs != [] {
      hide LinesFor, Lists, Unwaved, Distinct;
      var n := |slugs| - 1;
      LastIsNew(slugs);
      UnwavedCounts(seen, closed, slugs[..n], slug);
      UnwavedStep(seen, closed, slugs);
      LinesForLast(Unwaved(seen, closed, slugs[..n]), LiveLine(slugs[n]), slug);
    }
  }

  lemma {:induction false} LegacyCounts(seen: set<string>, slugs: seq<string>, closed: seq<ClosedEntry>, slug: string)
    requires DistinctClosed(closed)
    ensures LinesFor(Legacy(seen, slugs, closed), slug) ==
      if Lists(closed, slug) && slug !in seen && slug !in slugs then 1 else 0
  {
    if closed != [] {
      var n := |closed| - 1;
      LegacyCounts(seen, slugs, closed[..n], slug);
      ListsSplits(closed, slug);
      LinesForLast(Legacy(seen, slugs, closed[..n]), ClosedLine(closed[n].slug), slug);
      assert Legacy(seen, slugs, closed[..n]) + [] == Legacy(seen, slugs, closed[..n]);
    }
  }

  /** In the roster, live, or closed. */
  predicate Tracked(f: FleetState, slug: string) {
    slug in f.meta.roster || HasState(f, slug) || Lists(f.meta.closed, slug)
  }

  /** Tracked and closed at once, and claimed by no known wave. */
  ghost predicate Dropped(f: FleetState, slug: string) {
    && (slug in f.meta.roster || HasState(f, slug)) && Lists(f.meta.closed, slug)
    && !InRosterWave(f.meta, f.meta.waves, slug) && !InClosedWave(f.meta, f.meta.waves, slug)
  }

  /** In a wave of the roster, and closed under an earlier one: both lines are printed. */
  ghost predicate ListedTwice(f: FleetState, slug: string) {
    InRosterWave(f.meta, f.meta.waves, slug) && ClosedFirst(f.meta, f.meta.waves, slug)
  }

  lemma SortedIsDistinct(f: FleetState, slugs: seq<string>)
    requires Sorted(f, slugs)
    ensures Distinct(slugs)
  {
    forall i, j | 0 <= i < j < |slugs|
      ensures slugs[i] != slugs[j]
    {
      Order.BeforeIrreflexive(slugs[i]);
    }
  }

  lemma ClosedFirstIsListed(meta: Meta, waves: seq<Wave>, slug: string)
    ensures ClosedFirst(meta, waves, slug) ==> InClosedWave(meta, waves, slug)
    ensures InClosedWave(meta, waves, slug) ==> Lists(meta.closed, slug)
    ensures InClosedWave(meta, waves, slug) && !InRosterWave(meta, waves, slug) ==> ClosedFirst(meta, waves, slug)
  {
    if j: nat :| ClosedWave(meta, waves, slug, j) {
      var i :| 0 <= i < |meta.closed| && meta.closed[i].slug == slug && meta.closed[i].wave == waves[j].id;
      assert Lists(meta.closed, slug);
    }
  }

  /** Main result: over any run of updates, closes and mints from a closed list without duplicates, the number of
      lines a slug has in the tree: none if it is not tracked, or if it is both tracked and closed and no known wave
      claims it; otherwise one for each wave that the roster names, one more if it is also closed under a wave that
      comes first, and one if no wave lists it. */
  lemma TreeLineCount(f: FleetState, cs: seq<Command>, slugs: seq<string>, slug: string)
    requires DistinctClosed(f.meta.closed) && Sorted(ApplyAll(f, cs), slugs)
    ensures var g := ApplyAll(f, cs);
      LinesFor(TreeLines(g.meta, slugs), slug) ==
        if !Tracked(g, slug) || Dropped(g, slug) then 0
        else if !InRosterWave(g.meta, g.meta.waves, slug) then 1
        else RosterWaves(g.meta, g.meta.waves, slug) + (if ListedTwice(g, slug) then 1 else 0)
  {
    var g := ApplyAll(f, cs);
    RunKeepsDistinct(f, cs);
    SortedIsDistinct(g, slugs);
    var t := WaveParts(g.meta, slugs, g.meta.waves);
    var u, l := Unwaved(t.seen, g.meta.closed, slugs), Legacy(t.seen, slugs, g.meta.closed);
    LinesForConcat(t.lines + u, l, slug);
    LinesForConcat(t.lines, u, slug);
    WavePartsCount(g.meta, slugs, g.meta.waves, slug);
    RosterWavesArePlaces(g.meta, g.meta.waves, slug);
    UnwavedCounts(t.seen, g.meta.closed, slugs, slug);
    LegacyCounts(t.seen, slugs, g.meta.closed, slug);
    ClosedFirstIsListed(g.meta, g.meta.waves, slug);
  }

  /** With distinct wave ids that is one line, except none for the omitted slugs and two for those listed twice. */
  lemma TreeListsEverySlugExcept(f: FleetState, cs: seq<Command>, slugs: seq<string>, slug: string)
    requires DistinctClosed(f.meta.closed)
    requires var g := ApplyAll(f, cs); DistinctWaves(g.meta.waves) && Sorted(g, slugs)
    ensures var g := ApplyAll(f, cs);
      LinesFor(TreeLines(g.meta, slugs), slug) ==
        if !Tracked(g, slug) || Dropped(g, slug) then 0 else if ListedTwice(g, slug) then 2 else 1
  {
    var g := ApplyAll(f, cs);
    TreeLineCount(f, cs, slugs, slug);
    RosterWavesArePlaces(g.meta, g.meta.waves, slug);
  }

  // ---------- Kinds of lines ----------

  lemma {:induction false} RosterPartKinds(t: Tree, roster: map<string, RosterEntry>, slugs: seq<string>,
                                           id: Option<int>, slug: string)
    ensures var r := RosterPart(t, roster, slugs, id);
      && (LiveLine(slug) in r.lines <==> LiveLine(slug) in t.lines || (slug in slugs && InWave(roster, slug, id)))
      && (ClosedLine(slug) in r.lines <==> ClosedLine(slug) in t.lines)
  {
    hide InWave;
    if slugs != [] {
      var n := |slugs| - 1;
      RosterPartKinds(t, roster, slugs[..n], id, slug);
      assert slugs == slugs[..n] + [slugs[n]];
    }
  }

  lemma {:induction false} ClosedPartKinds(t: Tree, closed: seq<ClosedEntry>, id: Option<int>, slug: string)
    ensures var r := ClosedPart(t, closed, id);
      && (LiveLine(slug) in r.lines <==> LiveLine(slug) in t.lines)
      && (ClosedLine(slug) in r.lines <==>
            ClosedLine(slug) in t.lines || (ClosedIn(closed, slug, id) && slug !in t.seen))
      && (slug in r.seen <==> slug in t.seen || ClosedIn(closed, slug, id))
  {
    hide ClosedIn;
    if closed != [] {
      ClosedPartKinds(t, closed[..|closed| - 1], id, slug);
      ClosedInSplits(closed, slug, id);
    } else {
      NotClosedIn(slug, id);
    }
  }

  lemma NotClosedIn(slug: string, id: Option<int>)
    ensures !ClosedIn([], slug, id)
  {}

  lemma {:induction false} WavePartsKinds(meta: Meta, slugs: seq<string>, waves: seq<Wave>, slug: string)
    requires Distinct(slugs)
    requires slug in meta.roster ==> slug in slugs
    ensures var t := WaveParts(meta, slugs, waves);
      && (LiveLine(slug) in t.lines <==> InRosterWave(meta, waves, slug))
      && (ClosedLine(slug) in t.lines <==> ClosedFirst(meta, waves, slug))
  {
    hide InRosterWave, InClosedWave, ClosedFirst, ClosedIn;
    if waves != [] {
      var n := |waves| - 1;
      var init, id := waves[..n], waves[n].id;
      WavePartsKinds(meta, slugs, init, slug);
      WavePartsCount(meta, slugs, init, slug);
      var t := WaveParts(meta, slugs, init);
      RosterPartKinds(t, meta.roster, slugs, id, slug);
      RosterPartCounts(t, meta.roster, slugs, id, slug);
      ClosedPartKinds(RosterPart(t, meta.roster, slugs, id), meta.closed, id, slug);
      OneMoreWave(meta, waves, slug);
      ClosedFirstIsListed(meta, init, slug);
    } else {
      NoWaves(meta, slug);
    }
  }

  lemma NoWaves(meta: Meta, slug: string)
    ensures !InRosterWave(meta, [], slug) && !ClosedFirst(meta, [], slug)
  {}

  lemma {:induction false} UnwavedKinds(seen: set<string>, closed: seq<ClosedEntry>, slugs: seq<string>, slug: string)
    ensures LiveLine(slug) in Unwaved(seen, closed, slugs) <==> slug in slugs && slug !in seen && !Lists(closed, slug)
    ensures ClosedLine(slug) !in Unwaved(seen, closed, slugs)
  {
    hide Lists;
    if slugs != [] {
      var n := |slugs| - 1;
      UnwavedKinds(seen, closed, slugs[..n], slug);
      assert slugs == slugs[..n] + [slugs[n]];
    }
  }

  lemma {:induction false} LegacyKinds(seen: set<string>, slugs: seq<string>, closed: seq<ClosedEntry>, slug: string)
    ensures ClosedLine(slug) in Legacy(seen, slugs, closed) <==> Lists(closed, slug) && slug !in seen && slug !in slugs
    ensures LiveLine(slug) !in Legacy(seen, slugs, closed)
  {
    hide Lists;
    if closed != [] {
      LegacyKinds(seen, slugs, closed[..|closed| - 1], slug);
      ListsSplits(closed, slug);
    } else {
      NothingListed(slug);
    }
  }

  lemma NothingListed(slug: string)
    ensures !Lists([], slug)
  {}

  /** Which lines they are: a live line exactly if a known wave of the roster names the slug, or it is in the roster
      or live, no wave claims it and it is not closed; a closed line exactly if its closed entry's wave comes first,
      or it is only closed and no wave claims it. */
  lemma KindsOfLines(f: FleetState, slugs: seq<string>, slug: string)
    requires Sorted(f, slugs)
    ensures var lines, waves := TreeLines(f.meta, slugs), f.meta.waves;
      var claimed := InRosterWave(f.meta, waves, slug) || InClosedWave(f.meta, waves, slug);
      var tracked, closed := slug in f.meta.roster || HasState(f, slug), Lists(f.meta.closed, slug);
      && (LiveLine(slug) in lines <==> InRosterWave(f.meta, waves, slug) || (tracked && !closed && !claimed))
      && (ClosedLine(slug) in lines <==> ClosedFirst(f.meta, waves, slug) || (closed && !tracked && !claimed))
  {
    hide InRosterWave, InClosedWave, ClosedFirst, Lists, HasState, WaveParts, Unwaved, Legacy;
    var t := WaveParts(f.meta, slugs, f.meta.waves);
    SortedIsDistinct(f, slugs);
    WavePartsKinds(f.meta, slugs, f.meta.waves, slug);
    WavePartsCount(f.meta, slugs, f.meta.waves, slug);
    UnwavedKinds(t.seen, f.meta.closed, slugs, slug);
    LegacyKinds(t.seen, slugs, f.meta.closed, slug);
  }

  lemma NotListed(closed: seq<ClosedEntry>, slug: string)
    ensures !Lists(closed, slug) ==> forall i | 0 <= i < |closed| :: closed[i].slug != slug
  {}

  /** The omission is reached by one command: closing without archiving a live slug whose wave is not a known one. */
  lemma HalfCloseDropsUnwavedSlug(f: FleetState, slug: string, note: string, ts: string)
    requires HasState(f, slug) && slug in f.meta.roster && slug !in f.archive && !Lists(f.meta.closed, slug)
    requires forall i | 0 <= i < |f.meta.waves| :: f.meta.waves[i].id != f.meta.roster[slug].wave
    ensures var half := Apply(f, DoClose(slug, Options(note, true, None), ts));
      HasState(half, slug) && Dropped(half, slug)
  {
    var o := Options(note, true, None);
    var half := ClosedFleet(f, slug, o, ts);
    HalfCloseLists(f, slug, o, ts);
    NotListed(f.meta.closed, slug);
    forall j: nat
      ensures !ClosedWave(half.meta, half.meta.waves, slug, j)
    {
      forall i | 0 <= i < |half.meta.closed| && half.meta.closed[i].slug == slug
        ensures half.meta.closed[i].wave == f.meta.roster[slug].wave
      {
        assert half.meta.closed == f.meta.closed + [EntryFor(f, slug, note, ts)];
      }
    }
  }
}
