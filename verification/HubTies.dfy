/**
 The back-to-front loop of migrate is simultaneous replacement exactly when no two spans start at the
 same offset. The overlap check lets an empty span share its start with the next one; the reverse sort is
 stable, so tied spans are then spliced in their original order and the later one cuts into the earlier.
 */
module HubTies {
  import opened HubText
  import opened HubMigrate

  // ---------- Both sorts around one start ----------

  function Below(spans: seq<Span>, k: nat): seq<Span> {
    if spans == [] then []
    else if spans[|spans| - 1].from < k then Below(spans[..|spans| - 1], k) + [spans[|spans| - 1]]
    else Below(spans[..|spans| - 1], k)
  }

  function Equal(spans: seq<Span>, k: nat): seq<Span> {
    if spans == [] then []
    else if spans[|spans| - 1].from == k then Equal(spans[..|spans| - 1], k) + [spans[|spans| - 1]]
    else Equal(spans[..|spans| - 1], k)
  }

  function Above(spans: seq<Span>, k: nat): seq<Span> {
    if spans == [] then []
    else if spans[|spans| - 1].from > k then Above(spans[..|spans| - 1], k) + [spans[|spans| - 1]]
    else Above(spans[..|spans| - 1], k)
  }

  ghost predicate AllBelow(s: seq<Span>, k: nat) {
    forall i | 0 <= i < |s| :: s[i].from < k
  }

  ghost predicate AllAt(s: seq<Span>, k: nat) {
    forall i | 0 <= i < |s| :: s[i].from == k
  }

  ghost predicate AllAbove(s: seq<Span>, k: nat) {
    forall i | 0 <= i < |s| :: s[i].from > k
  }

  lemma {:induction false} PartsStand(spans: seq<Span>, k: nat)
    ensures AllBelow(Below(spans, k), k) && AllAt(Equal(spans, k), k) && AllAbove(Above(spans, k), k)
  {
    if spans != [] {
      PartsStand(spans[..|spans| - 1], k);
    }
  }

  lemma {:induction false} InsertUpLeft(a: seq<Span>, b: seq<Span>, x: Span)
    requires forall i | 0 <= i < |b| :: b[i].from > x.from
    ensures InsertUp(a + b, x) == InsertUp(a, x) + b
    decreases |b|
  {
    if b == [] {
      assert a + b == a;
    } else {
      var n := |b| - 1;
      assert (a + b)[..|a + b| - 1] == a + b[..n];
      InsertUpLeft(a, b[..n], x);
    }
  }

  lemma {:induction false} InsertUpRight(a: seq<Span>, b: seq<Span>, x: Span)
    requires forall i | 0 <= i < |a| :: a[i].from <= x.from
    ensures InsertUp(a + b, x) == a + InsertUp(b, x)
    decreases |b|
  {
    if b == [] {
      assert a + b == a;
    } else {
      var n := |b| - 1;
      assert (a + b)[..|a + b| - 1] == a + b[..n];
      InsertUpRight(a, b[..n], x);
    }
  }

  lemma {:induction false} InsertDownLeft(a: seq<Span>, b: seq<Span>, x: Span)
    requires forall i | 0 <= i < |b| :: b[i].from < x.from
    ensures InsertDown(a + b, x) == InsertDown(a, x) + b
    decreases |a|
  {
    if a == [] {
      assert a + b == b;
    } else if a[0].from >= x.from {
      assert (a + b)[1..] == a[1..] + b;
      InsertDownLeft(a[1..], b, x);
    } else {
      assert [x] + (a + b) == ([x] + a) + b;
    }
  }

  lemma {:induction false} InsertDownRight(a: seq<Span>, b: seq<Span>, x: Span)
    requires forall i | 0 <= i < |a| :: a[i].from >= x.from
    ensures InsertDown(a + b, x) == a + InsertDown(b, x)
    decreases |a|
  {
    if a == [] {
      assert a + b == b;
    } else {
      assert (a + b)[1..] == a[1..] + b;
      InsertDownRight(a[1..], b, x);
    }
  }

  lemma SortUpAll(s: seq<Span>, k: nat)
    ensures AllBelow(s, k) ==> AllBelow(SortUp(s), k)
    ensures AllAbove(s, k) ==> AllAbove(SortUp(s), k)
  {
    SortUpMembers(s);
    var up := SortUp(s);
    forall i | 0 <= i < |up|
      ensures up[i] in s
    {
      assert up[i] in up;
    }
  }

  lemma SortDownAll(s: seq<Span>, k: nat)
    ensures AllBelow(s, k) ==> AllBelow(SortDown(s), k)
    ensures AllAbove(s, k) ==> AllAbove(SortDown(s), k)
  {
    SortDownMembers(s);
    var down := SortDown(s);
    forall i | 0 <= i < |down|
      ensures down[i] in s
    {
      assert down[i] in down;
    }
  }

  lemma LastPart(s: seq<Span>, x: Span)
    ensures (s + [x])[..|s|] == s
  {}

  lemma Assoc(a: seq<Span>, b: seq<Span>, c: seq<Span>)
    ensures (a + b) + c == a + (b + c)
  {}

  lemma UpStep(b: seq<Span>, e: seq<Span>, a: seq<Span>, x: Span, k: nat)
    requires AllBelow(b, k) && AllAt(e, k) && AllAbove(a, k)
    ensures x.from < k ==> InsertUp(b + e + a, x) == InsertUp(b, x) + e + a
    ensures x.from == k ==> InsertUp(b + e + a, x) == b + (e + [x]) + a
    ensures x.from > k ==> InsertUp(b + e + a, x) == b + e + InsertUp(a, x)
  {
    if x.from < k {
      Assoc(b, e, a);
      InsertUpLeft(b, e + a, x);
      Assoc(InsertUp(b, x), e, a);
    } else if x.from == k {
      InsertUpLeft(b + e, a, x);
      InsertUpRight(b + e, [], x);
      assert b + e + [] == b + e;
      Assoc(b, e, [x]);
    } else {
      InsertUpRight(b + e, a, x);
    }
  }

  lemma DownStep(b: seq<Span>, e: seq<Span>, a: seq<Span>, x: Span, k: nat)
    requires AllBelow(b, k) && AllAt(e, k) && AllAbove(a, k)
    ensures x.from < k ==> InsertDown(a + e + b, x) == a + e + InsertDown(b, x)
    ensures x.from == k ==> InsertDown(a + e + b, x) == a + (e + [x]) + b
    ensures x.from > k ==> InsertDown(a + e + b, x) == InsertDown(a, x) + e + b
  {
    if x.from < k {
      InsertDownRight(a + e, b, x);
    } else if x.from == k {
      InsertDownLeft(a + e, b, x);
      InsertDownRight(a + e, [], x);
      assert a + e + [] == a + e;
      Assoc(a, e, [x]);
    } else {
      Assoc(a, e, b);
      InsertDownLeft(a, e + b, x);
      Assoc(InsertDown(a, x), e, b);
    }
  }

  lemma {:induction false} SortUpSplits(spans: seq<Span>, k: nat)
    ensures SortUp(spans) == SortUp(Below(spans, k)) + Equal(spans, k) + SortUp(Above(spans, k))
  {
    hide InsertUp, AllBelow, AllAt, AllAbove;
    if spans != [] {
      var init, x := spans[..|spans| - 1], spans[|spans| - 1];
      var b, e, a := Below(init, k), Equal(init, k), Above(init, k);
      SortUpSplits(init, k);
      PartsStand(init, k);
      SortUpAll(b, k);
      SortUpAll(a, k);
      UpStep(SortUp(b), e, SortUp(a), x, k);
      if x.from < k {
        LastPart(b, x);
      } else if x.from > k {
        LastPart(a, x);
      }
    }
  }

  lemma {:induction false} SortDownSplits(spans: seq<Span>, k: nat)
    ensures SortDown(spans) == SortDown(Above(spans, k)) + Equal(spans, k) + SortDown(Below(spans, k))
  {
    hide InsertDown, AllBelow, AllAt, AllAbove;
    if spans != [] {
      var init, x := spans[..|spans| - 1], spans[|spans| - 1];
      var b, e, a := Below(init, k), Equal(init, k), Above(init, k);
      SortDownSplits(init, k);
      PartsStand(init, k);
      SortDownAll(b, k);
      SortDownAll(a, k);
      DownStep(SortDown(b), e, SortDown(a), x, k);
      if x.from < k {
        LastPart(b, x);
      } else if x.from > k {
        LastPart(a, x);
      }
    }
  }

  // ---------- What stands at the tied start ----------

  lemma SpliceKeepsPrefix(t: string, s: Span, k: nat, block: Zone -> string)
    requires k <= |t| && k <= s.from
    ensures k <= |Splice(t, s, block)| && Splice(t, s, block)[..k] == t[..k]
  {
    var head := Upto(t, s.from);
    var rest := "\n\n" + block(s.zone) + "\n\n" + Since(t, s.to);
    assert head[..k] == t[..k];
    PrefixOf(head, "\n\n", block(s.zone), "\n\n", Since(t, s.to), k);
  }

  lemma PrefixOf(a: string, b: string, c: string, d: string, e: string, k: nat)
    ensures k <= |a| ==> (a + b + c + d + e)[..k] == a[..k]
  {}

  /** Splices at or after k leave the text before k alone. */
  lemma {:induction false} SpliceAllKeepsPrefix(t: string, spans: seq<Span>, k: nat, block: Zone -> string)
    requires k <= |t| && forall i | 0 <= i < |spans| :: k <= spans[i].from
    ensures k <= |SpliceAll(t, spans, block)| && SpliceAll(t, spans, block)[..k] == t[..k]
    decreases |spans|
  {
    if spans != [] {
      SpliceKeepsPrefix(t, spans[0], k, block);
      SpliceAllKeepsPrefix(Splice(t, spans[0], block), spans[1..], k, block);
    }
  }

  /** `t` continues after its first k characters with the block of z. */
  ghost predicate Continues(t: string, k: nat, z: Zone, block: Zone -> string) {
    exists rest :: k <= |t| && t[k..] == "\n\n" + block(z) + "\n\n" + rest
  }

  lemma SpliceContinues(t: string, s: Span, block: Zone -> string)
    requires s.from <= |t|
    ensures Continues(Splice(t, s, block), s.from, s.zone, block)
  {
    var rest := Since(t, s.to);
    SuffixOf(t[..s.from], "\n\n", block(s.zone), "\n\n", rest);
  }

  lemma SuffixOf(a: string, b: string, c: string, d: string, e: string)
    ensures (a + b + c + d + e)[|a|..] == b + c + d + e
  {}

  /** Splicing the later spans and then the tied ones leaves the last tied block at their start. */
  lemma TiedSplices(t: string, a: seq<Span>, e: seq<Span>, k: nat, block: Zone -> string)
    requires k <= |t| && AllAbove(a, k) && AllAt(e, k) && e != []
    ensures var t' := SpliceAll(SpliceAll(t, a, block), e, block);
      k <= |t'| && t'[..k] == t[..k] && Continues(t', k, e[|e| - 1].zone, block)
  {
    hide Splice, Continues;
    var m := |e| - 1;
    var t1 := SpliceAll(t, a, block);
    var t2 := SpliceAll(t1, e[..m], block);
    SpliceAllKeepsPrefix(t, a, k, block);
    SpliceAllKeepsPrefix(t1, e[..m], k, block);
    assert e == e[..m] + [e[m]];
    SpliceAllConcat(t1, e[..m], [e[m]], block);
    OneSplice(t2, e[m], block);
    SpliceKeepsPrefix(t2, e[m], k, block);
    SpliceContinues(t2, e[m], block);
  }

  /** In the spliced text the last of the tied blocks comes first. */
  lemma LastTieComesFirst(t: string, spans: seq<Span>, k: nat, block: Zone -> string)
    requires k <= |t| && Equal(spans, k) != []
    requires Fit(SortUp(Below(spans, k)), k) && DistinctStarts(Below(spans, k))
    ensures var done := AllAtOnce(t, SortUp(Below(spans, k)), k, block);
      var result := SpliceAll(t, SortDown(spans), block);
      var e := Equal(spans, k);
      && |done| <= |result| && result[..|done|] == done
      && Continues(result, |done|, e[|e| - 1].zone, block)
  {
    var a, e, b := SortDown(Above(spans, k)), Equal(spans, k), SortDown(Below(spans, k));
    PartsStand(spans, k);
    SortDownAll(Above(spans, k), k);
    SortDownSplits(spans, k);
    SpliceAllConcat(t, a + e, b, block);
    SpliceAllConcat(t, a, e, block);
    TiedSplices(t, a, e, k, block);
    BelowTheTie(t, SpliceAll(t, a + e, block), Below(spans, k), k, e[|e| - 1].zone, block);
  }

  lemma OneSplice(t: string, s: Span, block: Zone -> string)
    ensures SpliceAll(t, [s], block) == Splice(t, s, block)
  {
    assert [s][1..] == [];
    assert SpliceAll(Splice(t, s, block), [], block) == Splice(t, s, block);
  }

  lemma BelowTheTie(t: string, t': string, below: seq<Span>, k: nat, z: Zone, block: Zone -> string)
    requires k <= |t| && k <= |t'| && t'[..k] == t[..k] && Continues(t', k, z, block)
    requires Fit(SortUp(below), k) && DistinctStarts(below)
    ensures var done := AllAtOnce(t, SortUp(below), k, block);
      var result := SpliceAll(t', SortDown(below), block);
      |done| <= |result| && result[..|done|] == done && Continues(result, |done|, z, block)
  {
    var up := SortUp(below);
    var p, q := t'[..k], t'[k..];
    assert t' == p + q;
    SortsMirror(below);
    SpliceAllPrefix(p, q, up, block);
    BackToFront(p, up, block);
    AllAtOnceLocal(t, p, up, k, block);
    var done := AllAtOnce(t, up, k, block);
    assert (done + q)[|done|..] == q;
  }

  /** Replaced all at once, the first of the tied blocks comes first. */
  lemma {:induction false} AllAtOnceSplits(t: string, a: seq<Span>, s: Span, b: seq<Span>, end: nat,
      block: Zone -> string)
    requires Fit(a + [s] + b, end) && end <= |t|
    ensures Fit(a, s.from) && s.from <= |t|
    ensures var done := AllAtOnce(t, a, s.from, block);
      var result := AllAtOnce(t, a + [s] + b, end, block);
      |done| <= |result| && result[..|done|] == done && Continues(result, |done|, s.zone, block)
    decreases |b|
  {
    hide FromSpan, Continues;
    var up := a + [s] + b;
    var done := AllAtOnce(t, FitPrefix(a, s, b, end), s.from, block);
    if b == [] {
      assert up[|up| - 1] == s && up[..|up| - 1] == a;
      SpanFollows(t, done, s, end, block);
    } else {
      var n := |b| - 1;
      assert up[|up| - 1] == b[n] && up[..|up| - 1] == a + [s] + b[..n];
      AllAtOnceSplits(t, a, s, b[..n], b[n].from, block);
      Extend(AllAtOnce(t, a + [s] + b[..n], b[n].from, block), FromSpan(t, b[n], end, block), |done|, s.zone, block);
    }
  }

  lemma SpanFollows(t: string, done: string, s: Span, end: nat, block: Zone -> string)
    requires s.to <= end <= |t|
    ensures var r := done + FromSpan(t, s, end, block);
      r[..|done|] == done && Continues(r, |done|, s.zone, block)
  {
    var r := done + FromSpan(t, s, end, block);
    assert r[|done|..] == "\n\n" + block(s.zone) + "\n\n" + t[s.to..end];
  }

  function FitPrefix(a: seq<Span>, s: Span, b: seq<Span>, end: nat): (r: seq<Span>)
    requires Fit(a + [s] + b, end)
    ensures r == a && Fit(a, s.from) && s.from <= end
  {
    var up := a + [s] + b;
    assert up[|a|] == s && forall i | 0 <= i < |a| :: up[i] == a[i];
    a
  }

  lemma Extend(r: string, tail: string, k: nat, z: Zone, block: Zone -> string)
    requires k <= |r| && Continues(r, k, z, block)
    ensures (r + tail)[..k] == r[..k] && Continues(r + tail, k, z, block)
  {
    var rest :| r[k..] == "\n\n" + block(z) + "\n\n" + rest;
    assert (r + tail)[k..] == r[k..] + tail;
    assert (r + tail)[k..] == "\n\n" + block(z) + "\n\n" + (rest + tail);
  }

  // ---------- The blocks tell ----------

  ghost predicate Telling(block: Zone -> string) {
    forall z, z', r, r' | block(z) + "\n\n" + r == block(z') + "\n\n" + r' :: z == z'
  }

  lemma ContinuesTells(t: string, k: nat, z: Zone, z': Zone, block: Zone -> string)
    requires Telling(block) && Continues(t, k, z, block) && Continues(t, k, z', block)
    ensures z == z'
  {
    var r :| t[k..] == "\n\n" + block(z) + "\n\n" + r;
    var r' :| t[k..] == "\n\n" + block(z') + "\n\n" + r';
    DropTwo("\n\n", block(z) + "\n\n" + r, block(z') + "\n\n" + r');
    Group("\n\n", block(z), r);
    Group("\n\n", block(z'), r');
  }

  lemma Group(n: string, b: string, r: string)
    ensures n + b + n + r == n + (b + n + r)
  {}

  lemma DropTwo(n: string, a: string, b: string)
    ensures n + a == n + b ==> a == b
  {
    assert (n + a)[|n|..] == a && (n + b)[|n|..] == b;
  }

  lemma FirstNewline(a: string, r: string, k: nat)
    requires '\n' !in a && k <= |a|
    ensures (a + "\n" + r)[k] == '\n' <==> k == |a|
  {
    if k < |a| {
      assert (a + "\n" + r)[k] == a[k];
    }
  }

  lemma FirstLine(a: string, r: string, b: string, r': string)
    requires '\n' !in a && '\n' !in b && a + "\n" + r == b + "\n" + r'
    ensures a == b
  {
    var t := a + "\n" + r;
    var k := if |a| < |b| then |a| else |b|;
    FirstNewline(a, r, k);
    FirstNewline(b, r', k);
    assert t[..|a|] == a && (b + "\n" + r')[..|b|] == b;
  }

  lemma BlocksTell(mk: Markers)
    ensures Telling(mk.Block)
  {
    forall z, z', r, r' | mk.Block(z) + "\n\n" + r == mk.Block(z') + "\n\n" + r'
      ensures z == z'
    {
      BlockTells(mk, z, z', r, r');
    }
  }

  lemma BlockTells(mk: Markers, z: Zone, z': Zone, r: string, r': string)
    requires mk.Block(z) + "\n\n" + r == mk.Block(z') + "\n\n" + r'
    ensures z == z'
  {
    FramedIsOneLine(mk.begin(z));
    FramedIsOneLine(mk.begin(z'));
    Lines(mk.begin(z), mk.end(z), r);
    Lines(mk.begin(z'), mk.end(z'), r');
    FirstLine(mk.begin(z), mk.end(z) + "\n\n" + r, mk.begin(z'), mk.end(z') + "\n\n" + r');
    
  }

  lemma Lines(b: string, e: string, r: string)
    ensures b + "\n" + e + "\n\n" + r == b + "\n" + (e + "\n\n" + r)
  {}

  // ---------- The lowest tie ----------

  ghost predicate DistinctZones(spans: seq<Span>) {
    forall j, k | 0 <= j < k < |spans| :: spans[j].zone != spans[k].zone
  }

  lemma {:induction false} EqualZonesDistinct(spans: seq<Span>, k: nat)
    requires DistinctZones(spans)
    ensures DistinctZones(Equal(spans, k))
    ensures forall s | s in Equal(spans, k) :: s in spans
  {
    if spans != [] {
      var n := |spans| - 1;
      EqualZonesDistinct(spans[..n], k);
      var e := Equal(spans[..n], k);
      forall i | 0 <= i < |e|
        ensures e[i].zone != spans[n].zone
      {
        assert e[i] in spans[..n];
      }
    }
  }

  lemma {:induction false} EqualCounts(spans: seq<Span>, k: nat, i: nat)
    requires i < |spans| && spans[i].from == k
    ensures |Equal(spans, k)| >= 1
    ensures (exists j :: 0 <= j < i && spans[j].from == k) ==> |Equal(spans, k)| >= 2
  {
    var n := |spans| - 1;
    if i < n {
      EqualCounts(spans[..n], k, i);
    } else if j :| 0 <= j < i && spans[j].from == k {
      EqualCounts(spans[..n], k, j);
    }
  }

  ghost predicate TiedAt(spans: seq<Span>, k: nat) {
    exists i, j :: 0 <= j < i < |spans| && spans[i].from == spans[j].from == k
  }

  lemma {:induction false} LowestTie(spans: seq<Span>, bound: nat) returns (k: nat)
    requires exists l: nat :: l <= bound && TiedAt(spans, l)
    ensures TiedAt(spans, k) && k <= bound && forall l: nat | l < k :: !TiedAt(spans, l)
  {
    if bound > 0 && exists l: nat :: l <= bound - 1 && TiedAt(spans, l) {
      k := LowestTie(spans, bound - 1);
    } else {
      k := bound;
    }
  }

  lemma TieInPrefix(spans: seq<Span>, n: nat, l: nat)
    requires n <= |spans|
    ensures TiedAt(spans[..n], l) ==> TiedAt(spans, l)
  {
    if TiedAt(spans[..n], l) {
      var i, j :| 0 <= j < i < n && spans[..n][i].from == spans[..n][j].from == l;
      assert spans[i].from == spans[j].from == l;
    }
  }

  lemma {:induction false} BelowIsDistinct(spans: seq<Span>, k: nat)
    requires forall l: nat | l < k :: !TiedAt(spans, l)
    ensures DistinctStarts(Below(spans, k))
    ensures forall s | s in Below(spans, k) :: s in spans && s.from < k
  {
    if spans != [] {
      var n := |spans| - 1;
      forall l: nat | l < k
        ensures !TiedAt(spans[..n], l)
      {
        TieInPrefix(spans, n, l);
      }
      BelowIsDistinct(spans[..n], k);
      var b := Below(spans[..n], k);
      if spans[n].from < k {
        forall i | 0 <= i < |b|
          ensures b[i].from != spans[n].from
        {
          assert b[i] in spans[..n];
          var j :| 0 <= j < n && spans[..n][j] == b[i];
          assert spans[j].from == spans[n].from ==> TiedAt(spans, spans[n].from);
        }
      }
    }
  }

  lemma FirstTieComesFirst(t: string, a: seq<Span>, e: seq<Span>, b: seq<Span>, k: nat, block: Zone -> string)
    requires Fit(a + e + b, |t|) && e != [] && e[0].from == k
    ensures Fit(a, k) && k <= |t|
    ensures Continues(AllAtOnce(t, a + e + b, |t|, block), |AllAtOnce(t, a, k, block)|, e[0].zone, block)
  {
    assert a + e + b == a + [e[0]] + (e[1..] + b);
    AllAtOnceSplits(t, a, e[0], e[1..] + b, |t|, block);
  }

  /** The two texts continue with different blocks after as many characters. */
  ghost predicate Diverge(r: string, r': string, block: Zone -> string) {
    exists k: nat, z, z' :: z != z' && Continues(r, k, z, block) && Continues(r', k, z', block)
  }

  lemma TieAt(t: string, spans: seq<Span>, k: nat, block: Zone -> string)
    requires Fit(SortUp(spans), |t|)
    requires |Equal(spans, k)| >= 2 && DistinctZones(Equal(spans, k))
    requires DistinctStarts(Below(spans, k))
    ensures Diverge(SpliceAll(t, SortDown(spans), block), AllAtOnce(t, SortUp(spans), |t|, block), block)
  {
    var a, e, b := SortUp(Below(spans, k)), Equal(spans, k), SortUp(Above(spans, k));
    PartsStand(spans, k);
    SortUpSplits(spans, k);
    FirstTieComesFirst(t, a, e, b, k, block);
    LastTieComesFirst(t, spans, k, block);
    var z, z' := e[|e| - 1].zone, e[0].zone;
    assert z != z';
  }

  lemma DivergingTextsDiffer(r: string, r': string, block: Zone -> string)
    requires Telling(block) && Diverge(r, r', block)
    ensures r != r'
  {
    var k: nat, z, z' :| z != z' && Continues(r, k, z, block) && Continues(r', k, z', block);
    if r == r' {
      ContinuesTells(r, k, z, z', block);
    }
  }

  lemma TieBreaks(t: string, spans: seq<Span>, block: Zone -> string)
    requires Fit(SortUp(spans), |t|) && DistinctZones(spans) && !DistinctStarts(spans)
    ensures Diverge(SpliceAll(t, SortDown(spans), block), AllAtOnce(t, SortUp(spans), |t|, block), block)
  {
    var j, i :| 0 <= j < i < |spans| && spans[j].from == spans[i].from;
    assert TiedAt(spans, spans[i].from);
    var k := LowestTie(spans, spans[i].from);
    var i', j' :| 0 <= j' < i' < |spans| && spans[i'].from == spans[j'].from == k;
    EqualCounts(spans, k, i');
    EqualZonesDistinct(spans, k);
    BelowIsDistinct(spans, k);
    TieAt(t, spans, k, block);
  }

  /** Main result: for verified spans the back-to-front loop replaces them all at once exactly when no two of
      them start at the same offset. */
  lemma SimultaneousIffDistinctStarts(mk: Markers, t: string, spans: seq<Span>)
    requires InRange(spans, |t|) && !Overlapping(SortUp(spans)) && DistinctZones(spans)
    ensures Fit(SortUp(spans), |t|)
    ensures SpliceAll(t, SortDown(spans), mk.Block) == AllAtOnce(t, SortUp(spans), |t|, mk.Block)
        <==> DistinctStarts(spans)
  {
    SortUpInRange(spans, |t|);
    SortUpAscends(spans);
    NoOverlapFits(SortUp(spans), |t|);
    if DistinctStarts(spans) {
      SplicingIsSimultaneous(mk, t, spans);
    } else {
      BlocksTell(mk);
      TieBreaks(t, spans, mk.Block);
      DivergingTextsDiffer(SpliceAll(t, SortDown(spans), mk.Block), AllAtOnce(t, SortUp(spans), |t|, mk.Block),
          mk.Block);
    }
  }
}
