/** Recorded against real paused time, and the wall-clock cap. */
module PausedTime {
  import opened Optional
  import opened Manifest

  // The accounting is in bin/_chain_overnight/manifest.py, the cap in bin/_chain_overnight/cap_enforcement.py.

  // ---------- Runs of stamps ----------

  /** A call to stamp_pause_start or stamp_pause_end at a real instant. */
  datatype Stamp = PauseStart(chain: string, at: real) | PauseEnd(chain: string, at: real)

  datatype Span = Span(from: real, to: real)

  /** The manifest, with the instants at which windows were really opened and closed. */
  datatype History = History(payload: Payload, openedAt: Option<real>, closed: seq<Span>)

  /** Refused stamps change nothing. */
  function Apply(h: History, s: Stamp): History {
    match s
    case PauseStart(chain, at) =>
      var r := Opened(h.payload, chain, at.Floor);
      if r.Ok? then History(r.value, Some(at), h.closed) else h
    case PauseEnd(chain, at) =>
      var r := Closed(h.payload, chain, at.Floor);
      if r.Ok? && h.openedAt.Some? then History(r.value, None, h.closed + [Span(h.openedAt.value, at)]) else h
  }

  function ApplyAll(h: History, stamps: seq<Stamp>): History {
    if stamps == [] then h else Apply(ApplyAll(h, stamps[..|stamps| - 1]), stamps[|stamps| - 1])
  }

  /** The clock does not run backwards. */
  ghost predicate Ordered(stamps: seq<Stamp>) {
    forall i, j | 0 <= i < j < |stamps| :: stamps[i].at <= stamps[j].at
  }

  function Length(closed: seq<Span>): real {
    if closed == [] then 0.0 else Length(closed[..|closed| - 1]) + closed[|closed| - 1].to - closed[|closed| - 1].from
  }

  // ---------- The invariant ----------

  /** Windows come one after the other, and none starts before the last one closed. */
  ghost predicate Apart(closed: seq<Span>, openedAt: Option<real>, now: real) {
    && (forall i | 0 <= i < |closed| :: closed[i].from <= closed[i].to <= now)
    && (forall i, j | 0 <= i < j < |closed| :: closed[i].to <= closed[j].from)
    && (openedAt.Some? ==> openedAt.value <= now && forall i | 0 <= i < |closed| :: closed[i].to <= openedAt.value)
  }

  /** Less than a second of error per closed window, and none without windows. */
  predicate Close(total: int, start: int, length: real, windows: nat) {
    var error := (total - start) as real - length;
    if windows == 0 then error == 0.0 else -(windows as real) < error < windows as real
  }

  ghost predicate Faithful(h: History, start: int, now: real) {
    && h.payload.since == (if h.openedAt.Some? then Some(h.openedAt.value.Floor) else None)
    && Apart(h.closed, h.openedAt, now)
    && Close(h.payload.total, start, Length(h.closed), |h.closed|)
  }

  lemma TruncationError(from: real, to: real)
    ensures from <= to ==> to.Floor >= from.Floor && -1.0 < (to.Floor - from.Floor) as real - (to - from) < 1.0
  {}

  function Begin(payload: Payload): History {
    History(payload, None, [])
  }

  // ---------- Stamps out of clock order ----------

  // A caller reads the clock before it takes the file lock, so the stamps may be applied in another order than their
  // readings.

  function MaxReal(a: real, b: real): real {
    if a < b then b else a
  }

  /** The lengths of the windows, counting one whose end was read before its start as empty. */
  function Credit(closed: seq<Span>): real {
    if closed == [] then 0.0
    else
      var last := closed[|closed| - 1];
      Credit(closed[..|closed| - 1]) + MaxReal(0.0, last.to - last.from)
  }

  /** What survives whatever the order. */
  ghost predicate Counted(h: History, start: int) {
    && h.payload.since == (if h.openedAt.Some? then Some(h.openedAt.value.Floor) else None)
    && Close(h.payload.total, start, Credit(h.closed), |h.closed|)
  }

  lemma CreditGrows(total: int, start: int, length: real, windows: nat, from: real, to: real)
    requires Close(total, start, length, windows)
    ensures Close(total + Max(0, to.Floor - from.Floor), start, length + MaxReal(0.0, to - from), windows + 1)
  {
    assert (windows + 1) as real == windows as real + 1.0;
    if from <= to {
      TruncationError(from, to);
    } else {
      TruncationError(to, from);
    }
  }

  /** Over any run of stamps, in any order of their clock readings, the total has grown by the sum of the windows'
      lengths to within a second a window, and never shrinks. */
  lemma {:induction false} AccountingInAnyOrder(payload: Payload, stamps: seq<Stamp>)
    requires payload.since.None?
    ensures var h := ApplyAll(Begin(payload), stamps);
      Counted(h, payload.total) && h.payload.total >= payload.total
  {
    if stamps != [] {
      var n := |stamps| - 1;
      AccountingInAnyOrder(payload, stamps[..n]);
      var h, s := ApplyAll(Begin(payload), stamps[..n]), stamps[n];
      if s.PauseEnd? && h.openedAt.Some? && s.chain == h.payload.chain {
        CreditGrows(h.payload.total, payload.total, Credit(h.closed), |h.closed|, h.openedAt.value, s.at);
        var last := Span(h.openedAt.value, s.at);
        assert (h.closed + [last])[..|h.closed|] == h.closed;
      }
    }
  }

  // ---------- Stamps in clock order ----------

  /** In clock order no window is empty on that account, and the two accounts are one. */
  lemma {:induction false} CreditIsLength(closed: seq<Span>)
    requires forall i | 0 <= i < |closed| :: closed[i].from <= closed[i].to
    ensures Credit(closed) == Length(closed)
  {
    if closed != [] {
      CreditIsLength(closed[..|closed| - 1]);
    }
  }

  lemma StampKeepsApart(h: History, s: Stamp, now: real)
    requires Apart(h.closed, h.openedAt, now) && now <= s.at
    ensures Apart(Apply(h, s).closed, Apply(h, s).openedAt, s.at)
  {}

  lemma {:induction false} WindowsStayApart(payload: Payload, stamps: seq<Stamp>, now: real)
    requires Ordered(stamps) && forall i | 0 <= i < |stamps| :: stamps[i].at <= now
    ensures var h := ApplyAll(Begin(payload), stamps); Apart(h.closed, h.openedAt, now)
  {
    hide Apply;
    if stamps != [] {
      var n := |stamps| - 1;
      WindowsStayApart(payload, stamps[..n], stamps[n].at);
      StampKeepsApart(ApplyAll(Begin(payload), stamps[..n]), stamps[n], stamps[n].at);
    }
  }

  /** Main result: over any run of stamps from a manifest without an open window, accepted or refused,
      windows never overlap, `since` is set exactly while a window is open, and after k closed windows
      the total has grown by the true paused time to within k seconds. */
  lemma AccountingIsFaithful(payload: Payload, stamps: seq<Stamp>, now: real)
    requires payload.since.None? && Ordered(stamps)
    requires forall i | 0 <= i < |stamps| :: stamps[i].at <= now
    ensures Faithful(ApplyAll(Begin(payload), stamps), payload.total, now)
  {
    AccountingInAnyOrder(payload, stamps);
    WindowsStayApart(payload, stamps, now);
    CreditIsLength(ApplyAll(Begin(payload), stamps).closed);
  }

  /** The stamps accepted alternate: a start is accepted exactly when no window is open, an end exactly
      when one is, for the chain of the manifest. */
  lemma AcceptedExactlyWhenAlternating(h: History, s: Stamp, start: int, now: real)
    ensures Faithful(h, start, now) ==>
      (Apply(h, s) != h <==> s.chain == h.payload.chain && s.PauseStart? == h.openedAt.None?)
  {}

  // ---------- The wall-clock cap ----------

  function EffectiveElapsed(now: real, started: real, total: int, since: Option<int>): real {
    MaxReal(0.0, now - started - total as real - (if since.Some? then now - since.value as real else 0.0))
  }

  datatype CapVerdict = Pass(remaining: real) | WallClockExceeded(remaining: real)

  function CheckWallClockCap(now: real, started: real, cap: int, estimate: nat, total: int, since: Option<int>)
    : CapVerdict
  {
    var elapsed := EffectiveElapsed(now, started, total, since);
    var remaining := MaxReal(0.0, cap as real - elapsed);
    if elapsed + estimate as real > cap as real then WallClockExceeded(remaining) else Pass(remaining)
  }

  /** While a window is open the verdict does not change, however long the pause lasts. */
  lemma VerdictFrozenWhilePaused(now: real, later: real, started: real, cap: int, estimate: nat, total: int, since: int)
    ensures CheckWallClockCap(now, started, cap, estimate, total, Some(since))
         == CheckWallClockCap(later, started, cap, estimate, total, Some(since))
  {
    assert EffectiveElapsed(now, started, total, Some(since)) == EffectiveElapsed(later, started, total, Some(since));
  }

  /** A closed window shifts the verdict by exactly its recorded length. */
  lemma ClosedWindowShiftsVerdict(p: Payload, chain: string, when: int, now: real, started: real, cap: int,
      estimate: nat)
    requires Closed(p, chain, when).Ok?
    ensures var added := Closed(p, chain, when).value.total - p.total;
      CheckWallClockCap(now, started, cap, estimate, p.total + added, None)
      == CheckWallClockCap(now - added as real, started, cap, estimate, p.total, None)
  {
    var added := Closed(p, chain, when).value.total - p.total;
    assert EffectiveElapsed(now, started, p.total + added, None)
        == EffectiveElapsed(now - added as real, started, p.total, None);
  }

  /** Time the chain really ran since `started`. */
  function Unpaused(h: History, started: real, now: real): real {
    now - started - Length(h.closed) - (if h.openedAt.Some? then now - h.openedAt.value else 0.0)
  }

  function Windows(h: History): nat {
    |h.closed| + (if h.openedAt.Some? then 1 else 0)
  }

  lemma ElapsedIsCloseToUnpaused(h: History, start: int, started: real, now: real)
    requires Faithful(h, start, now)
    ensures var e := now - started - h.payload.total as real
        - (if h.payload.since.Some? then now - h.payload.since.value as real else 0.0);
      var u := Unpaused(h, started, now) - start as real;
      if Windows(h) == 0 then e == u else u - Windows(h) as real < e < u + Windows(h) as real
  {
    if h.openedAt.Some? {
      TruncationError(h.openedAt.value, now);
      assert (|h.closed| + 1) as real == |h.closed| as real + 1.0;
    }
  }

  /** `x`, but not below `low` and, if that leaves room, not above `high`. */
  function Between(low: real, x: real, high: real): real {
    MaxReal(low, if x <= high then x else high)
  }

  /** The seconds reported as remaining, and when the estimate fits into them. */
  lemma RemainingIsWhatIsLeft(now: real, started: real, cap: int, estimate: nat, total: int, since: Option<int>)
    ensures var v := CheckWallClockCap(now, started, cap, estimate, total, since);
      var counted := now - started - total as real - (if since.Some? then now - since.value as real else 0.0);
      && v.remaining == (if counted <= 0.0 then MaxReal(0.0, cap as real)
                         else if counted <= cap as real then cap as real - counted else 0.0)
      && (v.Pass? <==> estimate as real <= v.remaining && MaxReal(0.0, counted) <= cap as real)
  {}

  lemma LeftWithinSlack(e: real, u: real, cap: real, slack: real)
    requires u - slack <= e <= u + slack
    ensures var left := Between(0.0, cap - u, cap);
      left - slack <= MaxReal(0.0, cap - MaxReal(0.0, e)) <= left + slack
  {}

  /** The verdict and the remaining seconds, against the time `used` on the books of real time. */
  predicate Measures(verdict: CapVerdict, unpaused: real, estimate: nat, cap: int, start: int, slack: real) {
    var used, allowed := unpaused + estimate as real, (cap + start) as real;
    var left := Between(0.0, allowed - unpaused, cap as real);
    && (verdict.Pass? ==> used <= allowed + slack)
    && (used + slack <= allowed && estimate <= cap ==> verdict.Pass?)
    && (estimate > cap ==> verdict.WallClockExceeded?)
    && (slack == 0.0 ==> (verdict.Pass? <==> used <= allowed && estimate <= cap))
    && left - slack <= verdict.remaining <= left + slack
  }

  lemma VerdictMeasuresRunningTime(h: History, start: int, started: real, now: real, cap: int, estimate: nat)
    requires Faithful(h, start, now)
    ensures Measures(CheckWallClockCap(now, started, cap, estimate, h.payload.total, h.payload.since),
                     Unpaused(h, started, now), estimate, cap, start, Windows(h) as real)
  {
    hide Faithful, Unpaused, Windows, Between;
    ElapsedIsCloseToUnpaused(h, start, started, now);
    var e := now - started - h.payload.total as real
        - (if h.payload.since.Some? then now - h.payload.since.value as real else 0.0);
    var u := Unpaused(h, started, now) - start as real;
    assert cap as real - u == (cap + start) as real - Unpaused(h, started, now);
    LeftWithinSlack(e, u, cap as real, Windows(h) as real);
  }

  /** Main result: the cap measures the time really spent running, give or take a second per window. A driver
      that starts from a manifest whose total is already `start` (a resumed chain: its clock restarts, the
      total does not) gets exactly that many seconds on top. */
  lemma CapMeasuresRunningTime(payload: Payload, stamps: seq<Stamp>, started: real, now: real, cap: int, estimate: nat)
    requires payload.since.None? && Ordered(stamps)
    requires forall i | 0 <= i < |stamps| :: stamps[i].at <= now
    ensures var h := ApplyAll(Begin(payload), stamps);
      Measures(CheckWallClockCap(now, started, cap, estimate, h.payload.total, h.payload.since),
               Unpaused(h, started, now), estimate, cap, payload.total, Windows(h) as real)
  {
    hide Measures, CheckWallClockCap, Unpaused, Windows, Faithful;
    AccountingIsFaithful(payload, stamps, now);
    VerdictMeasuresRunningTime(ApplyAll(Begin(payload), stamps), payload.total, started, now, cap, estimate);
  }
}
