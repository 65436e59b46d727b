/** The chain manifest: phase rows, and the paused-time accumulator. */
module Manifest {
  import opened Optional

  // The code is in bin/_chain_overnight/manifest.py. Times on disk are whole seconds: every stamp truncates the
  // clock. Each writer reads the payload, changes it and writes it back under an exclusive file lock, so one
  // method call is one atomic step.

  datatype Error = NotFound | ChainMismatch | AlreadyPaused | NotPaused | BadPhase | BadSource | NoOpenEntry

  /** ended is None until the driver stamps the exit. */
  datatype Entry = Entry(phase: int, session: string, chain: string, source: string, started: int,
                         ended: Option<int>, exitCode: int)

  datatype Payload = Payload(chain: string, phases: seq<Entry>, total: int, since: Option<int>)

  const ALLOWED_SOURCE := {"chain", "clear", "compact", "resume"}

  function Max(a: int, b: int): int {
    if a < b then b else a
  }

  // ---------- Paused time ----------

  /** stamp_pause_start on a payload. */
  function Opened(p: Payload, chain: string, when: int): Result<Payload, Error> {
    if p.chain != chain then Err(ChainMismatch)
    else if p.since.Some? then Err(AlreadyPaused)
    else Ok(p.(since := Some(when)))
  }

  /** stamp_pause_end on a payload. */
  function Closed(p: Payload, chain: string, when: int): Result<Payload, Error> {
    if p.chain != chain then Err(ChainMismatch)
    else if p.since.None? then Err(NotPaused)
    else Ok(p.(total := p.total + Max(0, when - p.since.value), since := None))
  }

  // ---------- Phase rows ----------

  predicate IsOpen(e: Entry, session: string) {
    e.session == session && e.ended.None?
  }

  /** i is the last open row of the session. */
  ghost predicate LatestOpen(phases: seq<Entry>, session: string, i: nat) {
    && i < |phases| && IsOpen(phases[i], session)
    && forall j | i < j < |phases| :: !IsOpen(phases[j], session)
  }

  function Ended(e: Entry, when: int, code: int): Entry {
    e.(ended := Some(when), exitCode := code)
  }

  function Appended(p: Payload, e: Entry): Payload {
    p.(phases := p.phases + [e])
  }

  ghost predicate ExitStamped(before: Payload, after: Payload, session: string, when: int, code: int) {
    exists i: nat | LatestOpen(before.phases, session, i) ::
      after == before.(phases := before.phases[i := Ended(before.phases[i], when, code)])
  }

  /** chain-pause: the phase the driver enters next, as far as the manifest shows. */
  function NextPhaseToEnter(phases: seq<Entry>): int {
    if phases == [] then 2
    else
      var last := phases[|phases| - 1];
      if last.ended.Some? then last.phase + 1 else last.phase
  }

  // ---------- The file ----------

  class ManifestFile {
    var payload: Option<Payload>

    constructor ()
      ensures payload == None
    {
      payload := None;
    }

    method StampChainStart(chain: string)
      modifies this
      ensures payload.Some? && payload.value.chain == chain
      ensures old(payload.Some? && payload.value.chain == chain) ==> payload == old(payload)
      ensures !old(payload.Some? && payload.value.chain == chain) ==> payload == Some(Payload(chain, [], 0, None))
    {
      if payload.Some? && payload.value.chain == chain {
        return;
      }
      payload := Some(Payload(chain, [], 0, None));
    }

    method AppendPhaseBootstrap(phase: int, session: string, chain: string, source: string, started: int)
        returns (r: Result<Entry, Error>)
      modifies this
      ensures r.Err? ==> payload == old(payload)
      ensures !(2 <= phase <= 5) ==> r == Err(BadPhase)
      ensures 2 <= phase <= 5 && source !in ALLOWED_SOURCE ==> r == Err(BadSource)
      ensures 2 <= phase <= 5 && source in ALLOWED_SOURCE ==> r.Ok? == old(payload).Some?
      ensures r.Err? && 2 <= phase <= 5 && source in ALLOWED_SOURCE ==> r.error == NotFound
      ensures r.Ok? ==> old(payload).Some? && r.value == Entry(phase, session, chain, source, started, None, 0)
      ensures r.Ok? ==> payload == Some(Appended(old(payload).value, r.value))
    {
      if !(2 <= phase <= 5) {
        return Err(BadPhase);
      }
      if source !in ALLOWED_SOURCE {
        return Err(BadSource);
      }
      if payload.None? {
        return Err(NotFound);
      }
      var entry := Entry(phase, session, chain, source, started, None, 0);
      payload := Some(Appended(payload.value, entry));
      r := Ok(entry);
    }

    /** The backward search stamps exactly the latest open row of the session. */
    method StampPhaseExit(session: string, when: int, code: int) returns (r: Result<Payload, Error>)
      modifies this
      ensures old(payload).None? ==> r == Err(NotFound)
      ensures r.Err? ==> payload == old(payload)
      ensures r.Err? && old(payload).Some? ==> r.error == NoOpenEntry
      ensures r == Err(NoOpenEntry) ==> old(payload).Some? && (forall e | e in old(payload).value.phases ::
        e.session == session ==> e.ended.Some?)
      ensures r.Ok? ==> old(payload).Some? && payload == Some(r.value)
      ensures r.Ok? ==> ExitStamped(old(payload).value, r.value, session, when, code)
    {
      if payload.None? {
        return Err(NotFound);
      }
      var p := payload.value;
      var idx := |p.phases| - 1;
      while idx >= 0
        invariant -1 <= idx < |p.phases|
        invariant payload == old(payload) == Some(p)
        invariant forall j | idx < j < |p.phases| :: !IsOpen(p.phases[j], session)
      {
        if IsOpen(p.phases[idx], session) {
          assert LatestOpen(p.phases, session, idx);
          p := p.(phases := p.phases[idx := Ended(p.phases[idx], when, code)]);
          payload := Some(p);
          return Ok(p);
        }
        idx := idx - 1;
      }
      r := Err(NoOpenEntry);
    }

    method StampPauseStart(chain: string, now: real) returns (r: Result<Payload, Error>)
      modifies this
      ensures r == if old(payload).None? then Err(NotFound) else Opened(old(payload).value, chain, now.Floor)
      ensures payload == if r.Ok? then Some(r.value) else old(payload)
    {
      var when := now.Floor;
      if payload.None? {
        return Err(NotFound);
      }
      var p := payload.value;
      if p.chain != chain {
        return Err(ChainMismatch);
      }
      if p.since.Some? {
        return Err(AlreadyPaused);
      }
      p := p.(since := Some(when));
      payload := Some(p);
      r := Ok(p);
    }

    /** Returns the seconds added. */
    method StampPauseEnd(chain: string, now: real) returns (r: Result<int, Error>)
      modifies this
      ensures old(payload).None? ==> r == Err(NotFound) && payload == None
      ensures old(payload).Some? ==>
        var c := Closed(old(payload).value, chain, now.Floor);
        && r.Ok? == c.Ok?
        && payload == Some(if c.Ok? then c.value else old(payload).value)
        && (r.Ok? ==> r.value == payload.value.total - old(payload).value.total >= 0)
        && (r.Err? ==> r.error == c.error)
    {
      var when := now.Floor;
      if payload.None? {
        return Err(NotFound);
      }
      var p := payload.value;
      if p.chain != chain {
        return Err(ChainMismatch);
      }
      if p.since.None? {
        return Err(NotPaused);
      }
      var delta := Max(0, when - p.since.value);
      p := p.(total := p.total + delta, since := None);
      payload := Some(p);
      r := Ok(delta);
    }
  }

  // ---------- A phase's rows ----------

  /** The driver's bracket around a phase: the bootstrap row is the one its exit closes, whatever open
      rows of the same session earlier crashed attempts left behind; those stay as they were. While the phase
      runs chain-pause reports it as the next phase, and afterwards the one after it. */
  lemma ExitClosesItsOwnRow(p: Payload, e: Entry, after: Payload, when: int, code: int)
    requires e.ended.None? && ExitStamped(Appended(p, e), after, e.session, when, code)
    ensures after == Appended(p, Ended(e, when, code))
    ensures NextPhaseToEnter(Appended(p, e).phases) == e.phase
    ensures NextPhaseToEnter(after.phases) == e.phase + 1
  {
    var phases := p.phases + [e];
    assert IsOpen(phases[|p.phases|], e.session);
    assert LatestOpen(phases, e.session, |p.phases|);
    assert phases[|p.phases| := Ended(e, when, code)] == p.phases + [Ended(e, when, code)];
  }

  /** An exit changes one row, the last of its session that has no end, and of that row the end and the code only. */
  lemma ExitTouchesOneOpenRow(before: Payload, after: Payload, session: string, when: int, code: int) returns (i: nat)
    requires ExitStamped(before, after, session, when, code)
    ensures i < |before.phases| == |after.phases|
    ensures var (b, a) := (before.phases[i], after.phases[i]);
      && b.session == session && b.ended.None? && a.ended == Some(when) && a.exitCode == code
      && (a.phase, a.session, a.chain, a.source, a.started) == (b.phase, b.session, b.chain, b.source, b.started)
    ensures forall j | 0 <= j < |before.phases| && j != i :: after.phases[j] == before.phases[j]
    ensures forall j | i < j < |before.phases| && before.phases[j].session == session :: before.phases[j].ended.Some?
    ensures (after.chain, after.total, after.since) == (before.chain, before.total, before.since)
  {
    i :| LatestOpen(before.phases, session, i)
      && after == before.(phases := before.phases[i := Ended(before.phases[i], when, code)]);
  }

  /** Rows of the phases 2, 3, ... in order, every one but possibly the last with its exit stamped. */
  ghost predicate ChainRows(phases: seq<Entry>) {
    && (forall i | 0 <= i < |phases| :: phases[i].phase == 2 + i)
    && (forall i | 0 <= i < |phases| - 1 :: phases[i].ended.Some?)
  }

  function EndedRows(phases: seq<Entry>): nat {
    if phases == [] then 0
    else EndedRows(phases[..|phases| - 1]) + (if phases[|phases| - 1].ended.Some? then 1 else 0)
  }

  /** On the rows of a chain, chain-pause reports the first phase that has not ended, from phase 2 on an empty list. */
  lemma {:induction false} NextPhaseIsFirstNotEnded(phases: seq<Entry>)
    requires ChainRows(phases)
    ensures NextPhaseToEnter(phases) == 2 + EndedRows(phases)
    ensures forall i | 0 <= i < |phases| :: phases[i].ended.Some? <==> phases[i].phase < NextPhaseToEnter(phases)
  {
    if phases != [] {
      NextPhaseIsFirstNotEnded(phases[..|phases| - 1]);
    }
  }
}
