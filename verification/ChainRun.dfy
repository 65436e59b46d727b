/** One run of the chain driver (bin/_chain_overnight/main.py). */
module ChainRun {
  import opened Optional

  // From the acquired lock to the exit code: the phase loop, the finalizer and the transition rows
  // (phase_spawn.py, state_machine.py). The outside world is a parameter: what the cap check, the foreign-lock
  // check, the phase itself and the sealed-path scan answer, and where an exception or a signal unwinds the run.

  // ---------- Phases ----------

  datatype Verdict =
    | Passed
    | AtomicWriteFailed
    | VerifyPlanRejected
    | RetryExceeded
    | PhaseBoundaryHalt
    | WallClockExceeded
    | ConcurrentChainRefused

  datatype PhaseResult = PhaseResult(verdict: Verdict, exitCode: int, phase: int)

  const EXIT_OK := 0
  const EXIT_DRIVER_CRASH := 2
  const EXIT_ATOMIC_WRITE_FAILED := 7
  const EXIT_SEALED_PATH_REFUSED := 9
  const EXIT_PHASE_BOUNDARY_HALT := 10
  const EXIT_WALL_CLOCK_CAP := 11
  const EXIT_VERIFY_PLAN_REJECTED := 16
  const EXIT_RETRY_EXCEEDED := 17
  const EXIT_OPERATOR_KILLED := 18
  const EXIT_CHAIN_FOREIGN_SENTINEL := 21

  datatype HaltReason =
    | PhaseSuccess
    | Halted(verdict: Verdict)
    | WallClock
    | ConcurrentChainForeign
    | SealedPathRefused
    | OperatorKilled

  /** Every way to halt has an exit code that no other has; a passed phase and a completed chain share 0. */
  predicate CodeFits(reason: HaltReason, code: int) {
    match reason
    case PhaseSuccess => code == 0
    case Halted(Passed) => code == 0
    case Halted(AtomicWriteFailed) => code == 7
    case SealedPathRefused => code == 9
    case Halted(PhaseBoundaryHalt) => code == 10
    case WallClock => code == 11
    case Halted(VerifyPlanRejected) => code == 16
    case Halted(RetryExceeded) => code == 17
    case OperatorKilled => code == 18
    case ConcurrentChainForeign => code == 21
    case Halted(_) => false
  }

  datatype PlannerReply = Emitted(written: bool, verifyExit: int) | EmissionExhausted

  datatype IterationResult = LoopPassed | HaltTampering | HaltCapExhausted | UnknownShape

  datatype LoopReply = SmokeFailed | ReviewerExhausted | Finished(result: IterationResult)

  /** spawn_planner_phase */
  function SpawnPlanner(phase: int, reply: PlannerReply): (r: PhaseResult)
    ensures r.verdict == Passed <==> r.exitCode == EXIT_OK
    ensures r.verdict == Passed <==> reply == Emitted(true, 0)
    ensures r.exitCode in {0, 7, 16} && (r.exitCode == 7 <==> reply.Emitted? && !reply.written)
    ensures CodeFits(Halted(r.verdict), r.exitCode)
  {
    match reply
    case EmissionExhausted => PhaseResult(VerifyPlanRejected, EXIT_VERIFY_PLAN_REJECTED, phase)
    case Emitted(false, _) => PhaseResult(AtomicWriteFailed, EXIT_ATOMIC_WRITE_FAILED, phase)
    case Emitted(true, verifyExit) =>
      if verifyExit != 0 then PhaseResult(VerifyPlanRejected, EXIT_VERIFY_PLAN_REJECTED, phase)
      else PhaseResult(Passed, EXIT_OK, phase)
  }

  /** spawn_retry_loop_phase */
  function SpawnRetryLoop(phase: int, reply: LoopReply): (r: PhaseResult)
    ensures r.verdict == Passed <==> r.exitCode == EXIT_OK
    ensures r.verdict == Passed <==> reply == Finished(LoopPassed)
    ensures r.exitCode in {0, 10, 16, 17} && (r.exitCode == 10 <==> reply == Finished(UnknownShape))
    ensures r.exitCode == 17 <==> reply.Finished? && (reply.result.HaltTampering? || reply.result.HaltCapExhausted?)
    ensures CodeFits(Halted(r.verdict), r.exitCode)
  {
    match reply
    case SmokeFailed => PhaseResult(VerifyPlanRejected, EXIT_VERIFY_PLAN_REJECTED, phase)
    case ReviewerExhausted => PhaseResult(VerifyPlanRejected, EXIT_VERIFY_PLAN_REJECTED, phase)
    case Finished(LoopPassed) => PhaseResult(Passed, EXIT_OK, phase)
    case Finished(HaltTampering) => PhaseResult(RetryExceeded, EXIT_RETRY_EXCEEDED, phase)
    case Finished(HaltCapExhausted) => PhaseResult(RetryExceeded, EXIT_RETRY_EXCEEDED, phase)
    case Finished(UnknownShape) => PhaseResult(PhaseBoundaryHalt, EXIT_PHASE_BOUNDARY_HALT, phase)
  }

  // ---------- The world of one run ----------

  /** What unwinds a run: an exception, SIGINT, or SIGTERM, whose handler sets the halt first. */
  datatype Unwind = Crash | Interrupt | Terminate

  datatype Turn = Turn(
    before: Option<Unwind>,   // between the top of the loop and the spawn
    capPasses: bool,
    lockIsOurs: bool,
    planner: PlannerReply,    // phases 2 and 3
    loop: LoopReply,          // phases 4 and 5
    during: Option<Unwind>,   // inside the phase
    after: Option<Unwind>,    // between the phase and its row
    scanClean: bool,
    late: Option<Late>)       // after a terminal row

  /** An unwind between a terminal row and the return, before or after the halt is set. */
  datatype Late = Late(why: Unwind, haltSet: bool)

  /** `done` is an unwind after the row of a completed chain. */
  datatype World = World(start: Option<Unwind>, turns: int -> Turn, finish: Option<Unwind>, done: Option<Late>)

  /** Phases 2 and 3 are planned, phases 4 and 5 run in the retry loop. */
  function ResultOf(phase: int, t: Turn): (r: PhaseResult)
    ensures phase in {2, 3} ==> (r.verdict == Passed <==> t.planner == Emitted(true, 0))
    ensures phase in {4, 5} ==> (r.verdict == Passed <==> t.loop == Finished(LoopPassed))
    ensures r.phase == phase && (r.verdict == Passed <==> r.exitCode == EXIT_OK)
        && CodeFits(Halted(r.verdict), r.exitCode)
  {
    if phase == 2 || phase == 3 then SpawnPlanner(phase, t.planner) else SpawnRetryLoop(phase, t.loop)
  }

  /** The phase passes and its scan is clean. */
  predicate CleanPass(phase: int, t: Turn) {
    && t.before.None? && t.during.None? && t.after.None?
    && t.capPasses && t.lockIsOurs && t.scanClean && ResultOf(phase, t).verdict == Passed
  }

  /** The phase runs to its end, whatever its verdict. */
  predicate Completes(t: Turn) {
    t.before.None? && t.capPasses && t.lockIsOurs && t.during.None?
  }

  // ---------- Transition rows ----------

  datatype Status = Ready | Wip | Done | Blocked | Deferred | Cancelled

  datatype Row = Row(from: Status, to: Status)

  /** _VERDICT_STATUS, on the verdicts the driver emits. */
  function StatusOf(v: Verdict): Status {
    match v
    case Passed => Wip
    case RetryExceeded => Deferred
    case _ => Blocked
  }

  /** From ready into wip, then along connected rows that stay in wip. */
  ghost predicate InProgress(rows: seq<Row>) {
    && rows != [] && rows[0] == Row(Ready, Wip)
    && forall i | 1 <= i < |rows| :: rows[i] == Row(Wip, Wip)
  }

  /** An in-progress path and one terminal row. */
  ghost predicate Terminated(rows: seq<Row>) {
    |rows| >= 2 && InProgress(rows[..|rows| - 1]) && rows[|rows| - 1].from == Wip && rows[|rows| - 1].to != Wip
  }

  class OrchestratorLog {
    var rows: seq<Row>

    constructor ()
      ensures rows == []
    {
      rows := [];
    }

    method Append(from: Status, to: Status)
      modifies this
      ensures rows == old(rows) + [Row(from, to)]
    {
      rows := rows + [Row(from, to)];
    }
  }

  // ---------- The finalizer ----------

  datatype Summary = Summary(reason: HaltReason, exitCode: int, results: seq<PhaseResult>)

  class ChainFinalizer {
    var haltReason: HaltReason
    var exitCode: int
    var phaseResults: seq<PhaseResult>
    var flushed: bool
    var summaries: seq<Summary>

    constructor ()
      ensures haltReason == PhaseSuccess && exitCode == EXIT_OK && phaseResults == []
      ensures !flushed && summaries == []
    {
      haltReason, exitCode, phaseResults, flushed, summaries := PhaseSuccess, EXIT_OK, [], false, [];
    }

    method NotePhaseResult(r: PhaseResult)
      modifies this`phaseResults
      ensures phaseResults == old(phaseResults) + [r]
    {
      phaseResults := phaseResults + [r];
    }

    method SetHalt(reason: HaltReason, code: int)
      modifies this`haltReason, this`exitCode
      ensures haltReason == reason && exitCode == code
    {
      haltReason, exitCode := reason, code;
    }

    /** Emits the summary the first time only. */
    method Flush()
      modifies this`flushed, this`summaries
      ensures flushed
      ensures summaries == if old(flushed) then old(summaries)
                           else old(summaries) + [Summary(haltReason, exitCode, phaseResults)]
    {
      if flushed {
        return;
      }
      flushed := true;
      summaries := summaries + [Summary(haltReason, exitCode, phaseResults)];
    }
  }

  /** _HALT_REASON_STATUS, on the reasons the driver sets. */
  function StatusOfHalt(r: HaltReason): (s: Status)
    ensures (s == Done <==> r == PhaseSuccess) && (s == Deferred <==> r == Halted(RetryExceeded))
    ensures (s == Cancelled <==> r == OperatorKilled) && s != Ready && s != Wip
  {
    match r
    case PhaseSuccess => Done
    case Halted(RetryExceeded) => Deferred
    case OperatorKilled => Cancelled
    case _ => Blocked
  }

  // ---------- The phase loop ----------

  /** Phases start, start + 1, ... in order, every one but possibly the last passed. */
  ghost predicate Block(results: seq<PhaseResult>, start: int) {
    && start + |results| <= 6
    && (forall i | 0 <= i < |results| :: results[i].phase == start + i)
    && (forall i | 0 <= i < |results| - 1 :: results[i].verdict == Passed)
  }

  ghost predicate AllPass(results: seq<PhaseResult>) {
    forall i | 0 <= i < |results| :: results[i].verdict == Passed
  }

  ghost predicate CleanFrom(world: World, start: int, end: int) {
    forall phase | start <= phase < end :: CleanPass(phase, world.turns(phase))
  }

  /** How the phase loop ends: with a code, or unwound. */
  datatype Ending = Returned(code: int) | Unwound(why: Unwind)

  /** SIGTERM sets the halt before it unwinds; an exception or SIGINT leaves it alone. */
  method UnwindWith(why: Unwind, finalizer: ChainFinalizer) returns (e: Ending)
    modifies finalizer`haltReason, finalizer`exitCode
    ensures e == Unwound(why)
    ensures why == Terminate ==> finalizer.haltReason == OperatorKilled && finalizer.exitCode == EXIT_OPERATOR_KILLED
    ensures why != Terminate ==>
      finalizer.haltReason == old(finalizer.haltReason) && finalizer.exitCode == old(finalizer.exitCode)
  {
    if why == Terminate {
      finalizer.SetHalt(OperatorKilled, EXIT_OPERATOR_KILLED);
    }
    e := Unwound(why);
  }

  /** From a terminal row to the return. */
  method Conclude(reason: HaltReason, code: int, late: Option<Late>, finalizer: ChainFinalizer) returns (e: Ending)
    modifies finalizer`haltReason, finalizer`exitCode
    ensures e == if late.Some? then Unwound(late.value.why) else Returned(code)
    ensures e == Unwound(Terminate) ==>
      finalizer.haltReason == OperatorKilled && finalizer.exitCode == EXIT_OPERATOR_KILLED
    ensures e != Unwound(Terminate) ==>
      if late.Some? && !late.value.haltSet
      then finalizer.haltReason == old(finalizer.haltReason) && finalizer.exitCode == old(finalizer.exitCode)
      else finalizer.haltReason == reason && finalizer.exitCode == code
  {
    if late.Some? && !late.value.haltSet {
      e := UnwindWith(late.value.why, finalizer);
      return;
    }
    finalizer.SetHalt(reason, code);
    if late.Some? {
      e := UnwindWith(late.value.why, finalizer);
      return;
    }
    e := Returned(code);
  }

  /** What unwinds a turn before its row, if anything does: in the phase or behind it only if the checks let it run. */
  function Struck(t: Turn): Option<Unwind> {
    if t.before.Some? then t.before
    else if !t.capPasses || !t.lockIsOurs then None
    else if t.during.Some? then t.during
    else t.after
  }

  /** The first thing that stops a phase, and its exit code. */
  function HaltOf(phase: int, t: Turn): (HaltReason, int) {
    if !t.capPasses then (WallClock, EXIT_WALL_CLOCK_CAP)
    else if !t.lockIsOurs then (ConcurrentChainForeign, EXIT_CHAIN_FOREIGN_SENTINEL)
    else
      var r := ResultOf(phase, t);
      if r.verdict != Passed then (Halted(r.verdict), r.exitCode) else (SealedPathRefused, EXIT_SEALED_PATH_REFUSED)
  }

  /** One terminal row more. */
  ghost predicate Ends(before: seq<Row>, rows: seq<Row>) {
    |rows| == |before| + 1 && rows[..|before|] == before && rows[|before|].from == Wip && rows[|before|].to != Wip
  }

  /** The halt is the one the last row records, with a code of its own. */
  predicate HaltFits(reason: HaltReason, code: int, rows: seq<Row>) {
    && rows != [] && rows[|rows| - 1].to == StatusOfHalt(reason)
    && reason != PhaseSuccess && reason != OperatorKilled && code != EXIT_OK && CodeFits(reason, code)
  }

  /** One turn of the loop; None means the loop goes on. */
  method DriveOne(phase: int, t: Turn, finalizer: ChainFinalizer, log: OrchestratorLog) returns (e: Option<Ending>)
    requires 2 <= phase <= 5
    modifies finalizer`haltReason, finalizer`exitCode, finalizer`phaseResults, log
    ensures e.None? <==> CleanPass(phase, t)
    ensures finalizer.phaseResults ==
      old(finalizer.phaseResults) + (if Completes(t) then [ResultOf(phase, t)] else [])
    ensures e.None? ==> log.rows == old(log.rows) + [Row(Wip, Wip)]
    ensures e.None? ==>
      finalizer.haltReason == old(finalizer.haltReason) && finalizer.exitCode == old(finalizer.exitCode)
    ensures e.Some? ==> log.rows == old(log.rows) || Ends(old(log.rows), log.rows)
    ensures e.Some? && e.value.Returned? ==>
      && e.value.code == finalizer.exitCode && Ends(old(log.rows), log.rows)
      && HaltFits(finalizer.haltReason, finalizer.exitCode, log.rows)
      && (finalizer.haltReason, finalizer.exitCode) == HaltOf(phase, t)
    ensures e.Some? && e.value.Unwound? && e.value.why != Terminate ==>
      || (finalizer.haltReason == old(finalizer.haltReason) && finalizer.exitCode == old(finalizer.exitCode))
      || (Ends(old(log.rows), log.rows) && HaltFits(finalizer.haltReason, finalizer.exitCode, log.rows))
    ensures e == Some(Unwound(Terminate)) ==>
      finalizer.haltReason == OperatorKilled && finalizer.exitCode == EXIT_OPERATOR_KILLED
    ensures Struck(t).Some? ==> e == Some(Unwound(Struck(t).value)) && log.rows == old(log.rows)
    ensures Struck(t).None? && !CleanPass(phase, t) ==>
      Ends(old(log.rows), log.rows) && (if t.late.Some? then e
          == Some(Unwound(t.late.value.why)) else e.value.Returned?)
  {
    if t.before.Some? {
      var u := UnwindWith(t.before.value, finalizer);
      return Some(u);
    }
    if !t.capPasses {
      log.Append(Wip, StatusOf(WallClockExceeded));
      var end := Conclude(WallClock, EXIT_WALL_CLOCK_CAP, t.late, finalizer);
      return Some(end);
    }
    if !t.lockIsOurs {
      log.Append(Wip, StatusOf(ConcurrentChainRefused));
      var end := Conclude(ConcurrentChainForeign, EXIT_CHAIN_FOREIGN_SENTINEL, t.late, finalizer);
      return Some(end);
    }
    if t.during.Some? {
      var u := UnwindWith(t.during.value, finalizer);
      return Some(u);
    }
    var result := ResultOf(phase, t);
    finalizer.NotePhaseResult(result);
    if t.after.Some? {
      var u := UnwindWith(t.after.value, finalizer);
      return Some(u);
    }
    if result.verdict != Passed {
      assert StatusOf(result.verdict) != Wip;
      log.Append(Wip, StatusOf(result.verdict));
      var end := Conclude(Halted(result.verdict), result.exitCode, t.late, finalizer);
      return Some(end);
    }
    if !t.scanClean {
      log.Append(Wip, Blocked);
      var end := Conclude(SealedPathRefused, EXIT_SEALED_PATH_REFUSED, t.late, finalizer);
      return Some(end);
    }
    log.Append(Wip, StatusOf(Passed));
    e := None;
  }

  /** Main result for the loop: a contiguous block of phases from the starting one, all but the last passed;
      the code returned is the finalizer's and is 0 exactly when every remaining phase passed with a clean scan;
      the rows form one path out of ready with no row after a terminal one; a returned loop has closed it, with the
      status the halt reason maps to, and an unwound one may have. */
  method DrivePhases(start: int, world: World, finalizer: ChainFinalizer, log: OrchestratorLog) returns (e: Ending)
    requires 2 <= start <= 5
    requires finalizer.haltReason == PhaseSuccess && finalizer.exitCode == EXIT_OK && finalizer.phaseResults == []
    requires log.rows == []
    modifies finalizer`haltReason, finalizer`exitCode, finalizer`phaseResults, log
    ensures Block(finalizer.phaseResults, start)
    ensures e.Returned? ==> e.code == finalizer.exitCode
    ensures e.Returned? ==> (e.code == EXIT_OK <==> finalizer.haltReason == PhaseSuccess)
    ensures e == Returned(EXIT_OK) <==>
      world.start.None? && CleanFrom(world, start, 6) && world.finish.None? && world.done.None?
    ensures e == Returned(EXIT_OK) ==> |finalizer.phaseResults| == 6 - start && AllPass(finalizer.phaseResults)
    ensures e.Returned? ==> Terminated(log.rows)
    ensures e.Returned? ==> log.rows[|log.rows| - 1].to == StatusOfHalt(finalizer.haltReason)
    ensures e.Returned? ==> finalizer.haltReason != OperatorKilled
    ensures CodeFits(finalizer.haltReason, finalizer.exitCode)
    ensures world.start.Some? ==> e == Unwound(world.start.value)
    ensures e.Unwound? ==> log.rows == [] || InProgress(log.rows) || Terminated(log.rows)
    ensures e.Unwound? && e.why == Terminate ==>
      finalizer.haltReason == OperatorKilled && finalizer.exitCode == EXIT_OPERATOR_KILLED
    ensures e.Unwound? && e.why != Terminate ==>
      || (finalizer.haltReason == PhaseSuccess && finalizer.exitCode == EXIT_OK)
      || (Terminated(log.rows) && HaltFits(finalizer.haltReason, finalizer.exitCode, log.rows))
  {
    if world.start.Some? {
      e := UnwindWith(world.start.value, finalizer);
      return;
    }
    log.Append(Ready, Wip);
    for phase := 2 to 6
      invariant finalizer.haltReason == PhaseSuccess && finalizer.exitCode == EXIT_OK
      invariant |finalizer.phaseResults| == if phase < start then 0 else phase - start
      invariant Block(finalizer.phaseResults, start) && AllPass(finalizer.phaseResults)
      invariant InProgress(log.rows)
      invariant CleanFrom(world, start, phase)
    {
      if phase < start {
        continue;
      }
      ghost var rows := log.rows;
      var stop := DriveOne(phase, world.turns(phase), finalizer, log);
      if stop.Some? {
        e := stop.value;
        assert !CleanPass(phase, world.turns(phase));
        assert Ends(rows, log.rows) ==> log.rows[..|log.rows| - 1] == rows;
        return;
      }
    }
    if world.finish.Some? {
      e := UnwindWith(world.finish.value, finalizer);
      return;
    }
    ghost var rows := log.rows;
    log.Append(Wip, Done);
    assert log.rows[..|log.rows| - 1] == rows;
    e := Conclude(PhaseSuccess, EXIT_OK, world.done, finalizer);
  }

  /** The exit code of a halt tells its reason. */
  lemma CodeTellsReason(a: HaltReason, b: HaltReason, code: int)
    requires CodeFits(a, code) && CodeFits(b, code) && a != Halted(Passed) && b != Halted(Passed)
    ensures a == b
  {}

  // ---------- The whole run ----------

  /** main's answer to an unwound run. */
  function CodeOf(e: Ending): int {
    match e
    case Returned(code) => code
    case Unwound(Crash) => EXIT_DRIVER_CRASH
    case Unwound(_) => EXIT_OPERATOR_KILLED
  }

  /** _run_chain under main, from the acquired lock. One summary is emitted, of the phases really run. It agrees
      with the exit code exactly when the run was not unwound by an exception or SIGINT: unless a halt was already
      set, those leave the default reason phase_success and code 0 in the summary, while the process exits with 2
      or 18. */
  method RunChain(start: int, world: World, finalizer: ChainFinalizer, log: OrchestratorLog)
      returns (code: int, ghost e: Ending)
    requires 2 <= start <= 5
    requires finalizer.haltReason == PhaseSuccess && finalizer.exitCode == EXIT_OK && finalizer.phaseResults == []
    requires !finalizer.flushed && finalizer.summaries == [] && log.rows == []
    modifies finalizer, log
    ensures e.Unwound? ==> code == if e.why == Crash then 2 else 18
    ensures e.Returned? ==> code == e.code != 18
    ensures |finalizer.summaries| == 1
    ensures var s := finalizer.summaries[0];
      && Block(s.results, start)
      && CodeFits(s.reason, s.exitCode)
      && (s.exitCode == code <==> e.Returned? || e.why == Terminate)
      && (s.reason == PhaseSuccess <==> s.exitCode == EXIT_OK)
      && (e.Unwound? && e.why != Terminate && !Terminated(log.rows) ==> s.exitCode == EXIT_OK != code)
    ensures code == EXIT_OK <==>
      world.start.None? && CleanFrom(world, start, 6) && world.finish.None? && world.done.None?
  {
    var ending := DrivePhases(start, world, finalizer, log);
    finalizer.Flush();
    code, e := CodeOf(ending), ending;
  }
}
