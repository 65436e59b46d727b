/** When a driver starts a phase, and when it starts no more. */
module ChainStarts {
  import opened Optional
  import opened ChainProtocol
  import opened ChainMutex
  import opened ChainPauses
  import opened ChainTraces

  // ---------- What precedes a start ----------

  /** Launch with its first phase, the probe that found no pause, the cap that was not exceeded, the lock found to be
      its own, and the clean pass of the phase before. */
  datatype StartTrail = StartTrail(launch: nat, first: nat, probe: nat, cap: nat, recheck: nat, passed: nat)

  function Stage(pc: DriverPc): nat {
    match pc
    case CapChecking => 1
    case Rechecking => 2
    case Spawning => 3
    case _ => 0
  }

  ghost predicate NoStart(labels: seq<Label>, p: Pid, i: nat, j: nat)
    requires j <= |labels|
  {
    forall k | i <= k < j :: labels[k] != StepDriver(p, Spawn)
  }

  /** Phases started before this one are those from the first on. */
  predicate Counted(d: Driver, first: nat, n: nat) {
    && 2 <= first <= d.phase <= 5
    && d.phase - first <= n <= d.phase - first + 1
    && (BeforeFlush(d.pc) ==> n == d.phase - first + if d.pc == InPhase then 1 else 0)
  }

  predicate Passes(s: State, l: Label, p: Pid, phase: nat) {
    l == StepDriver(p, Finish(Passed(true))) && p in s.drivers && s.drivers[p].phase == phase
  }

  ghost predicate DriverSaw(states: seq<State>, labels: seq<Label>, i: nat, p: Pid, d: Driver, t: StartTrail)
    requires |states| == |labels| + 1 && i < |states|
  {
    var n := Stage(d.pc);
    && t.launch < i && labels[t.launch] == StartDriver(p, d.chain, t.first)
    && (d.phase > t.first ==> t.passed < i && Passes(states[t.passed], labels[t.passed], p, d.phase - 1))
    && (n >= 1 ==> t.launch < t.probe < i && labels[t.probe] == StepDriver(p, Probe) && !IsHeld(states[t.probe].pause)
                   && (d.phase > t.first ==> t.passed < t.probe) && NoStart(labels, p, t.probe, i))
    && (n >= 2 ==> t.probe < t.cap < i && labels[t.cap] == StepDriver(p, CheckCap(true)))
    && (n >= 3 ==> t.cap < t.recheck < i && labels[t.recheck] == StepDriver(p, Recheck)
                   && Mine(states[t.recheck].lock, d.chain))
  }

  lemma DriverSees(states: seq<State>, labels: seq<Label>, i: nat, p: Pid, d: Driver, a: DriverAct, t: StartTrail)
    returns (t2: StartTrail)
    requires |states| == |labels| + 1 && i < |labels| && labels[i] == StepDriver(p, a) && DriverMay(d, a)
    requires p in states[i].drivers && states[i].drivers[p] == d
    requires BeforeFlush(d.pc) ==> d.halt == PhaseSuccess
    requires DriverSaw(states, labels, i, p, d, t) && t.first <= d.phase
    ensures DriverSaw(states, labels, i + 1, p, DriverNext(states[i], p, d, a), t2) && t2.first == t.first
  {
    t2 := match a
      case Probe => t.(probe := i)
      case CheckCap(_) => t.(cap := i)
      case Recheck => t.(recheck := i)
      case Finish(Passed(true)) => if d.phase < 5 then t.(passed := i) else t
      case _ => t;
  }

  lemma DriverOrigin(s: State, l: Label, p: Pid)
    ensures Enabled(s, l) && p in Do(s, l).drivers && !(l.StartDriver? && l.pid == p) ==> p in s.drivers
    ensures Enabled(s, l) && p in s.drivers && !(l.StepDriver? && l.pid == p) ==>
      p in Do(s, l).drivers && Do(s, l).drivers[p] == s.drivers[p] && !(l.StartDriver? && l.pid == p)
  {}

  lemma {:induction false} StartsSnoc(labels: seq<Label>, p: Pid, i: nat, j: nat)
    requires i <= j < |labels|
    ensures StartsOfBetween(labels, p, i, j + 1) == StartsOfBetween(labels, p, i, j) + StartsOf(labels[j], p)
    decreases j - i
  {
    if i < j {
      StartsSnoc(labels, p, i + 1, j);
    }
  }

  lemma CountStep(s: State, p: Pid, d: Driver, a: DriverAct, first: nat, n: nat)
    ensures DriverMay(d, a) && Counted(d, first, n) ==>
      Counted(DriverNext(s, p, d, a), first, n + if a == Spawn then 1 else 0)
  {}

  lemma {:induction false} NoDriverNoStart(states: seq<State>, labels: seq<Label>, i: nat, p: Pid)
    requires IsRun(states, labels) && i < |states| && p !in states[i].drivers
    ensures StartsOfBetween(labels, p, 0, i) == 0
  {
    if i > 0 {
      StepOf(states, labels, i - 1);
      DriverRemains(states[i - 1], labels[i - 1], p);
      NoDriverNoStart(states, labels, i - 1, p);
      StartsSnoc(labels, p, 0, i - 1);
    }
  }

  lemma DriverRemains(s: State, l: Label, p: Pid)
    ensures Enabled(s, l) && (p in s.drivers || StartsOf(l, p) == 1) ==> p in s.drivers && p in Do(s, l).drivers
  {}

  /** The trail and the count of driver p after i steps. */
  ghost predicate Traced(states: seq<State>, labels: seq<Label>, i: nat, p: Pid, t: StartTrail)
    requires |states| == |labels| + 1 && i < |states|
  {
    && p in states[i].drivers && DriverSaw(states, labels, i, p, states[i].drivers[p], t)
    && Counted(states[i].drivers[p], t.first, StartsOfBetween(labels, p, 0, i))
  }

  lemma DriverBegins(states: seq<State>, labels: seq<Label>, i: nat, p: Pid) returns (t: StartTrail)
    requires IsRun(states, labels) && i < |labels| && labels[i].StartDriver? && labels[i].pid == p
    ensures Traced(states, labels, i + 1, p, t)
  {
    StepOf(states, labels, i);
    StartsSnoc(labels, p, 0, i);
    NoDriverNoStart(states, labels, i, p);
    t := StartTrail(i, labels[i].phase, 0, 0, 0, 0);
  }

  lemma DriverAdvances(states: seq<State>, labels: seq<Label>, i: nat, p: Pid, a: DriverAct, t: StartTrail)
    returns (t2: StartTrail)
    requires IsRun(states, labels) && i < |labels| && labels[i] == StepDriver(p, a) && Traced(states, labels, i, p, t)
    ensures Traced(states, labels, i + 1, p, t2)
  {
    hide DriverSaw, DriverNext, Counted;
    var s := states[i];
    StepOf(states, labels, i);
    StartsSnoc(labels, p, 0, i);
    HaltAlwaysUnset(states, labels, i);
    CountBounds(s.drivers[p], t.first, StartsOfBetween(labels, p, 0, i));
    t2 := DriverSees(states, labels, i, p, s.drivers[p], a, t);
    CountStep(s, p, s.drivers[p], a, t.first, StartsOfBetween(labels, p, 0, i));
  }

  lemma CountBounds(d: Driver, first: nat, n: nat)
    ensures Counted(d, first, n) ==> first <= d.phase
  {}

  /** A step of anyone else. */
  lemma DriverRests(states: seq<State>, labels: seq<Label>, i: nat, p: Pid, t: StartTrail)
    requires IsRun(states, labels) && i < |labels| && !(labels[i].StepDriver? && labels[i].pid == p)
    requires Traced(states, labels, i, p, t)
    ensures Traced(states, labels, i + 1, p, t)
  {
    hide Counted;
    StepOf(states, labels, i);
    StartsSnoc(labels, p, 0, i);
    DriverOrigin(states[i], labels[i], p);
  }

  lemma {:induction false} DriverHistory(states: seq<State>, labels: seq<Label>, i: nat, p: Pid) returns (t: StartTrail)
    requires IsRun(states, labels) && i < |states| && p in states[i].drivers
    ensures Traced(states, labels, i, p, t)
  {
    if i == 0 {
      assert false;
    } else {
      StepOf(states, labels, i - 1);
      DriverOrigin(states[i - 1], labels[i - 1], p);
      hide Traced;
      if labels[i - 1].StartDriver? && labels[i - 1].pid == p {
        t := DriverBegins(states, labels, i - 1, p);
      } else {
        t := DriverHistory(states, labels, i - 1, p);
        if labels[i - 1].StepDriver? && labels[i - 1].pid == p {
          t := DriverAdvances(states, labels, i - 1, p, labels[i - 1].act, t);
        } else {
          DriverRests(states, labels, i - 1, p, t);
        }
      }
    }
  }

  /** Main result: in every run the n-th phase a driver starts is its first plus n - 1 and at most 5, and each start
      follows, since the clean pass of the phase before, a probe that found no pause, a cap that was not exceeded and
      a running lock of its own chain, in this order. */
  lemma EveryStartIsChecked(states: seq<State>, labels: seq<Label>, i: nat, p: Pid) returns (t: StartTrail, d: Driver)
    requires IsRun(states, labels) && i < |labels| && labels[i] == StepDriver(p, Spawn)
    ensures p in states[i].drivers && states[i].drivers[p] == d
    ensures t.launch < t.probe < t.cap < t.recheck < i && labels[t.launch] == StartDriver(p, d.chain, t.first)
    ensures d.phase == t.first + StartsOfBetween(labels, p, 0, i) <= 5
    ensures d.phase > t.first ==> t.passed < t.probe && Passes(states[t.passed], labels[t.passed], p, d.phase - 1)
    ensures labels[t.probe] == StepDriver(p, Probe) && !IsHeld(states[t.probe].pause)
    ensures labels[t.cap] == StepDriver(p, CheckCap(true))
    ensures labels[t.recheck] == StepDriver(p, Recheck) && Mine(states[t.recheck].lock, d.chain)
  {
    StepOf(states, labels, i);
    d := states[i].drivers[p];
    t := DriverHistory(states, labels, i, p);
  }

  // ---------- Halts ----------

  /** The step a of driver p ends its phase loop, for this reason. */
  predicate Ends(s: State, p: Pid, a: DriverAct, why: HaltReason) {
    p in s.drivers &&
    match a
    case CheckCap(pass) => !pass && why == WallClock
    case Recheck => !(s.lock.Some? && s.lock.value.content.Stamped? && s.lock.value.content.chain == s.drivers[p].chain)
                    && why == Foreign
    case Finish(Halted(reason)) => why == reason && (why == NeedsHuman || why == OtherVerdict)
    case Finish(Passed(false)) => why == SealedPath
    case Finish(Passed(true)) => s.drivers[p].phase == 5 && why == PhaseSuccess
    case Unwind(killed) => why == if killed then OperatorKilled else PhaseSuccess
    case _ => false
  }

  /** Out of the phase loop, for this reason. */
  predicate Ended(d: Driver, why: HaltReason) {
    !BeforeFlush(d.pc) && d.halt == why
  }

  lemma EndStep(s: State, p: Pid, d: Driver, a: DriverAct, why: HaltReason)
    requires p in s.drivers && s.drivers[p] == d && DriverMay(d, a) && 2 <= d.phase <= 5
    requires BeforeFlush(d.pc) ==> d.halt == PhaseSuccess
    ensures Ends(s, p, a, why) ==> Ended(DriverNext(s, p, d, a), why)
    ensures Ended(d, why) ==> Ended(DriverNext(s, p, d, a), why) && a != Spawn
    ensures BeforeFlush(d.pc) && IsFlushing(DriverNext(s, p, d, a).pc) ==> Ends(s, p, a, DriverNext(s, p, d, a).halt)
  {}

  lemma {:induction false} EndedStays(states: seq<State>, labels: seq<Label>, i: nat, j: nat, p: Pid, why: HaltReason)
    requires IsRun(states, labels) && i <= j < |states|
    requires p in states[i].drivers && Ended(states[i].drivers[p], why)
    ensures p in states[j].drivers && Ended(states[j].drivers[p], why)
    ensures StartsOfBetween(labels, p, i, j) == 0
  {
    if i < j {
      EndedStays(states, labels, i, j - 1, p, why);
      StepOf(states, labels, j - 1);
      StartsSnoc(labels, p, i, j - 1);
      var s, l := states[j - 1], labels[j - 1];
      DriverOrigin(s, l, p);
      if l.StepDriver? && l.pid == p {
        hide DriverNext;
        var t := DriverHistory(states, labels, j - 1, p);
        EndStep(s, p, s.drivers[p], l.act, why);
      }
    }
  }

  /** Main result: once a driver halts, for its cap, a foreign lock, a verdict, a sealed path, its last phase or a
      signal, it never starts another phase, and its halt reason stays the one of that step. */
  lemma HaltIsFinal(states: seq<State>, labels: seq<Label>, i: nat, j: nat, p: Pid, a: DriverAct, why: HaltReason)
    requires IsRun(states, labels) && i < j < |states|
    requires labels[i] == StepDriver(p, a) && Ends(states[i], p, a, why)
    ensures p in states[j].drivers && states[j].drivers[p].halt == why && StartsOfBetween(labels, p, i, j) == 0
  {
    StepOf(states, labels, i);
    HaltAlwaysUnset(states, labels, i);
    var t := DriverHistory(states, labels, i, p);
    EndStep(states[i], p, states[i].drivers[p], a, why);
    EndedStays(states, labels, i + 1, j, p, why);
  }

  /** And it flushes for no other reason: behind every flush there is such a step. */
  lemma {:induction false} EveryHaltHasItsReason(states: seq<State>, labels: seq<Label>, i: nat, p: Pid)
    returns (k: nat, a: DriverAct)
    requires IsRun(states, labels) && i < |states| && p in states[i].drivers && IsFlushing(states[i].drivers[p].pc)
    ensures k < i && labels[k] == StepDriver(p, a) && Ends(states[k], p, a, states[i].drivers[p].halt)
  {
    if i == 0 {
      assert false;
    } else {
      StepOf(states, labels, i - 1);
      var s, l := states[i - 1], labels[i - 1];
      DriverOrigin(s, l, p);
      if l.StepDriver? && l.pid == p {
        HaltAlwaysUnset(states, labels, i - 1);
        var t := DriverHistory(states, labels, i - 1, p);
        EndStep(s, p, s.drivers[p], l.act, s.drivers[p].halt);
      }
      if p in s.drivers && IsFlushing(s.drivers[p].pc) {
        k, a := EveryHaltHasItsReason(states, labels, i - 1, p);
      } else {
        k, a := i - 1, l.act;
      }
    }
  }

  // ---------- Exits ----------

  /** The step with which a driver is through with its lock file: it found one already there, took back its own after a
      write or sync that failed, found another's in its place, or tried to unlink it. */
  predicate LetsGo(s: State, p: Pid, a: DriverAct) {
    p in s.drivers &&
    match a
    case TryCreate => s.lock.Some?
    case Clean(_) => s.drivers[p].pc.Cleaning?
    case FlushRead => !(s.lock.Some? && s.lock.value.content.Stamped?
        && s.lock.value.content.chain == s.drivers[p].chain)
    case FlushUnlink(_) => true
    case _ => false
  }

  lemma DoneStep(s: State, p: Pid, d: Driver, a: DriverAct)
    requires p in s.drivers && s.drivers[p] == d && DriverMay(d, a)
    ensures d.pc != Done && DriverNext(s, p, d, a).pc == Done ==> LetsGo(s, p, a)
    ensures DriverNext(s, p, d, a).pc.Cleaning? && !d.pc.Cleaning? ==> a == Write(false) || a == Sync(false)
    ensures d.pc == Done ==> DriverNext(s, p, d, a).pc == Done
  {}

  /** Main result: unless it is killed, a driver exits only after such a step. */
  lemma {:induction false} ExitIsLast(states: seq<State>, labels: seq<Label>, i: nat, p: Pid)
      returns (k: nat, a: DriverAct)
    requires IsRun(states, labels) && i < |states| && p in states[i].drivers
    requires states[i].drivers[p].pc == Done || (i < |labels| && labels[i] == StepDriver(p, Exit))
    ensures k < i && labels[k] == StepDriver(p, a) && LetsGo(states[k], p, a)
  {
    if i < |labels| {
      StepOf(states, labels, i);
    }
    assert states[i].drivers[p].pc == Done;
    if i == 0 {
      assert false;
    } else {
      StepOf(states, labels, i - 1);
      var s, l := states[i - 1], labels[i - 1];
      DriverOrigin(s, l, p);
      hide LetsGo, DriverNext;
      if p in s.drivers && s.drivers[p].pc == Done {
        k, a := ExitIsLast(states, labels, i - 1, p);
      } else {
        DoneStep(s, p, s.drivers[p], l.act);
        k, a := i - 1, l.act;
      }
    }
  }

  /** And it takes back its own lock only after a write or sync that failed. */
  lemma {:induction false} CleansOnlyAfterFailure(states: seq<State>, labels: seq<Label>, i: nat, p: Pid)
    returns (k: nat, a: DriverAct)
    requires IsRun(states, labels) && i < |states| && p in states[i].drivers && states[i].drivers[p].pc.Cleaning?
    ensures k < i && labels[k] == StepDriver(p, a) && (a == Write(false) || a == Sync(false))
  {
    if i == 0 {
      assert false;
    } else {
      StepOf(states, labels, i - 1);
      var s, l := states[i - 1], labels[i - 1];
      DriverOrigin(s, l, p);
      hide DriverNext;
      if p in s.drivers && s.drivers[p].pc.Cleaning? {
        k, a := CleansOnlyAfterFailure(states, labels, i - 1, p);
      } else {
        DoneStep(s, p, s.drivers[p], l.act);
        k, a := i - 1, l.act;
      }
    }
  }
}
