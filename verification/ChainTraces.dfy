/**
 Why mutual exclusion needs both conditions on recovery: for each there is a run that breaks only
 that condition and ends with two live drivers holding the lock.
 */
module ChainTraces {
  import opened Optional
  import opened ChainProtocol
  import opened ChainMutex

  // ---------- Paths ----------

  /** The labels lead from s to t. */
  ghost predicate Path(s: State, labels: seq<Label>, t: State)
    decreases |labels|
  {
    if labels == [] then s == t
    else Enabled(s, labels[0]) && Path(Do(s, labels[0]), labels[1..], t)
  }

  lemma {:induction false} Join(s: State, a: seq<Label>, t: State, b: seq<Label>, u: State)
    requires Path(s, a, t) && Path(t, b, u)
    ensures Path(s, a + b, u)
    decreases |a|
  {
    if a == [] {
      assert a + b == b;
    } else {
      assert (a + b)[1..] == a[1..] + b;
      Join(Do(s, a[0]), a[1..], t, b, u);
    }
  }

  ghost function Visited(s: State, labels: seq<Label>, t: State): (states: seq<State>)
    requires Path(s, labels, t)
    ensures |states| == |labels| + 1 && states[0] == s
    decreases |labels|
  {
    if labels == [] then [s] else [s] + Visited(Do(s, labels[0]), labels[1..], t)
  }

  lemma {:induction false} VisitedIsRun(s: State, labels: seq<Label>, t: State)
    requires Path(s, labels, t)
    ensures var states := Visited(s, labels, t);
      && states[|labels|] == t
      && forall i | 0 <= i < |labels| :: IsStep(states[i], labels[i], states[i + 1])
    decreases |labels|
  {
    if labels != [] {
      var s' := Do(s, labels[0]);
      VisitedIsRun(s', labels[1..], t);
      var states, rest := Visited(s, labels, t), Visited(s', labels[1..], t);
      forall i | 0 <= i < |labels|
        ensures IsStep(states[i], labels[i], states[i + 1])
      {
        if i > 0 {
          assert states[i] == rest[i - 1] && states[i + 1] == rest[i];
          assert IsStep(rest[i - 1], labels[1..][i - 1], rest[i - 1 + 1]);
        }
      }
    }
  }

  // ---------- Stretches of a run ----------

  function Acquire(p: Pid, c: ChainId): seq<Label> {
    [StartDriver(p, c, 2), StepDriver(p, TryCreate)] + [StepDriver(p, Write(true)), StepDriver(p, Sync(true))]
  }

  function Acquired(s: State, p: Pid, c: ChainId): State {
    s.(lock := Some(LockFile(p, Stamped(c, p))),
       drivers := s.drivers[p := Driver(c, Starting, 2, PhaseSuccess, true)])
  }

  lemma Step2(s: State, a: Label, b: Label, t: State)
    requires Enabled(s, a) && Enabled(Do(s, a), b) && t == Do(Do(s, a), b)
    ensures Path(s, [a, b], t)
  {
    assert [a, b][1..] == [b];
    assert [b][1..] == [];
    assert Path(t, [], t);
    assert Path(Do(s, a), [b], t);
  }

  lemma Step1(s: State, a: Label, t: State)
    requires Enabled(s, a) && t == Do(s, a)
    ensures Path(s, [a], t)
  {
    assert Path(t, [a][1..], t);
  }

  lemma AcquirePath(s: State, p: Pid, c: ChainId)
    requires s.lock.None? && p !in s.drivers
    ensures Path(s, Acquire(p, c), Acquired(s, p, c))
  {
    var s1 := Do(s, StartDriver(p, c, 2));
    var s2 := Do(s1, StepDriver(p, TryCreate));
    var d := Driver(c, Writing, 2, PhaseSuccess, true);
    assert s2 == s.(lock := Some(LockFile(p, Blank)), drivers := s.drivers[p := d]);
    Step2(s, StartDriver(p, c, 2), StepDriver(p, TryCreate), s2);
    Step2(s2, StepDriver(p, Write(true)), StepDriver(p, Sync(true)), Acquired(s, p, c));
    Join(s, [StartDriver(p, c, 2), StepDriver(p, TryCreate)], s2,
         [StepDriver(p, Write(true)), StepDriver(p, Sync(true))], Acquired(s, p, c));
  }

  /** SIGTERM, a complete flush, and the end of the process. */
  function Leave(p: Pid): seq<Label> {
    [StepDriver(p, Unwind(true)), StepDriver(p, FlushPause(true))]
    + [StepDriver(p, FlushRead), StepDriver(p, FlushUnlink(true))]
    + [StepDriver(p, Exit)]
  }

  function Left(s: State, p: Pid, c: ChainId): State {
    s.(lock := None, pause := None,
       drivers := s.drivers[p := Driver(c, Done, 2, OperatorKilled, false)])
  }

  function Flushing(s: State, p: Pid, c: ChainId): State {
    s.(pause := None, drivers := s.drivers[p := Driver(c, FlushReading, 2, OperatorKilled, true)])
  }

  function Flushed(s: State, p: Pid, c: ChainId): State {
    s.(lock := None, drivers := s.drivers[p := Driver(c, Done, 2, OperatorKilled, true)])
  }

  lemma FlushingPath(s: State, p: Pid, c: ChainId)
    requires p in s.drivers && s.drivers[p] == Driver(c, Starting, 2, PhaseSuccess, true)
    ensures Path(s, [StepDriver(p, Unwind(true)), StepDriver(p, FlushPause(true))], Flushing(s, p, c))
  {
    Step2(s, StepDriver(p, Unwind(true)), StepDriver(p, FlushPause(true)), Flushing(s, p, c));
  }

  lemma FlushedPath(s: State, p: Pid, c: ChainId)
    requires s.lock == Some(LockFile(p, Stamped(c, p)))
    requires p in s.drivers && s.drivers[p] == Driver(c, FlushReading, 2, OperatorKilled, true)
    ensures Path(s, [StepDriver(p, FlushRead), StepDriver(p, FlushUnlink(true))], Flushed(s, p, c))
  {
    Step2(s, StepDriver(p, FlushRead), StepDriver(p, FlushUnlink(true)), Flushed(s, p, c));
  }

  lemma LeavePath(s: State, p: Pid, c: ChainId)
    requires s.lock == Some(LockFile(p, Stamped(c, p)))
    requires p in s.drivers && s.drivers[p] == Driver(c, Starting, 2, PhaseSuccess, true)
    ensures Path(s, Leave(p), Left(s, p, c))
  {
    var s1 := Flushing(s, p, c);
    var s2 := Flushed(s1, p, c);
    var l1 := [StepDriver(p, Unwind(true)), StepDriver(p, FlushPause(true))];
    var l2 := [StepDriver(p, FlushRead), StepDriver(p, FlushUnlink(true))];
    FlushingPath(s, p, c);
    FlushedPath(s1, p, c);
    Join(s, l1, s1, l2, s2);
    assert s.drivers[p := s2.drivers[p]] == s2.drivers;
    Step1(s2, StepDriver(p, Exit), Left(s, p, c));
    Join(s, l1 + l2, s2, [StepDriver(p, Exit)], Left(s, p, c));
  }

  function Examine(q: Pid, c: ChainId): seq<Label> {
    [StartReleaser(q, c), StepReleaser(q, Go(true))]
  }

  function Examined(s: State, q: Pid, c: ChainId, driver: Pid): State {
    s.(releasers := s.releasers[q := Releaser(LAlive(driver), c)])
  }

  lemma ExaminePath(s: State, q: Pid, c: ChainId, driver: Pid)
    requires q !in s.releasers && s.lock.Some? && s.lock.value.content == Stamped(c, driver)
    ensures Path(s, Examine(q, c), Examined(s, q, c, driver))
  {
    Step2(s, StartReleaser(q, c), StepReleaser(q, Go(true)), Examined(s, q, c, driver));
  }

  /** The pid is dead and the chain id matches. */
  function Confirm(q: Pid): seq<Label> {
    [StepReleaser(q, Go(true)), StepReleaser(q, Go(true))]
  }

  function Confirmed(s: State, q: Pid, c: ChainId): State {
    s.(releasers := s.releasers[q := Releaser(LUnlink, c)])
  }

  lemma ConfirmPath(s: State, q: Pid, c: ChainId, driver: Pid)
    requires q in s.releasers && s.releasers[q] == Releaser(LAlive(driver), c)
    requires !Lives(s.drivers, driver) && Mine(s.lock, c)
    ensures Path(s, Confirm(q), Confirmed(s, q, c))
  {
    Step2(s, StepReleaser(q, Go(true)), StepReleaser(q, Go(true)), Confirmed(s, q, c));
  }

  function Unlinked(s: State, q: Pid, c: ChainId): State {
    s.(lock := None, releasers := s.releasers[q := Releaser(LPause, c)])
  }

  lemma UnlinkPath(s: State, q: Pid, c: ChainId)
    requires q in s.releasers && s.releasers[q] == Releaser(LUnlink, c)
    ensures Path(s, [StepReleaser(q, Go(true))], Unlinked(s, q, c))
  {
    Step1(s, StepReleaser(q, Go(true)), Unlinked(s, q, c));
  }

  function Crashed(s: State, p: Pid, d: Driver): State {
    s.(drivers := s.drivers[p := d.(alive := false)])
  }

  lemma CrashPath(s: State, p: Pid)
    requires Lives(s.drivers, p)
    ensures Path(s, [StepDriver(p, Crash)], Crashed(s, p, s.drivers[p]))
  {
    Step1(s, StepDriver(p, Crash), Crashed(s, p, s.drivers[p]));
  }

  // ---------- Resuming a chain under its own release ----------

  predicate StartsCommand(l: Label) {
    l.StartDriver? || l.StartPauser? || l.StartResumer? || l.StartReleaser?
  }

  /** The commands started are among these. */
  ghost predicate Commands(labels: seq<Label>, commands: set<Label>) {
    forall l | l in labels && StartsCommand(l) :: l in commands
  }

  lemma Append(s: State, a: seq<Label>, t: State, b: seq<Label>, u: State, commands: set<Label>)
    requires Path(s, a, t) && Path(t, b, u)
    requires Commands(a, commands) && Commands(b, commands)
    ensures Path(s, a + b, u) && Commands(a + b, commands)
  {
    Join(s, a, t, b, u);
  }

  const RESUMING := {StartDriver(1, 7, 2), StartReleaser(1, 7), StartDriver(2, 7, 2), StartDriver(3, 8, 2)}

  /** Driver 1 runs chain 7 and --release-lock has read its lock. */
  function UnderRelease(): State {
    Examined(Acquired(FRESH, 1, 7), 1, 7, 1)
  }

  lemma UnderReleasePath() returns (labels: seq<Label>)
    ensures Path(FRESH, labels, UnderRelease()) && Commands(labels, RESUMING)
  {
    var s := Acquired(FRESH, 1, 7);
    AcquirePath(FRESH, 1, 7);
    ExaminePath(s, 1, 7, 1);
    labels := Acquire(1, 7) + Examine(1, 7);
    Append(FRESH, Acquire(1, 7), s, Examine(1, 7), UnderRelease(), RESUMING);
  }

  /** Driver 1 has left and driver 2 has resumed chain 7. */
  function Resumed(): State {
    Acquired(Left(UnderRelease(), 1, 7), 2, 7)
  }

  lemma LeaveThenResume(s: State, p: Pid, c: ChainId, q: Pid, commands: set<Label>)
    requires s.lock == Some(LockFile(p, Stamped(c, p)))
    requires p in s.drivers && s.drivers[p] == Driver(c, Starting, 2, PhaseSuccess, true)
    requires q !in s.drivers && StartDriver(q, c, 2) in commands
    ensures Path(s, Leave(p) + Acquire(q, c), Acquired(Left(s, p, c), q, c))
    ensures Commands(Leave(p) + Acquire(q, c), commands)
  {
    LeavePath(s, p, c);
    AcquirePath(Left(s, p, c), q, c);
    Join(s, Leave(p), Left(s, p, c), Acquire(q, c), Acquired(Left(s, p, c), q, c));
  }

  lemma ResumedPath() returns (labels: seq<Label>)
    ensures Path(FRESH, labels, Resumed()) && Commands(labels, RESUMING)
  {
    var l := UnderReleasePath();
    LeaveThenResume(UnderRelease(), 1, 7, 2, RESUMING);
    labels := l + (Leave(1) + Acquire(2, 7));
    Append(FRESH, l, UnderRelease(), Leave(1) + Acquire(2, 7), Resumed(), RESUMING);
  }

  /** From a confirmed --release-lock: it unlinks, and a fresh chain acquires. */
  lemma UnlinkThenAcquire(s: State, q: Pid, c: ChainId, p: Pid, c': ChainId, commands: set<Label>)
    requires q in s.releasers && s.releasers[q] == Releaser(LUnlink, c)
    requires p !in s.drivers && StartDriver(p, c', 2) in commands
    ensures var labels := [StepReleaser(q, Go(true))] + Acquire(p, c');
      Path(s, labels, Acquired(Unlinked(s, q, c), p, c')) && Commands(labels, commands)
  {
    var s1 := Unlinked(s, q, c);
    UnlinkPath(s, q, c);
    AcquirePath(s1, p, c');
    Append(s, [StepReleaser(q, Go(true))], s1, Acquire(p, c'), Acquired(s1, p, c'), commands);
  }

  /** --release-lock finds pid 1 dead and chain 7 still stamped, unlinks, and driver 3 acquires a lock of
      its own: with a single --release-lock, two live drivers hold the lock. */
  lemma ResumeDuringRelease() returns (states: seq<State>, labels: seq<Label>)
    ensures IsRun(states, labels) && Commands(labels, RESUMING)
    ensures !MutualExclusion(states[|labels|])
  {
    var l1 := ResumedPath();
    var s1 := Resumed();
    var s2 := Confirmed(s1, 1, 7);
    var s3 := Acquired(Unlinked(s2, 1, 7), 3, 8);
    ConfirmPath(s1, 1, 7, 1);
    Append(FRESH, l1, s1, Confirm(1), s2, RESUMING);
    UnlinkThenAcquire(s2, 1, 7, 3, 8, RESUMING);
    labels := l1 + Confirm(1) + ([StepReleaser(1, Go(true))] + Acquire(3, 8));
    Append(FRESH, l1 + Confirm(1), s2, [StepReleaser(1, Go(true))] + Acquire(3, 8), s3, RESUMING);
    VisitedIsRun(FRESH, labels, s3);
    states := Visited(FRESH, labels, s3);
    assert HoldsLock(s3, 2) && HoldsLock(s3, 3);
  }

  // ---------- Two releases of one chain ----------

  const RELEASING := {StartDriver(1, 7, 2), StartReleaser(1, 7), StartReleaser(2, 7),
                      StartDriver(2, 8, 2), StartDriver(3, 9, 2)}

  function Orphaned(): State {
    var s := Acquired(FRESH, 1, 7);
    Crashed(s, 1, s.drivers[1])
  }

  lemma OrphanedPath() returns (labels: seq<Label>)
    ensures Path(FRESH, labels, Orphaned()) && Commands(labels, RELEASING)
  {
    var s := Acquired(FRESH, 1, 7);
    AcquirePath(FRESH, 1, 7);
    CrashPath(s, 1);
    labels := Acquire(1, 7) + [StepDriver(1, Crash)];
    Append(FRESH, Acquire(1, 7), s, [StepDriver(1, Crash)], Orphaned(), RELEASING);
  }

  lemma ExamineThenConfirm(s: State, q: Pid, c: ChainId, driver: Pid, commands: set<Label>)
    requires q !in s.releasers && s.lock.Some? && s.lock.value.content == Stamped(c, driver)
    requires !Lives(s.drivers, driver) && StartReleaser(q, c) in commands
    ensures var labels := Examine(q, c) + Confirm(q);
      Path(s, labels, Confirmed(s, q, c)) && Commands(labels, commands)
  {
    var s1 := Examined(s, q, c, driver);
    ExaminePath(s, q, c, driver);
    ConfirmPath(s1, q, c, driver);
    assert Confirmed(s1, q, c) == Confirmed(s, q, c);
    Append(s, Examine(q, c), s1, Confirm(q), Confirmed(s, q, c), commands);
  }

  /** Driver 1 crashes, two --release-lock commands both match its lock, the first unlinks, driver 2
      acquires a fresh chain, and the second unlinks that: no chain is ever resumed, and two live drivers
      hold the lock. */
  lemma ConcurrentReleases() returns (states: seq<State>, labels: seq<Label>)
    ensures IsRun(states, labels) && Commands(labels, RELEASING)
    ensures !MutualExclusion(states[|labels|])
  {
    var l1 := OrphanedPath();
    var s1 := Orphaned();
    var s2 := Confirmed(s1, 1, 7);
    var s3 := Confirmed(s2, 2, 7);
    var s4 := Acquired(Unlinked(s3, 1, 7), 2, 8);
    var s5 := Acquired(Unlinked(s4, 2, 7), 3, 9);
    ExamineThenConfirm(s1, 1, 7, 1, RELEASING);
    ExamineThenConfirm(s2, 2, 7, 1, RELEASING);
    UnlinkThenAcquire(s3, 1, 7, 2, 8, RELEASING);
    UnlinkThenAcquire(s4, 2, 7, 3, 9, RELEASING);
    var c1, c2 := Examine(1, 7) + Confirm(1), Examine(2, 7) + Confirm(2);
    var u1, u2 := [StepReleaser(1, Go(true))] + Acquire(2, 8), [StepReleaser(2, Go(true))] + Acquire(3, 9);
    Append(FRESH, l1, s1, c1, s2, RELEASING);
    Append(FRESH, l1 + c1, s2, c2, s3, RELEASING);
    Append(FRESH, l1 + c1 + c2, s3, u1, s4, RELEASING);
    Append(FRESH, l1 + c1 + c2 + u1, s4, u2, s5, RELEASING);
    labels := l1 + c1 + c2 + u1 + u2;
    VisitedIsRun(FRESH, labels, s5);
    states := Visited(FRESH, labels, s5);
    assert HoldsLock(s5, 2) && HoldsLock(s5, 3);
  }
}
