/**
 What a driver and a --release-lock achieve when nobody interferes (bin/_chain_overnight/main.py).

 The safety laws say what no process does; these say that the steps do lead to the end.
 */
module ChainUndisturbed {
  import opened Optional
  import opened ChainProtocol
  import opened ChainMutex
  import opened ChainTraces

  // ---------- A driver ----------

  function At(s: State, p: Pid, d: Driver): State {
    s.(drivers := s.drivers[p := d])
  }

  /** Probe, cap, lock, spawn and a clean pass. */
  function OnePhase(p: Pid): seq<Label> {
    [StepDriver(p, Probe)] + [StepDriver(p, CheckCap(true))] + [StepDriver(p, Recheck)] + [StepDriver(p, Spawn)]
    + [StepDriver(p, Finish(Passed(true)))]
  }

  /** At the top of the phase loop, with its own lock in place and no pause. */
  predicate Ready(s: State, p: Pid, d: Driver) {
    && p in s.drivers && s.drivers[p] == d && d.alive && d.pc == Probing && d.halt == PhaseSuccess
    && 2 <= d.phase <= 5 && Mine(s.lock, d.chain) && !IsHeld(s.pause)
  }

  function AfterClean(d: Driver): Driver {
    if d.phase < 5 then d.(phase := d.phase + 1) else d.(pc := FlushingPause)
  }

  /** A step that changes no file. */
  lemma Move(s: State, p: Pid, d: Driver, a: DriverAct, d2: Driver)
    requires p in s.drivers && s.drivers[p] == d && DriverMay(d, a) && DriverNext(s, p, d, a) == d2
    requires a.Probe? || a.CheckCap? || a.Recheck? || a.Spawn? || a.Finish? || a.FlushRead?
    ensures Path(s, [StepDriver(p, a)], At(s, p, d2)) && At(s, p, d2).drivers[p] == d2
  {
    Step1(s, StepDriver(p, a), At(s, p, d2));
  }

  lemma AtAt(s: State, p: Pid, d: Driver, d2: Driver)
    ensures At(At(s, p, d), p, d2) == At(s, p, d2)
  {}

  /** One more such step behind a path. */
  lemma Then(s: State, l: seq<Label>, p: Pid, d: Driver, a: DriverAct, d2: Driver)
    requires Path(s, l, At(s, p, d)) && DriverMay(d, a) && DriverNext(At(s, p, d), p, d, a) == d2
    requires a.Probe? || a.CheckCap? || a.Recheck? || a.Spawn? || a.Finish? || a.FlushRead?
    ensures Path(s, l + [StepDriver(p, a)], At(s, p, d2))
  {
    hide DriverNext, DriverMay, Path;
    Move(At(s, p, d), p, d, a, d2);
    AtAt(s, p, d, d2);
    Join(s, l, At(s, p, d), [StepDriver(p, a)], At(s, p, d2));
  }

  lemma PhasePath(s: State, p: Pid, d: Driver)
    requires Ready(s, p, d)
    ensures Path(s, OnePhase(p), At(s, p, AfterClean(d)))
  {
    hide Path;
    var l1 := [StepDriver(p, Probe)];
    Move(s, p, d, Probe, d.(pc := CapChecking));
    var l2 := l1 + [StepDriver(p, CheckCap(true))];
    Then(s, l1, p, d.(pc := CapChecking), CheckCap(true), d.(pc := Rechecking));
    var l3 := l2 + [StepDriver(p, Recheck)];
    Then(s, l2, p, d.(pc := Rechecking), Recheck, d.(pc := Spawning));
    Then(s, l3, p, d.(pc := Spawning), Spawn, d.(pc := InPhase));
    Then(s, l3 + [StepDriver(p, Spawn)], p, d.(pc := InPhase), Finish(Passed(true)), AfterClean(d));
  }

  /** The phases from d's own to the last. */
  function Phases(p: Pid, phase: nat): seq<Label>
    decreases 5 - phase
  {
    if phase >= 5 then OnePhase(p) else OnePhase(p) + Phases(p, phase + 1)
  }

  lemma {:induction false} PhasesPath(s: State, p: Pid, d: Driver)
    requires Ready(s, p, d)
    ensures Path(s, Phases(p, d.phase), At(s, p, d.(pc := FlushingPause, phase := 5)))
    decreases 5 - d.phase
  {
    hide Path, OnePhase;
    PhasePath(s, p, d);
    if d.phase < 5 {
      var d2 := AfterClean(d);
      PhasesPath(At(s, p, d2), p, d2);
      AtAt(s, p, d2, d2.(pc := FlushingPause, phase := 5));
      Join(s, OnePhase(p), At(s, p, d2), Phases(p, d2.phase), At(s, p, d.(pc := FlushingPause, phase := 5)));
    }
  }

  /** The flush of a driver that holds its own lock. */
  function Flush(p: Pid): seq<Label> {
    [StepDriver(p, FlushPause(true)), StepDriver(p, FlushRead)]
        + [StepDriver(p, FlushUnlink(true)), StepDriver(p, Exit)]
  }

  function Closed(s: State, p: Pid, d: Driver): State {
    At(s, p, d.(pc := Done, alive := false)).(lock := None, pause := None)
  }

  function Unpaused(s: State, p: Pid, d: Driver): State {
    At(s, p, d.(pc := FlushUnlinking)).(pause := None)
  }

  lemma FlushBegins(s: State, p: Pid, d: Driver)
    requires p in s.drivers && s.drivers[p] == d && d.alive && d.pc == FlushingPause && Mine(s.lock, d.chain)
    ensures Path(s, [StepDriver(p, FlushPause(true)), StepDriver(p, FlushRead)], Unpaused(s, p, d))
  {
    Step2(s, StepDriver(p, FlushPause(true)), StepDriver(p, FlushRead), Unpaused(s, p, d));
  }

  lemma FlushEnds(s: State, p: Pid, d: Driver)
    requires d.alive
    ensures Path(Unpaused(s, p, d), [StepDriver(p, FlushUnlink(true)), StepDriver(p, Exit)], Closed(s, p, d))
  {
    Step2(Unpaused(s, p, d), StepDriver(p, FlushUnlink(true)), StepDriver(p, Exit), Closed(s, p, d));
  }

  lemma FlushPath(s: State, p: Pid, d: Driver)
    requires p in s.drivers && s.drivers[p] == d && d.alive && d.pc == FlushingPause && Mine(s.lock, d.chain)
    ensures Path(s, Flush(p), Closed(s, p, d))
  {
    FlushBegins(s, p, d);
    FlushEnds(s, p, d);
    hide Path, Mine, Unpaused, Closed;
    Join(s, [StepDriver(p, FlushPause(true)), StepDriver(p, FlushRead)], Unpaused(s, p, d),
         [StepDriver(p, FlushUnlink(true)), StepDriver(p, Exit)], Closed(s, p, d));
  }

  /** Creating, writing, syncing, and stamping the manifest. */
  function Launch(p: Pid, c: ChainId, first: nat): seq<Label> {
    [StartDriver(p, c, first), StepDriver(p, TryCreate)] + [StepDriver(p, Write(true)), StepDriver(p, Sync(true))]
    + [StepDriver(p, StampStart)]
  }

  function Launched(s: State, p: Pid, d: Driver): State {
    At(s, p, d).(lock := Some(LockFile(p, Stamped(d.chain, p))), manifest := DriverManifest(s.manifest, d, StampStart))
  }

  function Created(s: State, p: Pid, d: Driver): State {
    At(s, p, d.(pc := Writing)).(lock := Some(LockFile(p, Blank)))
  }

  function Locked(s: State, p: Pid, d: Driver): State {
    At(s, p, d.(pc := Starting)).(lock := Some(LockFile(p, Stamped(d.chain, p))))
  }

  lemma LaunchCreates(s: State, p: Pid, d: Driver)
    requires s.lock.None? && p !in s.drivers && 2 <= d.phase <= 5
        && d == Driver(d.chain, Probing, d.phase, PhaseSuccess, true)
    ensures Path(s, [StartDriver(p, d.chain, d.phase), StepDriver(p, TryCreate)], Created(s, p, d))
  {
    Step2(s, StartDriver(p, d.chain, d.phase), StepDriver(p, TryCreate), Created(s, p, d));
  }

  lemma LaunchWrites(s: State, p: Pid, d: Driver)
    requires d.alive
    ensures Path(Created(s, p, d), [StepDriver(p, Write(true)), StepDriver(p, Sync(true))], Locked(s, p, d))
  {
    Step2(Created(s, p, d), StepDriver(p, Write(true)), StepDriver(p, Sync(true)), Locked(s, p, d));
  }

  lemma LaunchStamps(s: State, p: Pid, d: Driver)
    requires d.alive && d.pc == Probing
    ensures Path(Locked(s, p, d), [StepDriver(p, StampStart)], Launched(s, p, d))
  {
    Step1(Locked(s, p, d), StepDriver(p, StampStart), Launched(s, p, d));
  }

  lemma LaunchPath(s: State, p: Pid, c: ChainId, first: nat)
    requires s.lock.None? && p !in s.drivers && 2 <= first <= 5
    ensures Path(s, Launch(p, c, first), Launched(s, p, Driver(c, Probing, first, PhaseSuccess, true)))
  {
    hide Path, Created, Locked, Launched;
    var d := Driver(c, Probing, first, PhaseSuccess, true);
    var l1, l2 := [StartDriver(p, c, first), StepDriver(p, TryCreate)], [StepDriver(p, Write(true)), StepDriver(p,
        Sync(true))];
    LaunchCreates(s, p, d);
    LaunchWrites(s, p, d);
    LaunchStamps(s, p, d);
    Join(s, l1, Created(s, p, d), l2, Locked(s, p, d));
    Join(s, l1 + l2, Locked(s, p, d), [StepDriver(p, StampStart)], Launched(s, p, d));
  }

  /** Main result: a driver launched into a directory without a lock or a held pause, whose phases all pass, runs every
      phase from its first to the last, ends as phase_success, and leaves neither lock. */
  lemma ChainCompletes(s: State, p: Pid, c: ChainId, first: nat) returns (t: State)
    requires s.lock.None? && !IsHeld(s.pause) && p !in s.drivers && 2 <= first <= 5
    ensures Path(s, Launch(p, c, first) + Phases(p, first) + Flush(p), t)
    ensures t.lock.None? && t.pause.None? && t.drivers == s.drivers[p := Driver(c, Done, 5, PhaseSuccess, false)]
  {
    hide Path, Launch, Phases, Flush, DriverManifest;
    var d := Driver(c, Probing, first, PhaseSuccess, true);
    var d2 := d.(pc := FlushingPause, phase := 5);
    var s1 := Launched(s, p, d);
    LaunchPath(s, p, c, first);
    PhasesPath(s1, p, d);
    Join(s, Launch(p, c, first), s1, Phases(p, first), At(s1, p, d2));
    t := Closed(At(s1, p, d2), p, d2);
    FlushPath(At(s1, p, d2), p, d2);
    Join(s, Launch(p, c, first) + Phases(p, first), At(s1, p, d2), Flush(p), t);
  }

  /** A running lock whose write or sync fails is taken back by the driver's next step, and the driver is through. */
  lemma FailedLaunchIsTakenBack(s: State, p: Pid, a: DriverAct)
    requires p in s.drivers && DriverMay(s.drivers[p], a) && (a == Write(false) || a == Sync(false))
    ensures var s1 := Do(s, StepDriver(p, a));
      && s1.lock == s.lock && Enabled(s1, StepDriver(p, Clean(true)))
      && var s2 := Do(s1, StepDriver(p, Clean(true))); s2.lock.None? && s2.drivers[p].pc == Done
  {}

  // ---------- chain-overnight --release-lock ----------

  function Release(r: Pid, c: ChainId): seq<Label> {
    [StartReleaser(r, c), StepReleaser(r, Go(true))] + [StepReleaser(r, Go(true)), StepReleaser(r, Go(true))]
    + [StepReleaser(r, Go(true)), StepReleaser(r, Go(true))]
  }

  function AtReleaser(s: State, r: Pid, c: ChainId, pc: ReleaserPc): State {
    s.(releasers := s.releasers[r := Releaser(pc, c)])
  }

  function Cleared(s: State, r: Pid, c: ChainId): State {
    AtReleaser(s, r, c, LDone).(lock := None, pause := None)
  }

  lemma ReleaseReads(s: State, r: Pid, c: ChainId, d: Pid)
    requires Mine(s.lock, c) && s.lock.value.content.driver == d && r !in s.releasers
    ensures Path(s, [StartReleaser(r, c), StepReleaser(r, Go(true))], AtReleaser(s, r, c, LAlive(d)))
  {
    Step2(s, StartReleaser(r, c), StepReleaser(r, Go(true)), AtReleaser(s, r, c, LAlive(d)));
  }

  lemma ReleaseChecks(s: State, r: Pid, c: ChainId, d: Pid)
    requires Mine(s.lock, c) && !Lives(s.drivers, d)
    ensures Path(AtReleaser(s, r, c, LAlive(d)), [StepReleaser(r, Go(true)), StepReleaser(r, Go(true))],
                 AtReleaser(s, r, c, LUnlink))
  {
    Step2(AtReleaser(s, r, c, LAlive(d)), StepReleaser(r, Go(true)), StepReleaser(r, Go(true)), AtReleaser(s, r, c,
        LUnlink));
  }

  lemma ReleaseRemoves(s: State, r: Pid, c: ChainId)
    ensures Path(AtReleaser(s, r, c, LUnlink), [StepReleaser(r, Go(true)), StepReleaser(r, Go(true))], Cleared(s, r, c))
  {
    Step2(AtReleaser(s, r, c, LUnlink), StepReleaser(r, Go(true)), StepReleaser(r, Go(true)), Cleared(s, r, c));
  }

  /** Main result: once the driver named in the lock is dead, --release-lock with that chain id clears both locks. */
  lemma DeadChainIsCleared(s: State, r: Pid, c: ChainId) returns (t: State)
    requires Mine(s.lock, c) && !Lives(s.drivers, s.lock.value.content.driver) && r !in s.releasers
    ensures Path(s, Release(r, c), t) && t.lock.None? && t.pause.None? && t.drivers == s.drivers
  {
    var go, d := StepReleaser(r, Go(true)), s.lock.value.content.driver;
    ReleaseReads(s, r, c, d);
    ReleaseChecks(s, r, c, d);
    ReleaseRemoves(s, r, c);
    t := Cleared(s, r, c);
    assert t.lock.None? && t.pause.None? && t.drivers == s.drivers;
    hide Path, Cleared, AtReleaser, Mine, Lives;
    Join(s, [StartReleaser(r, c), go], AtReleaser(s, r, c, LAlive(d)), [go, go], AtReleaser(s, r, c, LUnlink));
    Join(s, [StartReleaser(r, c), go] + [go, go], AtReleaser(s, r, c, LUnlink), [go, go], t);
  }
}
