/** A pause that can be resumed. */
module ChainResume {
  import opened Optional
  import opened ChainProtocol
  import opened ChainTraces

  // With a call to stamp_pause_start between chain-pause and chain-resume (no command makes one) chain-resume
  // adds the window to the total and releases the lock. ChainPauses shows that without such a call no resume
  // ever gets that far.

  /** Driver d of chain c is at its pause probe. */
  function Running(d: Pid, c: ChainId): State {
    var s := Acquired(FRESH, d, c);
    s.(manifest := Some(Ledger(c, 0, None, [])), drivers := s.drivers[d := Driver(c, Probing, 2, PhaseSuccess, true)])
  }

  lemma RunningPath(d: Pid, c: ChainId)
    ensures Path(FRESH, Acquire(d, c) + [StepDriver(d, StampStart)], Running(d, c))
  {
    var s := Acquired(FRESH, d, c);
    AcquirePath(FRESH, d, c);
    Step1(s, StepDriver(d, StampStart), Running(d, c));
    Join(FRESH, Acquire(d, c), s, [StepDriver(d, StampStart)], Running(d, c));
  }

  /** The running lock names this chain and this driver, who is alive. */
  predicate Drives(s: State, d: Pid, c: ChainId) {
    s.lock.Some? && s.lock.value.content == Stamped(c, d) && Lives(s.drivers, d)
  }

  /** chain-pause, from its look at the running lock to a durable sentinel. */
  function Pausing(p: Pid): seq<Label> {
    [StartPauser(p), StepPauser(p, Go(true))] + [StepPauser(p, Go(true)), StepPauser(p, Go(true))]
    + [StepPauser(p, Go(true)), StepPauser(p, Go(true))] + [StepPauser(p, Go(true))]
  }

  function AtPauser(s: State, p: Pid, c: ChainId, pc: PauserPc): State {
    s.(pausers := s.pausers[p := Pauser(pc, c)])
  }

  function PausedState(s: State, p: Pid, c: ChainId): State {
    AtPauser(s, p, c, PDone).(pause := Some(PauseFile(p, PausedFor(c))))
  }

  /** It finds the lock stamped, the driver alive and a manifest. */
  lemma PauseChecksPath(s: State, p: Pid, d: Pid, c: ChainId)
    requires Drives(s, d, c) && s.manifest.Some? && p !in s.pausers
    ensures Path(s, [StartPauser(p), StepPauser(p, Go(true))] + [StepPauser(p, Go(true)), StepPauser(p, Go(true))],
                 AtPauser(s, p, c, PCreate))
  {
    var s1 := AtPauser(s, p, c, PAlive(d));
    var go := StepPauser(p, Go(true));
    Step2(s, StartPauser(p), go, s1);
    Step2(s1, go, go, AtPauser(s, p, c, PCreate));
    Join(s, [StartPauser(p), go], s1, [go, go], AtPauser(s, p, c, PCreate));
  }

  lemma PauseWritesPath(s: State, p: Pid, c: ChainId)
    requires s.pause.None? && p in s.pausers && s.pausers[p] == Pauser(PCreate, c)
    ensures Path(s, [StepPauser(p, Go(true)), StepPauser(p, Go(true))]
        + [StepPauser(p, Go(true))], PausedState(s, p, c))
  {
    var go, s1 := StepPauser(p, Go(true)), AtPauser(PausedState(s, p, c), p, c, PSync);
    Step2(s, go, go, s1);
    Step1(s1, go, PausedState(s, p, c));
    Join(s, [go, go], s1, [go], PausedState(s, p, c));
  }

  /** Main result: with a live driver, a manifest and no pause lock, a chain-pause whose writes succeed ends with the
      lock held for the chain that is running. */
  lemma PausePath(s: State, p: Pid, d: Pid, c: ChainId)
    requires Drives(s, d, c) && s.manifest.Some? && s.pause.None? && p !in s.pausers
    ensures Path(s, Pausing(p), PausedState(s, p, c))
    ensures PausedState(s, p, c).pause == Some(PauseFile(p, PausedFor(c)))
  {
    var go := StepPauser(p, Go(true));
    PauseChecksPath(s, p, d, c);
    PauseWritesPath(AtPauser(s, p, c, PCreate), p, c);
    assert PausedState(AtPauser(s, p, c, PCreate), p, c) == PausedState(s, p, c);
    Join(s, [StartPauser(p), go] + [go, go], AtPauser(s, p, c, PCreate), [go, go] + [go], PausedState(s, p, c));
    assert Pausing(p) == [StartPauser(p), go] + [go, go] + ([go, go] + [go]);
  }

  function Opening(s: State, now: int): State
    requires s.manifest.Some?
  {
    s.(manifest := Some(s.manifest.value.(since := Some(OpenWindow(s.minted, now)))), minted := s.minted + 1)
  }

  /** chain-resume, to the stamp. */
  function Resuming(r: Pid, now: int): seq<Label> {
    [StartResumer(r), StepResumer(r, Go(true), now)] + [StepResumer(r, Go(true), now), StepResumer(r, Go(true), now)]
  }

  function AtResumer(s: State, r: Pid, c: ChainId, pc: ResumerPc): State {
    s.(resumers := s.resumers[r := Resumer(pc, c)])
  }

  lemma ResumePath(s: State, r: Pid, d: Pid, c: ChainId, now: int)
    requires Drives(s, d, c) && s.pause.Some? && s.pause.value.content == PausedFor(c) && r !in s.resumers
    ensures Path(s, Resuming(r, now), AtResumer(s, r, c, RStamp))
  {
    var s1 := AtResumer(s, r, c, RLock);
    var go := StepResumer(r, Go(true), now);
    Step2(s, StartResumer(r), go, s1);
    Step2(s1, go, go, AtResumer(s, r, c, RStamp));
    Join(s, [StartResumer(r), go], s1, [go, go], AtResumer(s, r, c, RStamp));
  }

  function Stamping(s: State, r: Pid, c: ChainId, now: int): State
    requires s.manifest.Some? && s.manifest.value.since.Some?
  {
    var w := s.manifest.value.since.value.id;
    AtResumer(s, r, c, RCompare(w)).(manifest := Some(StampEnd(s.manifest.value, now)), credited := s.credited + {w})
  }

  lemma StampPath(s: State, r: Pid, c: ChainId, now: int)
    requires r in s.resumers && s.resumers[r] == Resumer(RStamp, c) && CanStamp(s.manifest, c)
    ensures Path(s, [StepResumer(r, Go(true), now)], Stamping(s, r, c, now))
  {
    Step1(s, StepResumer(r, Go(true), now), Stamping(s, r, c, now));
  }

  function Releasing(s: State, r: Pid, c: ChainId): State {
    AtResumer(s, r, c, RDone).(pause := None)
  }

  lemma ReleasePath(s: State, r: Pid, c: ChainId, w: nat, now: int)
    requires r in s.resumers && s.resumers[r] == Resumer(RCompare(w), c)
    requires s.pause.Some? && s.pause.value.content == PausedFor(c)
    ensures Path(s, [StepResumer(r, Go(true), now), StepResumer(r, Go(true), now)], Releasing(s, r, c))
  {
    Step2(s, StepResumer(r, Go(true), now), StepResumer(r, Go(true), now), Releasing(s, r, c));
  }

  function StampedState(d: Pid, c: ChainId, since: int, now: int): State {
    Stamping(AtResumer(Opening(PausedState(Running(d, c), 1, c), since), 1, c, RStamp), 1, c, now)
  }

  /** Everything up to the stamp. */
  lemma StampedPath(d: Pid, c: ChainId, since: int, now: int) returns (labels: seq<Label>)
    ensures Path(FRESH, labels, StampedState(d, c, since, now))
  {
    var s1 := PausedState(Running(d, c), 1, c);
    var s2 := Opening(s1, since);
    var s3 := AtResumer(s2, 1, c, RStamp);
    var l1 := Acquire(d, c) + [StepDriver(d, StampStart)];
    RunningPath(d, c);
    PausePath(Running(d, c), 1, d, c);
    Join(FRESH, l1, Running(d, c), Pausing(1), s1);
    Step1(s1, StampPauseStart(c, since), s2);
    Join(FRESH, l1 + Pausing(1), s1, [StampPauseStart(c, since)], s2);
    ResumePath(s2, 1, d, c, now);
    var l3 := l1 + Pausing(1) + [StampPauseStart(c, since)];
    Join(FRESH, l3, s2, Resuming(1, now), s3);
    StampPath(s3, 1, c, now);
    labels := l3 + Resuming(1, now) + [StepResumer(1, Go(true), now)];
    Join(FRESH, l3 + Resuming(1, now), s3, [StepResumer(1, Go(true), now)], StampedState(d, c, since, now));
  }

  /** For every driver, chain and pause there is a run in which chain-resume counts the pause and releases the lock. */
  lemma PauseCanBeResumed(d: Pid, c: ChainId, since: int, now: int) returns (states: seq<State>, labels: seq<Label>)
    ensures IsRun(states, labels)
    ensures var s := states[|labels|];
      s.pause.None? && s.manifest.Some? && s.manifest.value.total == if since < now then now - since else 0
  {
    var s := StampedState(d, c, since, now);
    var l := StampedPath(d, c, since, now);
    var go := StepResumer(1, Go(true), now);
    ReleasePath(s, 1, c, 0, now);
    labels := l + [go, go];
    Join(FRESH, l, s, [go, go], Releasing(s, 1, c));
    VisitedIsRun(FRESH, labels, Releasing(s, 1, c));
    states := Visited(FRESH, labels, Releasing(s, 1, c));
  }
}
