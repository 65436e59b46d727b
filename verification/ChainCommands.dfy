/** What the operator commands have seen before they act. */
module ChainCommands {
  import opened Optional
  import opened ChainProtocol
  import opened ChainMutex

  // Each law is about every run and every interleaving: it returns the instants of the run at which the command made
  // the observations that its effect depends on, in their order, all of them after its own launch.

  /** The lock file names this chain and this driver. */
  predicate Names(lock: Option<LockFile>, chain: ChainId, driver: Pid) {
    lock.Some? && lock.value.content == Stamped(chain, driver)
  }

  predicate Pauses(pause: Option<PauseFile>, chain: ChainId) {
    pause.Some? && pause.value.content == PausedFor(chain)
  }

  // ---------- chain-pause ----------

  /** Instants of a run: launch, reading the running lock, probing the driver, finding a manifest, creating. */
  datatype PauseTrail = PauseTrail(launch: nat, read: nat, driver: Pid, alive: nat, ready: nat, create: nat)

  function PauserStage(pc: PauserPc): nat {
    match pc
    case PLook => 0
    case PAlive(_) => 1
    case PManifest => 2
    case PCreate => 3
    case PWrite => 4
    case PSync => 4
    case PClean => 4
    case PDone => 0
  }

  /** What chain-pause p, now at q, has seen among the first i steps. */
  ghost predicate PauserSaw(states: seq<State>, labels: seq<Label>, i: nat, p: Pid, q: Pauser, t: PauseTrail)
    requires |states| == |labels| + 1 && i < |states|
  {
    var n := PauserStage(q.pc);
    && t.launch < i && labels[t.launch] == StartPauser(p)
    && (n >= 1 ==> t.launch < t.read < i && Names(states[t.read].lock, q.chain, t.driver))
    && (n == 1 ==> q.pc == PAlive(t.driver))
    && (n >= 2 ==> t.read < t.alive < i && Lives(states[t.alive].drivers, t.driver))
    && (n >= 3 ==> t.alive < t.ready < i && states[t.ready].manifest.Some?)
    && (n >= 4 ==> t.ready < t.create < i && states[t.create].pause.None?
                   && states[t.create + 1].pause == Some(PauseFile(p, Unwritten)))
  }

  /** One more step of the command itself, from q to q2. */
  lemma PauserSees(states: seq<State>, labels: seq<Label>, i: nat, p: Pid, q: Pauser, ok: bool, t: PauseTrail)
    returns (t2: PauseTrail)
    requires |states| == |labels| + 1 && i < |labels| && PauserSaw(states, labels, i, p, q, t)
    requires q.pc == PCreate && states[i].pause.None? ==> states[i + 1].pause == Some(PauseFile(p, Unwritten))
    ensures PauserSaw(states, labels, i + 1, p, PauserNext(states[i], q, ok), t2)
  {
    var s := states[i];
    t2 := match q.pc
      case PLook =>
        if s.lock.Some? && s.lock.value.content.Stamped?
        then t.(read := i, driver := s.lock.value.content.driver) else t
      case PAlive(_) => t.(alive := i)
      case PManifest => t.(ready := i)
      case PCreate => t.(create := i)
      case _ => t;
  }

  lemma PauserCreates(s: State, p: Pid, q: Pauser, ok: bool)
    requires p in s.pausers && s.pausers[p] == q && q.pc == PCreate && s.pause.None?
    ensures DoPauser(s, p, Go(ok)).pause == Some(PauseFile(p, Unwritten))
  {}

  lemma PauserMoves(s: State, p: Pid, go: Act)
    requires p in s.pausers && go.Go?
    ensures DoPauser(s, p, go).pausers == s.pausers[p := PauserNext(s, s.pausers[p], go.ok)]
  {}

  lemma PausersStay(s: State, l: Label, p: Pid)
    ensures Enabled(s, l) && p in Do(s, l).pausers && l != StartPauser(p) ==> p in s.pausers
    ensures Enabled(s, l) && p in s.pausers && !(l.StepPauser? && l.pid == p) ==>
      p in Do(s, l).pausers && Do(s, l).pausers[p] == s.pausers[p] && l != StartPauser(p)
  {}

  lemma {:induction false} PauserHistory(states: seq<State>, labels: seq<Label>, i: nat, p: Pid) returns (t: PauseTrail)
    requires IsRun(states, labels) && i < |states| && p in states[i].pausers
    ensures PauserSaw(states, labels, i, p, states[i].pausers[p], t)
  {
    if i == 0 {
      assert false;
    } else {
      StepOf(states, labels, i - 1);
      var s, l := states[i - 1], labels[i - 1];
      PausersStay(s, l, p);
      if l == StartPauser(p) {
        t := PauseTrail(i - 1, 0, 0, 0, 0, 0);
      } else {
        t := PauserHistory(states, labels, i - 1, p);
        hide PauserNext, PauserPause;
        if l.StepPauser? && l.pid == p && l.go.Go? {
          var q := s.pausers[p];
          PauserMoves(s, p, l.go);
          if q.pc == PCreate && s.pause.None? {
            PauserCreates(s, p, q, l.go.ok);
          }
          t := PauserSees(states, labels, i - 1, p, q, l.go.ok, t);
        }
      }
    }
  }

  /** Main result: whenever a pause lock appears or is written, in any run, the one who does it is a chain-pause that
      since its launch has read the running lock, found the driver named there alive, and then found a manifest, in
      this order; and what it writes names the chain of that lock. */
  lemma OnlyALiveChainIsPaused(states: seq<State>, labels: seq<Label>, i: nat) returns (t: PauseTrail, chain: ChainId)
    requires IsRun(states, labels) && i < |labels|
    requires states[i + 1].pause.Some? && states[i + 1].pause != states[i].pause
    ensures labels[i].StepPauser? && states[i + 1].pause.value.creator == labels[i].pid
    ensures t.launch < t.read < t.alive < t.ready < i && labels[t.launch] == StartPauser(labels[i].pid)
    ensures Names(states[t.read].lock, chain, t.driver)
    ensures t.driver in states[t.alive].drivers && states[t.alive].drivers[t.driver].alive
    ensures states[t.ready].manifest.Some?
    ensures IsHeld(states[i + 1].pause) ==> Pauses(states[i + 1].pause, chain)
  {
    StepOf(states, labels, i);
    var p := labels[i].pid;
    t := PauserHistory(states, labels, i, p);
    chain := states[i].pausers[p].chain;
  }

  ghost predicate NobodyLives(s: State) {
    forall d | d in s.drivers :: !s.drivers[d].alive
  }

  lemma DeathIsFinal(s: State, l: Label)
    ensures Enabled(s, l) && NobodyLives(s) && !l.StartDriver? ==> NobodyLives(Do(s, l))
  {}

  lemma {:induction false} NobodyRises(states: seq<State>, labels: seq<Label>, i: nat, j: nat)
    requires IsRun(states, labels) && i <= j < |states| && NobodyLives(states[i])
    requires forall k | i <= k < j :: !labels[k].StartDriver?
    ensures NobodyLives(states[j])
  {
    if i < j {
      NobodyRises(states, labels, i, j - 1);
      StepOf(states, labels, j - 1);
      DeathIsFinal(states[j - 1], labels[j - 1]);
    }
  }

  lemma PauserRemains(s: State, l: Label, p: Pid)
    ensures Enabled(s, l) && (p in s.pausers || l == StartPauser(p)) ==> p in Do(s, l).pausers
  {}

  lemma {:induction false} PauserIsKept(states: seq<State>, labels: seq<Label>, i: nat, j: nat, p: Pid)
    requires IsRun(states, labels) && i < j < |states| && labels[i] == StartPauser(p)
    ensures p in states[j].pausers
  {
    StepOf(states, labels, j - 1);
    PauserRemains(states[j - 1], labels[j - 1], p);
    if i < j - 1 {
      PauserIsKept(states, labels, i, j - 1, p);
    }
  }

  lemma LaunchedOnce(states: seq<State>, labels: seq<Label>, i: nat, j: nat, p: Pid)
    requires IsRun(states, labels) && i < |labels| && j < |labels|
    requires labels[i] == labels[j] == StartPauser(p)
    ensures i == j
  {
    StepOf(states, labels, i);
    StepOf(states, labels, j);
    if i < j {
      PauserIsKept(states, labels, i, j, p);
    } else if j < i {
      PauserIsKept(states, labels, j, i, p);
    }
  }

  /** So one launched after the last driver died, with none started since, never touches the pause lock. */
  lemma DeadChainIsNotPaused(states: seq<State>, labels: seq<Label>, l: nat, i: nat, p: Pid, go: Act)
    requires IsRun(states, labels) && l <= i < |labels|
    requires labels[l] == StartPauser(p) && NobodyLives(states[l]) && labels[i] == StepPauser(p, go)
    requires forall k | l <= k < i :: !labels[k].StartDriver?
    ensures states[i + 1].pause == states[i].pause
  {
    StepOf(states, labels, i);
    var t := PauserHistory(states, labels, i, p);
    LaunchedOnce(states, labels, t.launch, l, p);
    if PauserStage(states[i].pausers[p].pc) >= 2 {
      NobodyRises(states, labels, l, t.alive);
      assert false;
    }
  }

  // ---------- chain-resume ----------

  /** Launch, reading the pause lock, reading the running lock, probing the driver, stamping the window, comparing the
      pause lock. */
  datatype ResumeTrail =
    ResumeTrail(launch: nat, look: nat, read: nat, running: ChainId, driver: Pid, alive: nat, stamp: nat, compare: nat)

  function ResumerStage(pc: ResumerPc): nat {
    match pc
    case RLook => 0
    case RLock => 1
    case RAlive(_, _) => 2
    case RStamp => 3
    case RCompare(_) => 4
    case RUnlink(_) => 5
    case RDone => 0
  }

  /** The open window of the manifest is w. */
  predicate Opens(manifest: Option<Ledger>, chain: ChainId, w: nat) {
    CanStamp(manifest, chain) && manifest.value.since.value.id == w
  }

  ghost predicate ResumerSaw(states: seq<State>, labels: seq<Label>, i: nat, p: Pid, r: Resumer, t: ResumeTrail)
    requires |states| == |labels| + 1 && i < |states|
  {
    var n := ResumerStage(r.pc);
    && t.launch < i && labels[t.launch] == StartResumer(p)
    && (n >= 1 ==> t.launch < t.look < i && Pauses(states[t.look].pause, r.chain))
    && (n >= 2 ==> t.look < t.read < i && Names(states[t.read].lock, t.running, t.driver))
    && (n == 2 ==> r.pc == RAlive(t.running, t.driver))
    && (n >= 3 ==> t.running == r.chain && t.read < t.alive < i && Lives(states[t.alive].drivers, t.driver))
    && (n >= 4 ==> t.alive < t.stamp < i)
    && (n == 4 ==> Opens(states[t.stamp].manifest, r.chain, r.pc.window))
    && (n == 5 ==> Opens(states[t.stamp].manifest, r.chain, r.pc.window)
                   && t.stamp < t.compare < i && Pauses(states[t.compare].pause, r.chain))
  }

  lemma ResumerSees(states: seq<State>, labels: seq<Label>, i: nat, p: Pid, r: Resumer, t: ResumeTrail)
    returns (t2: ResumeTrail)
    requires |states| == |labels| + 1 && i < |labels| && ResumerSaw(states, labels, i, p, r, t)
    ensures ResumerSaw(states, labels, i + 1, p, ResumerNext(states[i], r), t2)
  {
    var s := states[i];
    t2 := match r.pc
      case RLook => t.(look := i)
      case RLock =>
        if s.lock.Some? && s.lock.value.content.Stamped?
        then t.(read := i, running := s.lock.value.content.chain, driver := s.lock.value.content.driver) else t
      case RAlive(_, _) => t.(alive := i)
      case RStamp => t.(stamp := i)
      case RCompare(_) => t.(compare := i)
      case _ => t;
  }

  lemma ResumersStay(s: State, l: Label, p: Pid)
    ensures Enabled(s, l) && p in Do(s, l).resumers && l != StartResumer(p) ==> p in s.resumers
    ensures Enabled(s, l) && p in s.resumers && !(l.StepResumer? && l.pid == p) ==>
      p in Do(s, l).resumers && Do(s, l).resumers[p] == s.resumers[p] && l != StartResumer(p)
  {}

  lemma ResumerMoves(s: State, p: Pid, go: Act, now: int)
    requires p in s.resumers
    ensures DoResumer(s, p, go, now).resumers
         == s.resumers[p := if go.Die? then s.resumers[p].(pc := RDone) else ResumerNext(s, s.resumers[p])]
  {}

  lemma {:induction false} ResumerHistory(states: seq<State>, labels: seq<Label>, i: nat, p: Pid)
      returns (t: ResumeTrail)
    requires IsRun(states, labels) && i < |states| && p in states[i].resumers
    ensures ResumerSaw(states, labels, i, p, states[i].resumers[p], t)
  {
    if i == 0 {
      assert false;
    } else {
      StepOf(states, labels, i - 1);
      var s, l := states[i - 1], labels[i - 1];
      ResumersStay(s, l, p);
      if l == StartResumer(p) {
        t := ResumeTrail(i - 1, 0, 0, 0, 0, 0, 0, 0);
      } else {
        t := ResumerHistory(states, labels, i - 1, p);
        if l.StepResumer? && l.pid == p {
          hide ResumerNext;
          ResumerMoves(s, p, l.go, l.now);
          if l.go.Go? {
            t := ResumerSees(states, labels, i - 1, p, s.resumers[p], t);
          }
        }
      }
    }
  }

  /** Main result: whenever a step of chain-resume changes anything, it has since its launch read a pause lock of this
      chain and a running lock of the same chain, and then found that lock's driver alive. It changes the manifest
      only by closing the chain's open window, and the pause lock only by removing it, after it closed such a window
      and then found the pause lock of that chain again. */
  lemma OnlyALiveChainIsResumed(states: seq<State>, labels: seq<Label>, i: nat) returns (t: ResumeTrail, chain: ChainId)
    requires IsRun(states, labels) && i < |labels| && labels[i].StepResumer?
    requires states[i + 1].manifest != states[i].manifest || states[i + 1].pause != states[i].pause
    ensures t.launch < t.look < t.read < t.alive < i && labels[t.launch] == StartResumer(labels[i].pid)
    ensures Pauses(states[t.look].pause, chain) && Names(states[t.read].lock, chain, t.driver)
    ensures t.driver in states[t.alive].drivers && states[t.alive].drivers[t.driver].alive
    ensures states[i + 1].manifest != states[i].manifest ==>
      CanStamp(states[i].manifest, chain)
          && states[i + 1].manifest == Some(StampEnd(states[i].manifest.value, labels[i].now))
    ensures states[i + 1].pause != states[i].pause ==>
      && states[i + 1].pause.None? && t.alive < t.stamp < t.compare < i
      && CanStamp(states[t.stamp].manifest, chain) && Pauses(states[t.compare].pause, chain)
  {
    StepOf(states, labels, i);
    var p := labels[i].pid;
    t := ResumerHistory(states, labels, i, p);
    chain := states[i].resumers[p].chain;
  }

  // ---------- chain-overnight --release-lock ----------

  /** Launch, reading the running lock, probing its driver, comparing. */
  datatype ReleaseTrail = ReleaseTrail(launch: nat, read: nat, driver: Pid, dead: nat, compare: nat)

  function ReleaserStage(pc: ReleaserPc): nat {
    match pc
    case LRead => 0
    case LAlive(_) => 1
    case LCompare => 2
    case LUnlink => 3
    case LPause => 4
    case LDone => 0
  }

  ghost predicate ReleaserSaw(states: seq<State>, labels: seq<Label>, i: nat, p: Pid, r: Releaser, t: ReleaseTrail)
    requires |states| == |labels| + 1 && i < |states|
  {
    var n := ReleaserStage(r.pc);
    && t.launch < i && labels[t.launch] == StartReleaser(p, r.chain)
    && (n >= 1 ==> t.launch < t.read < i && Names(states[t.read].lock, r.chain, t.driver))
    && (n == 1 ==> r.pc == LAlive(t.driver))
    && (n >= 2 ==> t.read < t.dead < i && !Lives(states[t.dead].drivers, t.driver))
    && (n >= 3 ==> t.dead < t.compare < i)
    && (n == 3 ==> Mine(states[t.compare].lock, r.chain))
    && (n == 4 ==> states[t.compare].lock.None? || Mine(states[t.compare].lock, r.chain))
  }

  lemma ReleaserSees(states: seq<State>, labels: seq<Label>, i: nat, p: Pid, r: Releaser, t: ReleaseTrail)
    returns (t2: ReleaseTrail)
    requires |states| == |labels| + 1 && i < |labels| && ReleaserSaw(states, labels, i, p, r, t)
    ensures ReleaserSaw(states, labels, i + 1, p, ReleaserNext(states[i], r), t2)
  {
    var s := states[i];
    t2 := match r.pc
      case LRead => if Mine(s.lock, r.chain) then t.(read := i, driver := s.lock.value.content.driver) else t
      case LAlive(_) => t.(dead := i)
      case LCompare => t.(compare := i)
      case _ => t;
  }

  lemma ReleaserMoves(s: State, p: Pid, go: Act)
    requires p in s.releasers && go.Go?
    ensures DoReleaser(s, p, go).releasers == s.releasers[p := ReleaserNext(s, s.releasers[p])]
  {}

  lemma ReleasersStay(s: State, l: Label, p: Pid)
    ensures Enabled(s, l) && p in Do(s, l).releasers && !(l.StartReleaser? && l.pid == p) ==> p in s.releasers
    ensures Enabled(s, l) && p in s.releasers && !(l.StepReleaser? && l.pid == p) ==>
      p in Do(s, l).releasers && Do(s, l).releasers[p] == s.releasers[p] && !(l.StartReleaser? && l.pid == p)
  {}

  lemma {:induction false} ReleaserHistory(states: seq<State>, labels: seq<Label>, i: nat, p: Pid)
      returns (t: ReleaseTrail)
    requires IsRun(states, labels) && i < |states| && p in states[i].releasers
    ensures ReleaserSaw(states, labels, i, p, states[i].releasers[p], t)
  {
    if i == 0 {
      assert false;
    } else {
      StepOf(states, labels, i - 1);
      var s, l := states[i - 1], labels[i - 1];
      ReleasersStay(s, l, p);
      if l.StartReleaser? && l.pid == p {
        t := ReleaseTrail(i - 1, 0, 0, 0, 0);
      } else {
        t := ReleaserHistory(states, labels, i - 1, p);
        hide ReleaserNext;
        if l.StepReleaser? && l.pid == p && l.go.Go? {
          ReleaserMoves(s, p, l.go);
          t := ReleaserSees(states, labels, i - 1, p, s.releasers[p], t);
        }
      }
    }
  }

  /** Main result: whenever a step of --release-lock changes a lock file, it removes it, after it has read a running
      lock of the chain id it was given and then found its driver dead; the running lock only after it matched that
      chain id again. */
  lemma OnlyADeadChainIsReleased(states: seq<State>, labels: seq<Label>, i: nat)
      returns (t: ReleaseTrail, chain: ChainId)
    requires IsRun(states, labels) && i < |labels| && labels[i].StepReleaser?
    requires states[i + 1].lock != states[i].lock || states[i + 1].pause != states[i].pause
    ensures t.launch < t.read < t.dead < t.compare < i && labels[t.launch] == StartReleaser(labels[i].pid, chain)
    ensures Names(states[t.read].lock, chain, t.driver)
    ensures t.driver in states[t.dead].drivers ==> !states[t.dead].drivers[t.driver].alive
    ensures states[t.compare].lock.None? || Mine(states[t.compare].lock, chain)
    ensures states[i + 1].lock != states[i].lock ==> states[i + 1].lock.None? && Mine(states[t.compare].lock, chain)
    ensures states[i + 1].pause != states[i].pause ==> states[i + 1].pause.None?
  {
    StepOf(states, labels, i);
    var p := labels[i].pid;
    t := ReleaserHistory(states, labels, i, p);
    chain := states[i].releasers[p].chain;
  }

  // ---------- Commands end ----------

  /** Steps a command may still take. */
  function PauserRank(pc: PauserPc): nat {
    match pc
    case PLook => 7
    case PAlive(_) => 6
    case PManifest => 5
    case PCreate => 4
    case PWrite => 3
    case PSync => 2
    case PClean => 1
    case PDone => 0
  }

  function ResumerRank(pc: ResumerPc): nat {
    match pc
    case RLook => 6
    case RLock => 5
    case RAlive(_, _) => 4
    case RStamp => 3
    case RCompare(_) => 2
    case RUnlink(_) => 1
    case RDone => 0
  }

  function ReleaserRank(pc: ReleaserPc): nat {
    match pc
    case LRead => 5
    case LAlive(_) => 4
    case LCompare => 3
    case LUnlink => 2
    case LPause => 1
    case LDone => 0
  }

  function RankOf(s: State, kind: Kind, p: Pid): nat {
    match kind
    case Pausing => if p in s.pausers then PauserRank(s.pausers[p].pc) else 7
    case Resuming => if p in s.resumers then ResumerRank(s.resumers[p].pc) else 6
    case Releasing => if p in s.releasers then ReleaserRank(s.releasers[p].pc) else 5
  }

  datatype Kind = Pausing | Resuming | Releasing

  predicate StepsBy(l: Label, kind: Kind, p: Pid) {
    match kind
    case Pausing => l.StepPauser? && l.pid == p
    case Resuming => l.StepResumer? && l.pid == p
    case Releasing => l.StepReleaser? && l.pid == p
  }

  /** Steps of the command among the first i. */
  function StepsTaken(labels: seq<Label>, kind: Kind, p: Pid, i: nat): nat
    requires i <= |labels|
  {
    if i == 0 then 0 else StepsTaken(labels, kind, p, i - 1) + (if StepsBy(labels[i - 1], kind, p) then 1 else 0)
  }

  lemma RankFalls(s: State, l: Label, kind: Kind, p: Pid)
    requires Enabled(s, l)
    ensures RankOf(Do(s, l), kind, p) + (if StepsBy(l, kind, p) then 1 else 0) <= RankOf(s, kind, p)
  {
    match kind
    case Pausing => PauserRankFalls(s, l, p);
    case Resuming => ResumerRankFalls(s, l, p);
    case Releasing => ReleaserRankFalls(s, l, p);
  }

  lemma PauserRankFalls(s: State, l: Label, p: Pid)
    requires Enabled(s, l)
    ensures RankOf(Do(s, l), Pausing, p) + (if StepsBy(l, Pausing, p) then 1 else 0) <= RankOf(s, Pausing, p)
  {
    PausersStay(s, l, p);
  }

  lemma ResumerRankFalls(s: State, l: Label, p: Pid)
    requires Enabled(s, l)
    ensures RankOf(Do(s, l), Resuming, p) + (if StepsBy(l, Resuming, p) then 1 else 0) <= RankOf(s, Resuming, p)
  {
    ResumersStay(s, l, p);
    if l.StepResumer? && l.pid == p {
      ResumerMoves(s, p, l.go, l.now);
    }
  }

  lemma ReleaserRankFalls(s: State, l: Label, p: Pid)
    requires Enabled(s, l)
    ensures RankOf(Do(s, l), Releasing, p) + (if StepsBy(l, Releasing, p) then 1 else 0) <= RankOf(s, Releasing, p)
  {
    ReleasersStay(s, l, p);
  }

  /** Main result: whatever the others do, a chain-pause ends after at most seven steps of its own, a chain-resume
      after six and a --release-lock after five: none of them waits or tries again. */
  lemma {:induction false} CommandsEnd(states: seq<State>, labels: seq<Label>, kind: Kind, p: Pid, i: nat)
    requires IsRun(states, labels) && i < |states|
    ensures StepsTaken(labels, kind, p, i) + RankOf(states[i], kind, p) <=
      (match kind case Pausing => 7 case Resuming => 6 case Releasing => 5)
  {
    hide Enabled, Do, StepsBy;
    if i > 0 {
      CommandsEnd(states, labels, kind, p, i - 1);
      StepOf(states, labels, i - 1);
      RankFalls(states[i - 1], labels[i - 1], kind, p);
    }
  }

  /** A pause lock whose write or sync fails is taken back by the command's next step. */
  lemma FailedPauseIsTakenBack(s: State, p: Pid)
    requires p in s.pausers && (s.pausers[p].pc == PWrite || s.pausers[p].pc == PSync)
    ensures var s1 := Do(s, StepPauser(p, Go(false)));
      s1.pause == s.pause && Enabled(s1, StepPauser(p, Go(true))) && Do(s1, StepPauser(p, Go(true))).pause.None?
  {}
}
