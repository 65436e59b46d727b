/**
 The chain driver, its two lock files and the operator commands as one transition system
 (bin/_chain_overnight, bin/_chain_pause, bin/_chain_resume).
 */
module ChainProtocol {
  import opened Optional

  // Every process takes its steps one file operation at a time and may crash before any of them.
  // An `exists()` test followed by a read is one step here: if the file is missing at the test the
  // outcome is that of a read at that instant, and otherwise that of the read itself, so the pair
  // always behaves like a single read at one of its two instants. A create, the write that
  // follows it and the fsync after that are separate steps, and so are a comparison and the unlink
  // that follows it: what was written is visible to every reader before it is durable.

  type Pid = nat
  type ChainId = nat

  // ---------- Files ----------

  /** Blank: empty or partly written, which every reader treats as an object without fields. */
  datatype LockContent = Blank | Stamped(chain: ChainId, driver: Pid)

  /** `creator` identifies the inode: a write goes to the file its writer created. */
  datatype LockFile = LockFile(creator: Pid, content: LockContent)

  datatype PauseContent = Unwritten | PausedFor(chain: ChainId)

  datatype PauseFile = PauseFile(creator: Pid, content: PauseContent)

  /** A pause window, numbered in the order windows are opened. */
  datatype Window = Window(id: nat, since: int, until: int)

  datatype OpenWindow = OpenWindow(id: nat, since: int)

  /** The accounting part of the manifest; `closed` lists the windows added to `total` since the manifest was created.
      */
  datatype Ledger = Ledger(chain: ChainId, total: int, since: Option<OpenWindow>, closed: seq<Window>)

  // ---------- Processes ----------

  datatype HaltReason = PhaseSuccess | NeedsHuman | OtherVerdict | WallClock | Foreign | SealedPath | OperatorKilled

  datatype DriverPc =
    | Creating       // before os.open(O_CREAT | O_EXCL)
    | Writing        // created; still empty
    | Syncing        // content visible, not yet durable
    | Cleaning(visible: bool) // write or fsync failed; about to unlink the file
    | Starting       // acquired; before stamp_chain_start
    | Probing        // top of the phase loop: is the pause lock held?
    | CapChecking
    | Rechecking     // foreign-sentinel check
    | Spawning
    | InPhase
    | FlushingPause  // flush(): release_if_present
    | FlushReading   // flush(): release() reads and compares
    | FlushUnlinking // flush(): release() unlinks
    | Done

  datatype Driver = Driver(chain: ChainId, pc: DriverPc, phase: nat, halt: HaltReason, alive: bool)

  datatype PauserPc = PLook | PAlive(driver: Pid) | PManifest | PCreate | PWrite | PSync | PClean | PDone

  datatype Pauser = Pauser(pc: PauserPc, chain: ChainId)

  datatype ResumerPc =
    | RLook
    | RLock
    | RAlive(running: ChainId, driver: Pid)
    | RStamp
    | RCompare(window: nat)
    | RUnlink(window: nat)
    | RDone

  datatype Resumer = Resumer(pc: ResumerPc, chain: ChainId)

  datatype ReleaserPc = LRead | LAlive(driver: Pid) | LCompare | LUnlink | LPause | LDone

  datatype Releaser = Releaser(pc: ReleaserPc, chain: ChainId)

  datatype State = State(
    lock: Option<LockFile>,
    pause: Option<PauseFile>,
    manifest: Option<Ledger>,
    drivers: map<Pid, Driver>,
    pausers: map<Pid, Pauser>,
    resumers: map<Pid, Resumer>,
    releasers: map<Pid, Releaser>,
    minted: nat,            // windows opened so far
    credited: set<nat>)     // windows ever added to a total

  const FRESH := State(None, None, None, map[], map[], map[], map[], 0, {})

  // ---------- Steps ----------

  datatype Outcome = Passed(clean: bool) | Halted(reason: HaltReason)

  datatype DriverAct =
    | TryCreate
    | Write(ok: bool)
    | Sync(ok: bool)
    | Clean(ok: bool)
    | StampStart
    | Probe
    | CheckCap(pass: bool)
    | Recheck
    | Spawn
    | Finish(outcome: Outcome)
    | Unwind(killed: bool)
    | FlushPause(ok: bool)
    | FlushRead
    | FlushUnlink(ok: bool)
    | Exit
    | Crash

  datatype Act = Go(ok: bool) | Die

  datatype Label =
    | StartDriver(pid: Pid, chain: ChainId, phase: nat)
    | StepDriver(pid: Pid, act: DriverAct)
    | StartPauser(pid: Pid)
    | StepPauser(pid: Pid, go: Act)
    | StartResumer(pid: Pid)
    | StepResumer(pid: Pid, go: Act, now: int)
    | StartReleaser(pid: Pid, chain: ChainId)
    | StepReleaser(pid: Pid, go: Act)
    | StampPauseStart(chain: ChainId, now: int)

  predicate Interruptible(pc: DriverPc) {
    pc.Starting? || pc.Probing? || pc.CapChecking? || pc.Rechecking? || pc.Spawning? || pc.InPhase?
  }

  /** Out of the phase loop and on the way to its exit; a driver may be unwound into its flush before it has stamped. */
  predicate IsFlushing(pc: DriverPc) {
    pc == FlushingPause || pc == FlushReading || pc == FlushUnlinking
  }

  predicate DriverMay(d: Driver, a: DriverAct) {
    d.alive &&
    match a
    case TryCreate => d.pc == Creating
    case Write(_) => d.pc == Writing
    case Sync(_) => d.pc == Syncing
    case Clean(_) => d.pc.Cleaning?
    case StampStart => d.pc == Starting
    case Probe => d.pc == Probing
    case CheckCap(_) => d.pc == CapChecking
    case Recheck => d.pc == Rechecking
    case Spawn => d.pc == Spawning
    case Finish(o) => d.pc == InPhase && (o.Halted? ==> o.reason == NeedsHuman || o.reason == OtherVerdict)
    case Unwind(_) => Interruptible(d.pc)
    case FlushPause(_) => d.pc == FlushingPause
    case FlushRead => d.pc == FlushReading
    case FlushUnlink(_) => d.pc == FlushUnlinking
    case Exit => d.pc == Done
    case Crash => true
  }

  predicate Enabled(s: State, l: Label) {
    match l
    case StartDriver(p, _, phase) => p !in s.drivers && 2 <= phase <= 5
    case StepDriver(p, a) => p in s.drivers && DriverMay(s.drivers[p], a)
    case StartPauser(p) => p !in s.pausers
    case StepPauser(p, _) => p in s.pausers && s.pausers[p].pc != PDone
    case StartResumer(p) => p !in s.resumers
    case StepResumer(p, _, _) => p in s.resumers && s.resumers[p].pc != RDone
    case StartReleaser(p, _) => p !in s.releasers
    case StepReleaser(p, _) => p in s.releasers && s.releasers[p].pc != LDone
    case StampPauseStart(c, _) => s.manifest.Some? && s.manifest.value.chain == c && s.manifest.value.since.None?
  }

  /** What the driver does to itself; the file operations are in DriverLock, DriverPause and DriverManifest. */
  function DriverNext(s: State, p: Pid, d: Driver, a: DriverAct): Driver {
    match a
    case TryCreate => d.(pc := if s.lock.None? then Writing else Done)
    case Write(ok) => d.(pc := if ok then Syncing else Cleaning(false))
    case Sync(ok) => d.(pc := if ok then Starting else Cleaning(true))
    case Clean(_) => d.(pc := Done)
    case StampStart => d.(pc := Probing)
    case Probe => if IsHeld(s.pause) && d.halt != NeedsHuman then d else d.(pc := CapChecking)
    case CheckCap(pass) => if pass then d.(pc := Rechecking) else Halt(d, WallClock)
    case Recheck => if Mine(s.lock, d.chain) then d.(pc := Spawning) else Halt(d, Foreign)
    case Spawn => d.(pc := InPhase)
    case Finish(o) => AfterPhase(d, o)
    case Unwind(killed) => Halt(d, if killed then OperatorKilled else d.halt)
    case FlushPause(_) => d.(pc := FlushReading)
    case FlushRead => d.(pc := if Mine(s.lock, d.chain) then FlushUnlinking else Done)
    case FlushUnlink(_) => d.(pc := Done)
    case Exit => d.(alive := false)
    case Crash => d.(alive := false)
  }

  function Halt(d: Driver, why: HaltReason): Driver {
    d.(pc := FlushingPause, halt := why)
  }

  function AfterPhase(d: Driver, o: Outcome): Driver {
    match o
    case Halted(why) => Halt(d, why)
    case Passed(false) => Halt(d, SealedPath)
    case Passed(true) => if d.phase >= 5 then Halt(d, PhaseSuccess) else d.(pc := Probing, phase := d.phase + 1)
  }

  /** is_held: present and readable as an object. */
  predicate IsHeld(pause: Option<PauseFile>) {
    pause.Some? && pause.value.content.PausedFor?
  }

  /** The running lock is stamped with this chain id. */
  predicate Mine(lock: Option<LockFile>, chain: ChainId) {
    lock.Some? && lock.value.content.Stamped? && lock.value.content.chain == chain
  }

  /** A write through a descriptor reaches the path only while the writer's own file is there. */
  function WriteLock(lock: Option<LockFile>, p: Pid, content: LockContent): Option<LockFile> {
    if lock.Some? && lock.value.creator == p then Some(LockFile(p, content)) else lock
  }

  function DriverLock(lock: Option<LockFile>, p: Pid, d: Driver, a: DriverAct): Option<LockFile> {
    match a
    case TryCreate => if lock.None? then Some(LockFile(p, Blank)) else lock
    case Write(true) => WriteLock(lock, p, Stamped(d.chain, p))
    case Clean(true) => None
    case FlushUnlink(true) => None
    case _ => lock
  }

  function DriverPause(pause: Option<PauseFile>, a: DriverAct): Option<PauseFile> {
    if a == FlushPause(true) then None else pause
  }

  /** stamp_chain_start: keep the manifest of the same chain, otherwise start afresh. */
  function DriverManifest(manifest: Option<Ledger>, d: Driver, a: DriverAct): Option<Ledger> {
    if a != StampStart || (manifest.Some? && manifest.value.chain == d.chain) then manifest
    else Some(Ledger(d.chain, 0, None, []))
  }

  function DoDriver(s: State, p: Pid, a: DriverAct): State
    requires p in s.drivers
  {
    var d := s.drivers[p];
    s.(lock := DriverLock(s.lock, p, d, a),
       pause := DriverPause(s.pause, a),
       manifest := DriverManifest(s.manifest, d, a),
       drivers := s.drivers[p := DriverNext(s, p, d, a)])
  }

  predicate Lives(drivers: map<Pid, Driver>, p: Pid) {
    p in drivers && drivers[p].alive
  }

  // ---------- chain-pause ----------

  function PauserNext(s: State, q: Pauser, ok: bool): Pauser {
    match q.pc
    case PLook =>
      if s.lock.Some? && s.lock.value.content.Stamped?
      then Pauser(PAlive(s.lock.value.content.driver), s.lock.value.content.chain)
      else q.(pc := PDone)
    case PAlive(driver) => q.(pc := if Lives(s.drivers, driver) then PManifest else PDone)
    case PManifest => q.(pc := if s.manifest.Some? then PCreate else PDone)
    case PCreate => q.(pc := if s.pause.None? then PWrite else PDone)
    case PWrite => q.(pc := if ok then PSync else PClean)
    case PSync => q.(pc := if ok then PDone else PClean)
    case PClean => q.(pc := PDone)
    case PDone => q
  }

  function PauserPause(pause: Option<PauseFile>, p: Pid, q: Pauser, ok: bool): Option<PauseFile> {
    match q.pc
    case PCreate => if pause.None? then Some(PauseFile(p, Unwritten)) else pause
    case PWrite =>
      if ok && pause.Some? && pause.value.creator == p then Some(PauseFile(p, PausedFor(q.chain))) else pause
    case PClean => if ok then None else pause
    case _ => pause
  }

  function DoPauser(s: State, p: Pid, go: Act): State
    requires p in s.pausers
  {
    var q := s.pausers[p];
    match go
    case Die => s.(pausers := s.pausers[p := q.(pc := PDone)])
    case Go(ok) => s.(pause := PauserPause(s.pause, p, q, ok), pausers := s.pausers[p := PauserNext(s, q, ok)])
  }

  // ---------- chain-resume ----------

  /** stamp_pause_end succeeds on an open window of the same chain. */
  predicate CanStamp(manifest: Option<Ledger>, chain: ChainId) {
    manifest.Some? && manifest.value.chain == chain && manifest.value.since.Some?
  }

  function Max(a: int, b: int): int {
    if a < b then b else a
  }

  function StampEnd(m: Ledger, now: int): Ledger
    requires m.since.Some?
  {
    var w := m.since.value;
    m.(total := m.total + Max(0, now - w.since), since := None, closed := m.closed + [Window(w.id, w.since, now)])
  }

  function ResumerNext(s: State, r: Resumer): Resumer {
    match r.pc
    case RLook => if IsHeld(s.pause) then Resumer(RLock, s.pause.value.content.chain) else r.(pc := RDone)
    case RLock =>
      if s.lock.Some? && s.lock.value.content.Stamped?
      then r.(pc := RAlive(s.lock.value.content.chain, s.lock.value.content.driver))
      else r.(pc := RDone)
    case RAlive(running, driver) =>
      r.(pc := if Lives(s.drivers, driver) && running == r.chain then RStamp else RDone)
    case RStamp => r.(pc := if CanStamp(s.manifest, r.chain) then RCompare(s.manifest.value.since.value.id) else RDone)
    case RCompare(w) =>
      r.(pc := if s.pause.Some? && s.pause.value.content == PausedFor(r.chain) then RUnlink(w) else RDone)
    case RUnlink(_) => r.(pc := RDone)
    case RDone => r
  }

  function DoResumer(s: State, p: Pid, go: Act, now: int): State
    requires p in s.resumers
  {
    var r := s.resumers[p];
    match go
    case Die => s.(resumers := s.resumers[p := r.(pc := RDone)])
    case Go(_) =>
      var s' := s.(resumers := s.resumers[p := ResumerNext(s, r)]);
      if r.pc == RStamp && CanStamp(s.manifest, r.chain) then
        s'.(manifest := Some(StampEnd(s.manifest.value, now)),
            credited := s.credited + {s.manifest.value.since.value.id})
      else if r.pc.RUnlink? then s'.(pause := None)
      else s'
  }

  // ---------- chain-overnight --release-lock ----------

  function ReleaserNext(s: State, r: Releaser): Releaser {
    match r.pc
    case LRead => r.(pc := if Mine(s.lock, r.chain) then LAlive(s.lock.value.content.driver) else LDone)
    case LAlive(driver) => r.(pc := if Lives(s.drivers, driver) then LDone else LCompare)
    case LCompare =>
      r.(pc := if s.lock.None? then LPause else if Mine(s.lock, r.chain) then LUnlink else LDone)
    case LUnlink => r.(pc := LPause)
    case LPause => r.(pc := LDone)
    case LDone => r
  }

  function DoReleaser(s: State, p: Pid, go: Act): State
    requires p in s.releasers
  {
    var r := s.releasers[p];
    match go
    case Die => s.(releasers := s.releasers[p := r.(pc := LDone)])
    case Go(ok) =>
      s.(lock := if r.pc == LUnlink then None else s.lock,
         pause := if r.pc == LPause && ok then None else s.pause,
         releasers := s.releasers[p := ReleaserNext(s, r)])
  }

  // ---------- Runs ----------

  function Do(s: State, l: Label): State
    requires Enabled(s, l)
  {
    match l
    case StartDriver(p, c, phase) => s.(drivers := s.drivers[p := Driver(c, Creating, phase, PhaseSuccess, true)])
    case StepDriver(p, a) => DoDriver(s, p, a)
    case StartPauser(p) => s.(pausers := s.pausers[p := Pauser(PLook, 0)])
    case StepPauser(p, go) => DoPauser(s, p, go)
    case StartResumer(p) => s.(resumers := s.resumers[p := Resumer(RLook, 0)])
    case StepResumer(p, go, now) => DoResumer(s, p, go, now)
    case StartReleaser(p, c) => s.(releasers := s.releasers[p := Releaser(LRead, c)])
    case StepReleaser(p, go) => DoReleaser(s, p, go)
    case StampPauseStart(_, now) =>
      s.(manifest := Some(s.manifest.value.(since := Some(OpenWindow(s.minted, now)))), minted := s.minted + 1)
  }

  /** labels[i] leads from states[i] to states[i + 1]; the first state is a plan directory without files. */
  ghost predicate IsRun(states: seq<State>, labels: seq<Label>) {
    && |states| == |labels| + 1
    && states[0] == FRESH
    && forall i {:trigger IsStep(states[i], labels[i], states[i + 1])} | 0 <= i < |labels| ::
         IsStep(states[i], labels[i], states[i + 1])
  }

  predicate IsStep(s: State, l: Label, s': State) {
    Enabled(s, l) && s' == Do(s, l)
  }

  lemma StepOf(states: seq<State>, labels: seq<Label>, i: nat)
    requires IsRun(states, labels) && i < |labels|
    ensures IsStep(states[i], labels[i], states[i + 1])
  {
    var taken := IsStep(states[i], labels[i], states[i + 1]);
    assert taken;
  }
}
