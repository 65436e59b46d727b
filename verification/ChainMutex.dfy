/** At most one live driver per plan directory holds the running lock. */
module ChainMutex {
  import opened Optional
  import opened ChainProtocol

  // The running lock alone does not give this, because --release-lock compares and unlinks in two
  // steps. It holds, and keeps holding whatever is launched next, exactly in the runs in which no
  // --release-lock unlinks the lock of a live holder. That follows if
  //  - no driver is about to try the lock under a chain id that a --release-lock has already read, and
  //  - at most one --release-lock is between its comparison and its unlink,
  // and ChainTraces has a run for each condition in which, without it, two drivers hold the lock.

  /** Between the successful O_EXCL create and the end of the driver's own release. */
  predicate Holds(d: Driver) {
    d.alive && d.pc != Creating && d.pc != Done
  }

  predicate HoldsLock(s: State, p: Pid) {
    p in s.drivers && Holds(s.drivers[p])
  }

  ghost predicate MutualExclusion(s: State) {
    forall p, q | HoldsLock(s, p) && HoldsLock(s, q) :: p == q
  }

  // ---------- The two conditions on recovery ----------

  /** A --release-lock that has matched the chain id and has not yet unlinked. */
  predicate InFlight(r: Releaser) {
    r.pc.LAlive? || r.pc == LCompare || r.pc == LUnlink
  }

  predicate Contends(d: Driver, r: Releaser) {
    d.alive && d.pc == Creating && InFlight(r) && d.chain == r.chain
  }

  ghost predicate NoContention(drivers: map<Pid, Driver>, releasers: map<Pid, Releaser>) {
    forall p, q | p in drivers && q in releasers :: !Contends(drivers[p], releasers[q])
  }

  ghost predicate OneUnlinker(releasers: map<Pid, Releaser>) {
    forall p, q | p in releasers && q in releasers && releasers[p].pc == LUnlink == releasers[q].pc :: p == q
  }

  ghost predicate CarefulRecovery(s: State) {
    NoContention(s.drivers, s.releasers) && OneUnlinker(s.releasers)
  }

  // ---------- The invariant ----------

  /** What a holder finds in the lock file: its own inode, stamped once written. */
  function OwnFile(p: Pid, d: Driver): LockFile {
    LockFile(p, if d.pc == Writing || d.pc == Cleaning(false) then Blank else Stamped(d.chain, p))
  }

  /** A stamped lock names its creator and the creator's chain. */
  predicate Signed(f: LockFile, drivers: map<Pid, Driver>) {
    f.content.Stamped? ==>
      f.creator in drivers && f.content == Stamped(drivers[f.creator].chain, f.creator)
  }

  ghost predicate LockInv(lock: Option<LockFile>, drivers: map<Pid, Driver>) {
    && (lock.Some? ==> Signed(lock.value, drivers))
    && (forall p | p in drivers && Holds(drivers[p]) :: lock == Some(OwnFile(p, drivers[p])))
  }

  /** Every live driver of this chain, other than the exempt one, is past its release. */
  ghost predicate ChainQuiet(chain: ChainId, exempt: Option<Pid>, drivers: map<Pid, Driver>) {
    forall p | p in drivers && drivers[p].alive && drivers[p].chain == chain && exempt != Some(p) ::
      drivers[p].pc == Done
  }

  ghost predicate ReleaserInv(r: Releaser, lock: Option<LockFile>, drivers: map<Pid, Driver>) {
    match r.pc
    case LAlive(driver) => ChainQuiet(r.chain, Some(driver), drivers)
    case LCompare => ChainQuiet(r.chain, None, drivers)
    case LUnlink => ChainQuiet(r.chain, None, drivers) && Mine(lock, r.chain)
    case _ => true
  }

  ghost predicate ReleasersInv(releasers: map<Pid, Releaser>, lock: Option<LockFile>, drivers: map<Pid, Driver>) {
    forall q | q in releasers :: ReleaserInv(releasers[q], lock, drivers)
  }

  ghost predicate Inv(s: State) {
    LockInv(s.lock, s.drivers) && ReleasersInv(s.releasers, s.lock, s.drivers)
  }

  lemma LockExcludes(s: State)
    requires LockInv(s.lock, s.drivers)
    ensures MutualExclusion(s)
  {
    forall p, q | HoldsLock(s, p) && HoldsLock(s, q)
      ensures p == q
    {
      assert s.lock == Some(OwnFile(p, s.drivers[p])) == Some(OwnFile(q, s.drivers[q]));
    }
  }

  // ---------- Driver steps ----------

  /** A step that leaves the lock file alone and does not begin to hold it. */
  predicate Local(d: Driver, d': Driver) {
    && d'.chain == d.chain
    && (d'.alive ==> d.alive)
    && (Holds(d') ==> Holds(d) && OwnFile(0, d') == OwnFile(0, d))
    && (d'.alive && d'.pc == Creating ==> d.pc == Creating)
  }

  lemma LocalKeepsLock(lock: Option<LockFile>, drivers: map<Pid, Driver>, p: Pid, d': Driver)
    requires LockInv(lock, drivers) && p in drivers && Local(drivers[p], d')
    ensures LockInv(lock, drivers[p := d'])
  {
    if Holds(d') {
      assert OwnFile(p, d') == OwnFile(p, drivers[p]);
    }
  }

  predicate TouchesLock(s: State, a: DriverAct) {
    (a == TryCreate && s.lock.None?) || a == Write(true) || a == Clean(true) || a == FlushUnlink(true)
  }

  lemma OtherStepsAreLocal(s: State, p: Pid, a: DriverAct)
    ensures Enabled(s, StepDriver(p, a)) && !TouchesLock(s, a) ==>
      Local(s.drivers[p], DriverNext(s, p, s.drivers[p], a)) && DriverLock(s.lock, p, s.drivers[p], a) == s.lock
  {}

  lemma CreateKeepsLock(s: State, p: Pid, d': Driver)
    ensures LockInv(s.lock, s.drivers) && s.lock.None? && p in s.drivers && d'.pc == Writing ==>
      LockInv(Some(LockFile(p, Blank)), s.drivers[p := d'])
  {}

  lemma WriteKeepsLock(s: State, p: Pid, d': Driver)
    requires LockInv(s.lock, s.drivers) && p in s.drivers
    requires Holds(s.drivers[p]) && d' == s.drivers[p].(pc := Syncing)
    ensures LockInv(WriteLock(s.lock, p, Stamped(d'.chain, p)), s.drivers[p := d'])
  {
    assert s.lock.value.creator == p;
    forall q | q in s.drivers && q != p
      ensures !Holds(s.drivers[q])
    {
      assert OwnFile(q, s.drivers[q]).creator == q;
    }
  }

  lemma UnlinkKeepsLock(lock: Option<LockFile>, drivers: map<Pid, Driver>, p: Pid, d': Driver)
    requires LockInv(lock, drivers) && p in drivers && Holds(drivers[p]) && !Holds(d')
    ensures LockInv(None, drivers[p := d'])
  {
    forall q | q in drivers && q != p
      ensures !Holds(drivers[q])
    {
      assert OwnFile(q, drivers[q]).creator == q;
      assert lock.value.creator == p;
    }
  }

  lemma DriverKeepsLock(s: State, p: Pid, a: DriverAct)
    requires LockInv(s.lock, s.drivers) && Enabled(s, StepDriver(p, a))
    ensures LockInv(DoDriver(s, p, a).lock, DoDriver(s, p, a).drivers)
  {
    var d' := DriverNext(s, p, s.drivers[p], a);
    if !TouchesLock(s, a) {
      OtherStepsAreLocal(s, p, a);
      LocalKeepsLock(s.lock, s.drivers, p, d');
    } else if a == TryCreate {
      CreateKeepsLock(s, p, d');
    } else if a == Write(true) {
      WriteKeepsLock(s, p, d');
    } else {
      UnlinkKeepsLock(s.lock, s.drivers, p, d');
    }
  }

  /** Quiet chains stay quiet, since none of their drivers may try the lock. */
  lemma DriverKeepsQuiet(s: State, p: Pid, a: DriverAct, chain: ChainId, exempt: Option<Pid>)
    ensures Enabled(s, StepDriver(p, a)) && ChainQuiet(chain, exempt, s.drivers) ==>
      ChainQuiet(chain, exempt, DoDriver(s, p, a).drivers)
  {}

  /** The holder of a stamped lock is the driver it names, with that driver's chain. */
  lemma HolderSigns(lock: Option<LockFile>, drivers: map<Pid, Driver>, p: Pid)
    ensures LockInv(lock, drivers) && p in drivers && lock.Some? && lock.value.content.Stamped? ==>
      (Holds(drivers[p]) ==> lock.value.content == Stamped(drivers[p].chain, p))
  {}

  /** Nobody but the releaser removes a lock whose chain is quiet. */
  lemma DriverKeepsTarget(s: State, p: Pid, a: DriverAct, chain: ChainId)
    requires LockInv(s.lock, s.drivers) && Enabled(s, StepDriver(p, a))
    requires ChainQuiet(chain, None, s.drivers) && Mine(s.lock, chain)
    ensures DoDriver(s, p, a).lock == s.lock
  {
    HolderSigns(s.lock, s.drivers, p);
  }

  lemma DriverKeepsReleasers(s: State, p: Pid, a: DriverAct)
    requires Inv(s) && Enabled(s, StepDriver(p, a))
    ensures var s' := DoDriver(s, p, a); ReleasersInv(s.releasers, s'.lock, s'.drivers)
  {
    var s' := DoDriver(s, p, a);
    forall q | q in s.releasers
      ensures ReleaserInv(s.releasers[q], s'.lock, s'.drivers)
    {
      var r := s.releasers[q];
      match r.pc
      case LAlive(driver) =>
        DriverKeepsQuiet(s, p, a, r.chain, Some(driver));
      case LCompare =>
        DriverKeepsQuiet(s, p, a, r.chain, None);
      case LUnlink =>
        DriverKeepsQuiet(s, p, a, r.chain, None);
        DriverKeepsTarget(s, p, a, r.chain);
      case _ =>
    }
  }

  /** A new driver of a chain under release is excluded by NoContention. */
  lemma StartKeepsInv(s: State, p: Pid, d: Driver)
    requires Inv(s) && p !in s.drivers && d.pc == Creating && d.alive
    requires NoContention(s.drivers[p := d], s.releasers)
    ensures LockInv(s.lock, s.drivers[p := d])
    ensures ReleasersInv(s.releasers, s.lock, s.drivers[p := d])
  {
    forall q | q in s.releasers
      ensures ReleaserInv(s.releasers[q], s.lock, s.drivers[p := d])
    {
      assert p in s.drivers[p := d] && !Contends(s.drivers[p := d][p], s.releasers[q]);
    }
  }

  // ---------- When exclusion holds ----------

  /** A --release-lock removes the lock of a live holder: there is no test of liveness at the unlink. */
  ghost predicate UnlinksHeld(s: State, l: Label) {
    && l.StepReleaser? && l.go.Go? && l.pid in s.releasers && s.releasers[l.pid].pc == LUnlink
    && exists p :: HoldsLock(s, p)
  }

  ghost predicate NeverUnlinksHeld(states: seq<State>, labels: seq<Label>)
    requires |states| == |labels| + 1
  {
    forall j | 0 <= j < |labels| :: !UnlinksHeld(states[j], labels[j])
  }

  /** A fresh driver of any chain, launched now and trying the lock at once. */
  function Launched(s: State, p: Pid, c: ChainId): State
    requires p !in s.drivers
  {
    Do(Do(s, StartDriver(p, c, 2)), StepDriver(p, TryCreate))
  }

  ghost predicate SafeToLaunch(s: State) {
    forall p, c | p !in s.drivers :: MutualExclusion(Launched(s, p, c))
  }

  lemma StepKeepsLock(s: State, l: Label)
    requires LockInv(s.lock, s.drivers) && Enabled(s, l) && !UnlinksHeld(s, l)
    ensures LockInv(Do(s, l).lock, Do(s, l).drivers)
  {
    match l
    case StepDriver(p, a) =>
      DriverKeepsLock(s, p, a);
    case StepReleaser(q, go) =>
      assert s.releasers[q].pc == LUnlink && go.Go? ==> forall p :: !HoldsLock(s, p);
      assert forall p | p in s.drivers && Holds(s.drivers[p]) :: HoldsLock(s, p);
    case _ =>
  }

  lemma {:induction false} LockInvAlways(states: seq<State>, labels: seq<Label>, i: nat)
    requires IsRun(states, labels) && NeverUnlinksHeld(states, labels) && i < |states|
    ensures LockInv(states[i].lock, states[i].drivers)
  {
    hide UnlinksHeld, LockInv;
    if i > 0 {
      LockInvAlways(states, labels, i - 1);
      StepOf(states, labels, i - 1);
      StepKeepsLock(states[i - 1], labels[i - 1]);
    } else {
      FreshKeepsLock();
    }
  }

  lemma FreshKeepsLock()
    ensures LockInv(FRESH.lock, FRESH.drivers)
  {}

  lemma LockIsSafeToLaunch(s: State)
    requires LockInv(s.lock, s.drivers)
    ensures SafeToLaunch(s)
  {
    forall p, c | p !in s.drivers
      ensures MutualExclusion(Launched(s, p, c))
    {
      var started := Do(s, StartDriver(p, c, 2));
      StepKeepsLock(s, StartDriver(p, c, 2));
      StepKeepsLock(started, StepDriver(p, TryCreate));
      LockExcludes(Launched(s, p, c));
    }
  }

  lemma {:induction false} FreshPid(used: set<Pid>) returns (p: Pid)
    ensures forall q | q in used :: q < p
    decreases |used|
  {
    if used == {} {
      p := 0;
    } else {
      var q :| q in used;
      var below := FreshPid(used - {q});
      p := if q < below then below else q + 1;
      assert forall r | r in used :: r == q || r in used - {q};
    }
  }

  /** After such an unlink the next driver acquires beside the holder. */
  lemma HeldUnlinkIsUnsafe(s: State, l: Label)
    requires Enabled(s, l) && UnlinksHeld(s, l)
    ensures !SafeToLaunch(Do(s, l))
  {
    var s' := Do(s, l);
    var holder :| HoldsLock(s, holder);
    var p := FreshPid(s'.drivers.Keys);
    var after := Launched(s', p, 0);
    assert HoldsLock(after, holder) && HoldsLock(after, p);
    assert !MutualExclusion(after);
  }

  /** Main result: in every run, in every interleaving and crash schedule, at most one live driver holds the lock at any
      instant and no launch could change that, exactly when no --release-lock ever unlinks the lock of a live holder. */
  lemma OneDriver(states: seq<State>, labels: seq<Label>)
    requires IsRun(states, labels)
    ensures (forall i | 0 <= i < |states| :: MutualExclusion(states[i]) && SafeToLaunch(states[i]))
        <==> NeverUnlinksHeld(states, labels)
  {
    hide UnlinksHeld, SafeToLaunch, MutualExclusion;
    if NeverUnlinksHeld(states, labels) {
      forall i | 0 <= i < |states|
        ensures MutualExclusion(states[i]) && SafeToLaunch(states[i])
      {
        Exclusive(states, labels, i);
        LockInvAlways(states, labels, i);
        LockIsSafeToLaunch(states[i]);
      }
    } else {
      var j :| 0 <= j < |labels| && UnlinksHeld(states[j], labels[j]);
      StepOf(states, labels, j);
      HeldUnlinkIsUnsafe(states[j], labels[j]);
    }
  }

  lemma Exclusive(states: seq<State>, labels: seq<Label>, i: nat)
    requires IsRun(states, labels) && NeverUnlinksHeld(states, labels) && i < |states|
    ensures MutualExclusion(states[i])
  {
    LockInvAlways(states, labels, i);
    LockExcludes(states[i]);
  }

  /** In those runs the foreign-sentinel check never fails, and a driver's own release always finds its
      lock: the defensive branches are dead. */
  lemma OwnLockIsAlwaysFound(states: seq<State>, labels: seq<Label>, i: nat, p: Pid)
    requires IsRun(states, labels) && NeverUnlinksHeld(states, labels) && i < |labels|
    requires labels[i] == StepDriver(p, Recheck) || labels[i] == StepDriver(p, FlushRead)
    ensures p in states[i + 1].drivers
    ensures labels[i] == StepDriver(p, Recheck) ==> states[i + 1].drivers[p].pc == Spawning
    ensures labels[i] == StepDriver(p, FlushRead) ==> states[i + 1].drivers[p].pc == FlushUnlinking
  {
    LockInvAlways(states, labels, i);
    StepOf(states, labels, i);
    assert states[i].lock == Some(OwnFile(p, states[i].drivers[p]));
  }

  // ---------- --release-lock steps ----------

  /** Reading a stamped lock: the only driver of that chain that can hold it is its creator. */
  lemma ReadFindsQuietChain(s: State, q: Pid)
    requires LockInv(s.lock, s.drivers) && q in s.releasers && Mine(s.lock, s.releasers[q].chain)
    requires var r' := Releaser(LAlive(s.lock.value.content.driver), s.releasers[q].chain);
      NoContention(s.drivers, s.releasers[q := r'])
    ensures ChainQuiet(s.releasers[q].chain, Some(s.lock.value.content.driver), s.drivers)
  {
    var c, driver := s.releasers[q].chain, s.lock.value.content.driver;
    var rs := s.releasers[q := Releaser(LAlive(driver), c)];
    forall p | p in s.drivers && s.drivers[p].alive && s.drivers[p].chain == c && p != driver
      ensures s.drivers[p].pc == Done
    {
      assert q in rs && !Contends(s.drivers[p], rs[q]);
      HolderSigns(s.lock, s.drivers, p);
    }
  }

  lemma StepKeepsReleaserInv(s: State, q: Pid, go: Act)
    requires Inv(s) && Enabled(s, StepReleaser(q, go))
    requires NoContention(s.drivers, DoReleaser(s, q, go).releasers)
    ensures var s' := DoReleaser(s, q, go);
      s.releasers[q].pc != LUnlink || go == Die ==> ReleaserInv(s'.releasers[q], s.lock, s.drivers)
  {
    if s.releasers[q].pc == LRead && go.Go? && Mine(s.lock, s.releasers[q].chain) {
      ReadFindsQuietChain(s, q);
    }
  }

  lemma UnlinkIsSafe(s: State, q: Pid)
    requires Inv(s) && q in s.releasers && s.releasers[q].pc == LUnlink
    ensures LockInv(None, s.drivers)
  {
    assert ReleaserInv(s.releasers[q], s.lock, s.drivers);
    forall p | p in s.drivers
      ensures !Holds(s.drivers[p])
    {
      HolderSigns(s.lock, s.drivers, p);
    }
  }

  lemma ReleaserKeepsInv(s: State, q: Pid, go: Act)
    requires Inv(s) && Enabled(s, StepReleaser(q, go))
    requires CarefulRecovery(s) && CarefulRecovery(DoReleaser(s, q, go))
    ensures Inv(DoReleaser(s, q, go))
  {
    var s' := DoReleaser(s, q, go);
    StepKeepsReleaserInv(s, q, go);
    if s.releasers[q].pc == LUnlink && go.Go? {
      UnlinkIsSafe(s, q);
      forall t | t in s'.releasers
        ensures ReleaserInv(s'.releasers[t], s'.lock, s'.drivers)
      {
        assert t != q ==> s.releasers[t].pc != LUnlink;
      }
    }
  }

  // ---------- All steps ----------

  lemma StepKeepsInv(s: State, l: Label)
    requires Inv(s) && Enabled(s, l) && CarefulRecovery(s) && CarefulRecovery(Do(s, l))
    ensures Inv(Do(s, l))
  {
    match l
    case StartDriver(p, c, phase) =>
      StartKeepsInv(s, p, Driver(c, Creating, phase, PhaseSuccess, true));
    case StepDriver(p, a) =>
      DriverKeepsLock(s, p, a);
      DriverKeepsReleasers(s, p, a);
    case StepReleaser(q, go) =>
      ReleaserKeepsInv(s, q, go);
    case _ =>
  }

  lemma {:induction false} InvAlways(states: seq<State>, labels: seq<Label>, i: nat)
    requires IsRun(states, labels) && i < |states|
    requires forall j | 0 <= j < |states| :: CarefulRecovery(states[j])
    ensures Inv(states[i])
  {
    if i > 0 {
      InvAlways(states, labels, i - 1);
      StepOf(states, labels, i - 1);
      StepKeepsInv(states[i - 1], labels[i - 1]);
    }
  }

  /** Under careful recovery no held lock is ever unlinked, and so at most one driver holds it. */
  lemma OneDriverWhenCareful(states: seq<State>, labels: seq<Label>)
    requires IsRun(states, labels)
    requires forall j | 0 <= j < |states| :: CarefulRecovery(states[j])
    ensures NeverUnlinksHeld(states, labels)
    ensures forall i | 0 <= i < |states| :: MutualExclusion(states[i]) && SafeToLaunch(states[i])
  {
    hide CarefulRecovery, SafeToLaunch, MutualExclusion;
    forall j | 0 <= j < |labels|
      ensures !UnlinksHeld(states[j], labels[j])
    {
      InvAlways(states, labels, j);
      CarefulUnlinkIsFree(states[j], labels[j]);
    }
    OneDriver(states, labels);
  }

  lemma CarefulUnlinkIsFree(s: State, l: Label)
    requires Inv(s)
    ensures !UnlinksHeld(s, l)
  {
    if l.StepReleaser? && l.pid in s.releasers && s.releasers[l.pid].pc == LUnlink {
      UnlinkIsSafe(s, l.pid);
    }
  }

  // ---------- The conditions as an operator can check them ----------

  /** The command has not exited. */
  predicate Running(r: Releaser) {
    r.pc != LDone
  }

  /** Launched, and neither owner of the lock nor refused it yet. */
  predicate Trying(d: Driver) {
    d.alive && d.pc == Creating
  }

  /** What to look at before a command is launched: for --release-lock, that no other one is running and that no
      driver of that chain is still trying for the lock; for a driver, that no --release-lock of its chain is running.
      */
  ghost predicate MayLaunch(s: State, l: Label) {
    match l
    case StartReleaser(_, c) =>
      && (forall q | q in s.releasers :: !Running(s.releasers[q]))
      && (forall p | p in s.drivers :: !(Trying(s.drivers[p]) && s.drivers[p].chain == c))
    case StartDriver(_, c, _) =>
      forall q | q in s.releasers :: !(Running(s.releasers[q]) && s.releasers[q].chain == c)
    case _ => true
  }

  ghost predicate InTurn(drivers: map<Pid, Driver>, releasers: map<Pid, Releaser>) {
    && (forall p, q | p in releasers && q in releasers && Running(releasers[p]) && Running(releasers[q]) :: p == q)
    && (forall p, q | p in drivers && q in releasers ::
          !(Trying(drivers[p]) && Running(releasers[q]) && drivers[p].chain == releasers[q].chain))
  }

  lemma DriverStaysInTurn(drivers: map<Pid, Driver>, releasers: map<Pid, Releaser>, p: Pid, d': Driver)
    requires InTurn(drivers, releasers) && p in drivers
    requires Trying(d') ==> Trying(drivers[p]) && d'.chain == drivers[p].chain
    ensures InTurn(drivers[p := d'], releasers)
  {
    assert forall q | q in releasers ::
      !(Trying(drivers[p]) && Running(releasers[q]) && drivers[p].chain == releasers[q].chain);
  }

  lemma ReleaserStaysInTurn(drivers: map<Pid, Driver>, releasers: map<Pid, Releaser>, q: Pid, r': Releaser)
    requires InTurn(drivers, releasers) && q in releasers && Running(releasers[q]) && r'.chain == releasers[q].chain
    ensures InTurn(drivers, releasers[q := r'])
  {
    assert forall p | p in releasers && Running(releasers[p]) :: p == q;
  }

  lemma StepStaysInTurn(s: State, l: Label)
    requires InTurn(s.drivers, s.releasers) && Enabled(s, l) && MayLaunch(s, l)
    ensures InTurn(Do(s, l).drivers, Do(s, l).releasers)
  {
    match l
    case StepDriver(p, a) =>
      hide InTurn;
      DriverStaysInTurn(s.drivers, s.releasers, p, DriverNext(s, p, s.drivers[p], a));
    case StepReleaser(q, go) =>
      hide InTurn;
      ReleaserStaysInTurn(s.drivers, s.releasers, q, Do(s, l).releasers[q]);
    case _ =>
  }

  lemma {:induction false} InTurnAlways(states: seq<State>, labels: seq<Label>, i: nat)
    requires IsRun(states, labels) && i < |states|
    requires forall j | 0 <= j < |labels| :: MayLaunch(states[j], labels[j])
    ensures InTurn(states[i].drivers, states[i].releasers) && CarefulRecovery(states[i])
  {
    hide MayLaunch;
    if i > 0 {
      InTurnAlways(states, labels, i - 1);
      StepOf(states, labels, i - 1);
      StepStaysInTurn(states[i - 1], labels[i - 1]);
    }
  }

  /** Main result for operators: if no command is ever launched into another's way, no two live drivers hold the
      lock at any instant, whatever the interleaving and whoever crashes. */
  lemma OneDriverWhenLaunchedInTurn(states: seq<State>, labels: seq<Label>)
    requires IsRun(states, labels)
    requires forall j | 0 <= j < |labels| :: MayLaunch(states[j], labels[j])
    ensures NeverUnlinksHeld(states, labels)
    ensures forall i | 0 <= i < |states| :: MutualExclusion(states[i]) && SafeToLaunch(states[i])
  {
    hide MayLaunch, MutualExclusion, SafeToLaunch, CarefulRecovery;
    forall j | 0 <= j < |states|
      ensures CarefulRecovery(states[j])
    {
      InTurnAlways(states, labels, j);
    }
    OneDriverWhenCareful(states, labels);
  }
}
