/**
 Whose files these are.

 The manifest a running driver reads is its own chain's, every chain id on disk or in a command's hands is that
 of a driver that was started, and no command touches another's pause lock except by removing it.
 */
module ChainIdentity {
  import opened Optional
  import opened ChainProtocol
  import opened ChainMutex

  // ---------- The manifest ----------

  /** Past stamp_chain_start and still holding the lock. */
  predicate HasStamped(d: Driver) {
    Holds(d) && d.pc != Writing && d.pc != Syncing && !d.pc.Cleaning? && d.pc != Starting && !IsFlushing(d.pc)
  }

  ghost predicate OwnManifest(s: State) {
    forall p | p in s.drivers && HasStamped(s.drivers[p]) ::
      s.manifest.Some? && s.manifest.value.chain == s.drivers[p].chain
  }

  lemma DriverKeepsOwnManifest(s: State, p: Pid, a: DriverAct)
    requires OwnManifest(s) && MutualExclusion(s) && Enabled(s, StepDriver(p, a))
    ensures OwnManifest(DoDriver(s, p, a))
  {
    var s' := DoDriver(s, p, a);
    forall q | q in s'.drivers && HasStamped(s'.drivers[q])
      ensures s'.manifest.Some? && s'.manifest.value.chain == s'.drivers[q].chain
    {
      if a == StampStart && q != p {
        assert HoldsLock(s, q) && HoldsLock(s, p);
      }
    }
  }

  lemma StepKeepsOwnManifest(s: State, l: Label)
    requires OwnManifest(s) && MutualExclusion(s) && Enabled(s, l)
    ensures OwnManifest(Do(s, l))
  {
    if l.StepDriver? {
      DriverKeepsOwnManifest(s, l.pid, l.act);
    }
  }

  /** Main result: as long as no held lock is unlinked, whenever a driver checks its cap or runs a phase, the manifest
      is that of its own chain, so the paused time it subtracts is never another chain's. */
  lemma {:induction false} ManifestIsOurs(states: seq<State>, labels: seq<Label>, i: nat)
    requires IsRun(states, labels) && NeverUnlinksHeld(states, labels) && i < |states|
    ensures OwnManifest(states[i])
  {
    hide UnlinksHeld, OwnManifest, Enabled, MutualExclusion;
    if i > 0 {
      ManifestIsOurs(states, labels, i - 1);
      Exclusive(states, labels, i - 1);
      StepOf(states, labels, i - 1);
      StepKeepsOwnManifest(states[i - 1], labels[i - 1]);
    } else {
      FreshOwnManifest();
    }
  }

  lemma FreshOwnManifest()
    ensures OwnManifest(FRESH)
  {}

  // ---------- Chain ids ----------

  /** Some driver was started under this chain id. */
  ghost predicate Known(chain: ChainId, drivers: map<Pid, Driver>) {
    exists p :: p in drivers && drivers[p].chain == chain
  }

  ghost predicate KnownLock(lock: Option<LockFile>, drivers: map<Pid, Driver>) {
    lock.Some? && lock.value.content.Stamped? ==> Known(lock.value.content.chain, drivers)
  }

  ghost predicate KnownPause(pause: Option<PauseFile>, drivers: map<Pid, Driver>) {
    IsHeld(pause) ==> Known(pause.value.content.chain, drivers)
  }

  ghost predicate KnownPauser(q: Pauser, drivers: map<Pid, Driver>) {
    q.pc != PLook && q.pc != PDone ==> Known(q.chain, drivers)
  }

  ghost predicate KnownResumer(r: Resumer, drivers: map<Pid, Driver>) {
    && (r.pc != RLook && r.pc != RDone ==> Known(r.chain, drivers))
    && (r.pc.RAlive? ==> Known(r.pc.running, drivers))
  }

  ghost predicate AllKnown(s: State) {
    && KnownLock(s.lock, s.drivers) && KnownPause(s.pause, s.drivers)
    && (s.manifest.Some? ==> Known(s.manifest.value.chain, s.drivers))
    && (forall q | q in s.pausers :: KnownPauser(s.pausers[q], s.drivers))
    && (forall q | q in s.resumers :: KnownResumer(s.resumers[q], s.drivers))
  }

  /** Chain ids once known stay known. */
  lemma KnownGrows(s: State, l: Label, chain: ChainId)
    requires Enabled(s, l) && Known(chain, s.drivers)
    ensures Known(chain, Do(s, l).drivers)
  {
    var p :| p in s.drivers && s.drivers[p].chain == chain;
    DriversStay(s, l, p);
  }

  lemma DriversStay(s: State, l: Label, p: Pid)
    ensures Enabled(s, l) && p in s.drivers ==>
      p in Do(s, l).drivers && Do(s, l).drivers[p].chain == s.drivers[p].chain
  {}

  lemma DriverFilesKnown(s: State, p: Pid, a: DriverAct)
    requires AllKnown(s) && Enabled(s, StepDriver(p, a))
    ensures var s' := DoDriver(s, p, a);
      && KnownLock(s'.lock, s.drivers) && KnownPause(s'.pause, s.drivers)
      && (s'.manifest.Some? ==> Known(s'.manifest.value.chain, s.drivers))
  {
    assert Known(s.drivers[p].chain, s.drivers);
  }

  lemma StepFilesKnown(s: State, l: Label)
    requires AllKnown(s) && Enabled(s, l)
    ensures var s' := Do(s, l);
      && KnownLock(s'.lock, s.drivers) && KnownPause(s'.pause, s.drivers)
      && (s'.manifest.Some? ==> Known(s'.manifest.value.chain, s.drivers))
  {
    hide Known;
    if l.StepDriver? {
      DriverFilesKnown(s, l.pid, l.act);
    } else if l.StepPauser? {
      assert KnownPauser(s.pausers[l.pid], s.drivers);
    }
  }

  lemma PauserKnown(s: State, p: Pid, ok: bool)
    requires AllKnown(s) && p in s.pausers
    ensures KnownPauser(PauserNext(s, s.pausers[p], ok), s.drivers)
  {
    hide Known, Lives;
    assert KnownPauser(s.pausers[p], s.drivers);
  }

  lemma ResumerKnown(s: State, p: Pid)
    requires AllKnown(s) && p in s.resumers
    ensures KnownResumer(ResumerNext(s, s.resumers[p]), s.drivers)
  {
    hide Known, Lives;
    assert KnownResumer(s.resumers[p], s.drivers);
  }

  lemma StepCommandsKnown(s: State, l: Label)
    requires AllKnown(s) && Enabled(s, l)
    ensures forall q | q in Do(s, l).pausers :: KnownPauser(Do(s, l).pausers[q], s.drivers)
    ensures forall q | q in Do(s, l).resumers :: KnownResumer(Do(s, l).resumers[q], s.drivers)
  {
    hide Known, PauserNext, ResumerNext, CanStamp;
    if l.StepPauser? && l.go.Go? {
      PauserKnown(s, l.pid, l.go.ok);
    } else if l.StepResumer? && l.go.Go? {
      ResumerKnown(s, l.pid);
    }
  }

  lemma StepKeepsKnown(s: State, l: Label)
    requires AllKnown(s) && Enabled(s, l)
    ensures AllKnown(Do(s, l))
  {
    hide Do, Known, Enabled;
    StepFilesKnown(s, l);
    StepCommandsKnown(s, l);
    forall c | Known(c, s.drivers)
      ensures Known(c, Do(s, l).drivers)
    {
      KnownGrows(s, l, c);
    }
  }

  /** Main result: in every run, careful or not, a stamped lock, a written pause, the manifest, and whatever
      chain-pause and chain-resume hold in hand name the chain of some driver that was started. */
  lemma {:induction false} ChainIdsAreReal(states: seq<State>, labels: seq<Label>, i: nat)
    requires IsRun(states, labels) && i < |states|
    ensures AllKnown(states[i])
  {
    hide Enabled, AllKnown;
    if i > 0 {
      ChainIdsAreReal(states, labels, i - 1);
      StepOf(states, labels, i - 1);
      StepKeepsKnown(states[i - 1], labels[i - 1]);
    } else {
      FreshIsKnown();
    }
  }

  lemma FreshIsKnown()
    ensures AllKnown(FRESH)
  {}

  // ---------- The pause lock ----------

  /** Created by, written by, or removed: the only ways a pause lock changes. */
  predicate PauseChanges(before: Option<PauseFile>, after: Option<PauseFile>, l: Label) {
    || after == before
    || after.None?
    || (l.StepPauser? && before.None? && after == Some(PauseFile(l.pid, Unwritten)))
    || (l.StepPauser? && before.Some? && before.value.creator == l.pid && after.Some? && after.value.creator == l.pid)
  }

  /** No command ever overwrites another's pause lock: it is created where there was none, written by its creator,
      or removed; and it is removed only by a driver's flush, a resume after its stamp, a
      --release-lock, or the cleanup of a chain-pause whose own write failed. */
  lemma PauseLockIsNeverOverwritten(s: State, l: Label)
    requires Enabled(s, l)
    ensures PauseChanges(s.pause, Do(s, l).pause, l)
    ensures s.pause.Some? && Do(s, l).pause.None? ==>
      || (l.StepDriver? && l.act == FlushPause(true))
      || (l.StepResumer? && s.resumers[l.pid].pc.RUnlink?)
      || (l.StepReleaser? && s.releasers[l.pid].pc == LPause)
      || (l.StepPauser? && s.pausers[l.pid].pc == PClean)
  {}
}
