/** What a pause guarantees, over whole runs of the chain. */
module ChainPauses {
  import opened Optional
  import opened ChainProtocol
  import opened ChainMutex

  // How many phases may still start, which branch of the probe loop is dead, and what chain-resume has accounted
  // for before it releases the pause lock.

  // ---------- The halt reason while phases run ----------

  predicate BeforeFlush(pc: DriverPc) {
    pc.Creating? || pc.Writing? || pc.Syncing? || pc.Cleaning? || Interruptible(pc)
  }

  ghost predicate HaltUnset(drivers: map<Pid, Driver>) {
    forall p | p in drivers && BeforeFlush(drivers[p].pc) :: drivers[p].halt == PhaseSuccess
  }

  lemma StepKeepsHaltUnset(s: State, l: Label)
    requires HaltUnset(s.drivers) && Enabled(s, l)
    ensures HaltUnset(Do(s, l).drivers)
  {
    if l.StepDriver? {
      var d, d' := s.drivers[l.pid], DriverNext(s, l.pid, s.drivers[l.pid], l.act);
      assert BeforeFlush(d'.pc) ==> BeforeFlush(d.pc) && d'.halt == d.halt;
    }
  }

  lemma {:induction false} HaltAlwaysUnset(states: seq<State>, labels: seq<Label>, i: nat)
    requires IsRun(states, labels) && i < |states|
    ensures HaltUnset(states[i].drivers)
  {
    if i > 0 {
      HaltAlwaysUnset(states, labels, i - 1);
      StepOf(states, labels, i - 1);
      StepKeepsHaltUnset(states[i - 1], labels[i - 1]);
    }
  }

  /** The `needs_human` exit of the probe loop is dead in every run: whoever probes has halt reason
      phase_success, and while the pause lock is held the probe changes nothing. */
  lemma HeldProbeParks(states: seq<State>, labels: seq<Label>, i: nat, p: Pid)
    requires IsRun(states, labels) && i < |labels| && labels[i] == StepDriver(p, Probe)
    ensures p in states[i].drivers && states[i].drivers[p].halt == PhaseSuccess
    ensures IsHeld(states[i].pause) ==> states[i + 1] == states[i]
  {
    HaltAlwaysUnset(states, labels, i);
    var s := states[i];
    StepOf(states, labels, i);
    if IsHeld(s.pause) {
      assert s.drivers[p := s.drivers[p]] == s.drivers;
    }
  }

  // ---------- Phase starts under a pause ----------

  /** The pause lock created by `who` is in place with its content visible, durable or not yet. */
  predicate PausedBy(s: State, who: Pid) {
    IsHeld(s.pause) && s.pause.value.creator == who
  }

  /** Past the probe, phase not yet started. */
  predicate PastProbe(d: Driver) {
    d.alive && (d.pc == CapChecking || d.pc == Rechecking || d.pc == Spawning)
  }

  lemma HeldPauseStopsDriver(s: State, p: Pid, a: DriverAct)
    requires Enabled(s, StepDriver(p, a)) && IsHeld(s.pause)
    requires BeforeFlush(s.drivers[p].pc) ==> s.drivers[p].halt == PhaseSuccess
    ensures PastProbe(DriverNext(s, p, s.drivers[p], a)) ==> PastProbe(s.drivers[p]) && a != Spawn
  {}

  function Starts(l: Label): nat {
    if l.StepDriver? && l.act == Spawn then 1 else 0
  }

  /** While the pause is held nobody new gets past the probe. */
  lemma NobodyPassesAHeldPause(s: State, l: Label, p: Pid)
    requires Enabled(s, l) && IsHeld(s.pause) && HaltUnset(s.drivers)
    requires p in Do(s, l).drivers && PastProbe(Do(s, l).drivers[p])
    ensures p in s.drivers && PastProbe(s.drivers[p])
    ensures Starts(l) == 1 ==> l.pid != p
  {
    if l.StepDriver? {
      HeldPauseStopsDriver(s, l.pid, l.act);
    }
  }

  // ---------- Each driver ----------

  function CreditOf(s: State, p: Pid): nat {
    if p in s.drivers && PastProbe(s.drivers[p]) then 1 else 0
  }

  function StartsOf(l: Label, p: Pid): nat {
    if l == StepDriver(p, Spawn) then 1 else 0
  }

  /** Phases that driver p starts by labels[i..j]. */
  function StartsOfBetween(labels: seq<Label>, p: Pid, i: nat, j: nat): nat
    requires i <= j <= |labels|
    decreases j - i
  {
    if i == j then 0 else StartsOf(labels[i], p) + StartsOfBetween(labels, p, i + 1, j)
  }

  /** A start uses up the driver's one credit. */
  lemma StartSpendsOwnCredit(s: State, l: Label, p: Pid)
    requires Enabled(s, l) && IsHeld(s.pause) && HaltUnset(s.drivers)
    ensures StartsOf(l, p) + CreditOf(Do(s, l), p) <= CreditOf(s, p)
  {
    if CreditOf(Do(s, l), p) == 1 {
      NobodyPassesAHeldPause(s, l, p);
    }
  }

  /** Main result: in every run whatever, from the moment a pause lock shows its content until that lock is removed,
      each driver starts at most one more phase, and none unless it was already past the probe. */
  lemma {:induction false} AtMostOneMoreStart(states: seq<State>, labels: seq<Label>, p: Pid, i: nat, j: nat, who: Pid)
    requires IsRun(states, labels) && i <= j < |states|
    requires forall k | i <= k < j :: PausedBy(states[k], who)
    ensures StartsOfBetween(labels, p, i, j) + CreditOf(states[j], p) <= CreditOf(states[i], p) <= 1
    decreases j - i
  {
    hide HaltUnset, Enabled, Do;
    if i < j {
      HaltAlwaysUnset(states, labels, i);
      assert PausedBy(states[i], who);
      StepOf(states, labels, i);
      StartSpendsOwnCredit(states[i], labels[i], p);
      AtMostOneMoreStart(states, labels, p, i + 1, j, who);
    }
  }

  /** After that start, or if it was not past the probe, the driver is parked for as long as the lock stays. */
  lemma ParkedAfterAStart(states: seq<State>, labels: seq<Label>, p: Pid, i: nat, j: nat, who: Pid)
    requires IsRun(states, labels) && i < j < |states|
    requires forall k | i <= k < j :: PausedBy(states[k], who)
    requires labels[i] == StepDriver(p, Spawn) || CreditOf(states[i], p) == 0
    ensures StartsOfBetween(labels, p, i + 1, j) == 0
    ensures p in states[j].drivers ==> !PastProbe(states[j].drivers[p])
  {
    AtMostOneMoreStart(states, labels, p, i, j, who);
  }

  // ---------- All drivers together ----------

  ghost predicate SomePastProbe(s: State) {
    exists p :: p in s.drivers && PastProbe(s.drivers[p])
  }

  ghost function Credit(s: State): nat {
    if SomePastProbe(s) then 1 else 0
  }

  /** Phases started by labels[i..j]. */
  function StartsBetween(labels: seq<Label>, i: nat, j: nat): nat
    requires i <= j <= |labels|
    decreases j - i
  {
    if i == j then 0 else Starts(labels[i]) + StartsBetween(labels, i + 1, j)
  }

  /** Where only one driver holds the lock there is one credit in all. */
  lemma StartSpendsCredit(s: State, l: Label)
    requires Enabled(s, l) && IsHeld(s.pause) && HaltUnset(s.drivers) && MutualExclusion(s)
    ensures Starts(l) + Credit(Do(s, l)) <= Credit(s)
  {
    var s' := Do(s, l);
    if SomePastProbe(s') {
      var p :| p in s'.drivers && PastProbe(s'.drivers[p]);
      NobodyPassesAHeldPause(s, l, p);
      if Starts(l) == 1 {
        assert HoldsLock(s, p) && HoldsLock(s, l.pid);
      }
    } else if Starts(l) == 1 {
      assert PastProbe(s.drivers[l.pid]);
    }
  }

  /** The sum over all drivers: while exclusion holds, at most one more phase starts in the whole plan directory. */
  lemma {:induction false} AtMostOneMoreStartInAll(states: seq<State>, labels: seq<Label>, i: nat, j: nat, who: Pid)
    requires IsRun(states, labels) && i <= j < |states|
    requires forall k | i <= k < j :: PausedBy(states[k], who) && MutualExclusion(states[k])
    ensures StartsBetween(labels, i, j) + Credit(states[j]) <= Credit(states[i]) <= 1
    decreases j - i
  {
    hide HaltUnset, Enabled, Do, MutualExclusion;
    if i < j {
      HaltAlwaysUnset(states, labels, i);
      assert PausedBy(states[i], who);
      StepOf(states, labels, i);
      StartSpendsCredit(states[i], labels[i]);
      AtMostOneMoreStartInAll(states, labels, i + 1, j, who);
    }
  }

  // ---------- Accounting ----------

  function Length(w: Window): nat {
    Max(0, w.until - w.since)
  }

  function TotalOf(ws: seq<Window>): nat {
    if ws == [] then 0 else TotalOf(ws[..|ws| - 1]) + Length(ws[|ws| - 1])
  }

  ghost predicate Distinct(ws: seq<Window>) {
    forall i, j | 0 <= i < j < |ws| :: ws[i].id != ws[j].id
  }

  /** The total is the sum of the closed windows, each counted once; an open window is not yet counted. */
  ghost predicate Balanced(m: Ledger, minted: nat, credited: set<nat>) {
    && m.total == TotalOf(m.closed)
    && Distinct(m.closed)
    && (forall i | 0 <= i < |m.closed| :: m.closed[i].id in credited)
    && (m.since.Some? ==> m.since.value.id < minted && m.since.value.id !in credited)
  }

  /** About to release: its window has been credited. */
  predicate Credited(r: Resumer, credited: set<nat>) {
    match r.pc
    case RCompare(w) => w in credited
    case RUnlink(w) => w in credited
    case _ => true
  }

  ghost predicate Accounted(s: State) {
    && (s.manifest.Some? ==> Balanced(s.manifest.value, s.minted, s.credited))
    && (forall w | w in s.credited :: w < s.minted)
    && (forall p | p in s.resumers :: Credited(s.resumers[p], s.credited))
  }

  lemma StampKeepsBalance(m: Ledger, minted: nat, credited: set<nat>, now: int)
    requires Balanced(m, minted, credited) && m.since.Some?
    ensures Balanced(StampEnd(m, now), minted, credited + {m.since.value.id})
  {
    var w := Window(m.since.value.id, m.since.value.since, now);
    assert (m.closed + [w])[..|m.closed|] == m.closed;
  }

  lemma OpenKeepsBalance(m: Ledger, minted: nat, credited: set<nat>, now: int)
    ensures (Balanced(m, minted, credited) && m.since.None? && forall w | w in credited :: w < minted) ==>
      Balanced(m.(since := Some(OpenWindow(minted, now))), minted + 1, credited)
  {}

  lemma ResumerKeepsAccount(s: State, p: Pid, go: Act, now: int)
    requires Accounted(s) && Enabled(s, StepResumer(p, go, now))
    ensures Accounted(DoResumer(s, p, go, now))
  {
    hide IsHeld, Lives, TotalOf;
    if s.resumers[p].pc == RStamp && CanStamp(s.manifest, s.resumers[p].chain) {
      StampKeepsBalance(s.manifest.value, s.minted, s.credited, now);
    }
  }

  lemma StepKeepsAccount(s: State, l: Label)
    requires Accounted(s) && Enabled(s, l)
    ensures Accounted(Do(s, l))
  {
    match l
    case StepResumer(p, go, now) =>
      ResumerKeepsAccount(s, p, go, now);
    case StampPauseStart(c, now) =>
      OpenKeepsBalance(s.manifest.value, s.minted, s.credited, now);
    case _ =>
  }

  /** Main result: in every run, crashes and retries included, the manifest's total is the sum of
      pairwise distinct closed windows, and an open window has not been counted. */
  lemma {:induction false} NoWindowIsCountedTwice(states: seq<State>, labels: seq<Label>, i: nat)
    requires IsRun(states, labels) && i < |states|
    ensures Accounted(states[i])
  {
    if i > 0 {
      NoWindowIsCountedTwice(states, labels, i - 1);
      StepOf(states, labels, i - 1);
      StepKeepsAccount(states[i - 1], labels[i - 1]);
    }
  }

  /** Whenever a step of chain-resume removes the pause lock, the window it stamped is already in a total. */
  lemma ResumeReleasesAfterStamping(states: seq<State>, labels: seq<Label>, i: nat, p: Pid, go: Act, now: int)
    requires IsRun(states, labels) && i < |labels| && labels[i] == StepResumer(p, go, now)
    requires states[i].pause.Some? && states[i + 1].pause.None?
    ensures p in states[i].resumers && states[i].resumers[p].pc.RUnlink?
    ensures states[i].resumers[p].pc.window in states[i].credited
  {
    NoWindowIsCountedTwice(states, labels, i);
    StepOf(states, labels, i);
    assert Credited(states[i].resumers[p], states[i].credited);
  }

  // ---------- As coded: nothing opens a window ----------

  ghost predicate NothingOpens(labels: seq<Label>) {
    forall i | 0 <= i < |labels| :: !labels[i].StampPauseStart?
  }

  ghost predicate NoWindow(s: State) {
    && (s.manifest.Some? ==> s.manifest.value.since.None? && s.manifest.value.total == 0)
    && (forall p | p in s.resumers :: !s.resumers[p].pc.RCompare? && !s.resumers[p].pc.RUnlink?)
  }

  lemma StepKeepsNoWindow(s: State, l: Label)
    ensures NoWindow(s) && Enabled(s, l) && !l.StampPauseStart? ==>
      NoWindow(Do(s, l)) && (l.StepResumer? ==> Do(s, l).pause == s.pause && Do(s, l).manifest == s.manifest)
  {}

  lemma {:induction false} NoWindowEver(states: seq<State>, labels: seq<Label>, i: nat)
    requires IsRun(states, labels) && NothingOpens(labels) && i < |states|
    ensures NoWindow(states[i])
  {
    if i > 0 {
      NoWindowEver(states, labels, i - 1);
      StepOf(states, labels, i - 1);
      StepKeepsNoWindow(states[i - 1], labels[i - 1]);
    }
  }

  /** Main result, as coded: the shown commands never call stamp_pause_start, so chain-resume never
      changes the manifest, never removes a pause lock, and ends wherever it reaches the stamp. */
  lemma ResumeNeverReleases(states: seq<State>, labels: seq<Label>, i: nat, p: Pid, go: Act, now: int)
    requires IsRun(states, labels) && NothingOpens(labels)
    requires i < |labels| && labels[i] == StepResumer(p, go, now)
    ensures states[i + 1].pause == states[i].pause && states[i + 1].manifest == states[i].manifest
    ensures p in states[i].resumers && p in states[i + 1].resumers
    ensures states[i].resumers[p].pc == RStamp ==> states[i + 1].resumers[p].pc == RDone
  {
    NoWindowEver(states, labels, i);
    StepOf(states, labels, i);
    StepKeepsNoWindow(states[i], labels[i]);
  }
}
