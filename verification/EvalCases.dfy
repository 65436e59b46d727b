/** Captured failures and the regression cases promoted from them. */
module EvalCases {
  import opened Optional
  import opened Decimals

  // The code is in bin/_eval_common: failure_capture.py, regression_case.py and failure_gc.py.

  // ---------- Data ----------

  datatype Outcome =
    | ScorerShouldFlag | ScorerShouldPass | SystemShouldHalt | SystemShouldProceed | HookShouldRefuse | HookShouldAllow
    | Unknown(text: string)

  datatype Failure = Failure(captured: int, promoted: Option<string>)

  datatype Case = Case(source: string, outcome: Outcome, retired: bool, correction: string)

  /** Files by id: _failures/<id>.json and _regression_cases/<id>.json. */
  datatype Store = Store(failures: map<string, Failure>, cases: map<string, Case>)

  // ---------- Case ids ----------

  const CASE := "case_"

  /** What glob("case_*.json") sees. */
  predicate Prefixed(id: string) {
    CASE <= id
  }

  predicate IsAlnum(c: char) {
    'a' <= c <= 'z' || 'A' <= c <= 'Z' || '0' <= c <= '9'
  }

  function Clean(text: string): (r: string)
    ensures |r| == |text|
  {
    seq(|text|, i requires 0 <= i < |text| =>
      if IsAlnum(text[i]) || text[i] == '_' || text[i] == '-' then text[i] else '_')
  }

  function Strip(s: string): string {
    if s == [] then s
    else if s[0] == '_' then Strip(s[1..])
    else if s[|s| - 1] == '_' then Strip(s[..|s| - 1])
    else s
  }

  /** _sanitize_label */
  function Sanitized(text: string): (r: string)
    ensures r != ""
  {
    var s := Strip(Clean(text));
    if s == "" then "case" else s
  }

  function Stem(token: string): string {
    CASE + token + "_"
  }

  /** The number of a case file of this token. */
  function SeqOf(token: string, id: string): Option<nat> {
    var stem := Stem(token);
    if stem < id && AllDigits(id[|stem|..]) then Some(FromDecimal(id[|stem|..])) else None
  }

  function Highest(token: string, ids: seq<string>): nat {
    if ids == [] then 0
    else
      var h := Highest(token, ids[..|ids| - 1]);
      var n := SeqOf(token, ids[|ids| - 1]);
      if n.Some? && n.value > h then n.value else h
  }

  function Derived(token: string, n: nat): string {
    Stem(token) + ToDecimal(n)
  }

  lemma {:induction false} HighestBounds(token: string, ids: seq<string>, id: string)
    requires id in ids && SeqOf(token, id).Some?
    ensures SeqOf(token, id).value <= Highest(token, ids)
  {
    var n := |ids| - 1;
    if ids[n] != id {
      assert ids == ids[..n] + [ids[n]];
      HighestBounds(token, ids[..n], id);
    }
  }

  lemma DerivedIsPrefixed(token: string, n: nat)
    ensures Prefixed(Derived(token, n)) && SeqOf(token, Derived(token, n)) == Some(n)
  {
    RoundTrip(n);
    var stem := Stem(token);
    assert Derived(token, n)[|stem|..] == ToDecimal(n);
    assert Derived(token, n)[..|stem|] == stem;
    assert stem[..|CASE|] == CASE;
  }

  lemma {:induction false} HighestIsTaken(token: string, ids: seq<string>)
    ensures Highest(token, ids) == 0 || exists id :: id in ids && SeqOf(token, id) == Some(Highest(token, ids))
  {
    if ids != [] {
      var n := |ids| - 1;
      HighestIsTaken(token, ids[..n]);
      assert ids == ids[..n] + [ids[n]];
      if Highest(token, ids) != 0 && Highest(token, ids) == Highest(token, ids[..n]) {
        var id :| id in ids[..n] && SeqOf(token, id) == Some(Highest(token, ids));
        assert id in ids;
      } else {
        assert ids[n] in ids;
      }
    }
  }

  /** The next number never names an existing file, whatever else is in the directory. */
  lemma DerivedIdIsNew(token: string, ids: seq<string>)
    ensures Derived(token, Highest(token, ids) + 1) !in ids
  {
    var n := Highest(token, ids) + 1;
    DerivedIsPrefixed(token, n);
    if Derived(token, n) in ids {
      HighestBounds(token, ids, Derived(token, n));
    }
  }

  // ---------- Commands, as relations on the store ----------

  datatype Command =
    | Capture(failureId: string, at: int)
    | Promote(failure: string, outcome: Outcome, caseId: Option<string>, correction: string, reactivate: bool, crash: bool)
    | Retire(retiring: string, reason: string)
    | Purge(cutoff: int)

  function Captured(s: Store, id: string, at: int): Store {
    if id in s.failures then s else s.(failures := s.failures[id := Failure(at, None)])
  }

  predicate Matches(s: Store, failure: string, id: string) {
    id in s.cases && Prefixed(id) && s.cases[id].source == failure
  }

  function Reactivated(s: Store, id: string): Store
    requires id in s.cases
  {
    s.(cases := s.cases[id := s.cases[id].(retired := false)])
  }

  /** The new case file, and then the pointer in the failure: a crash in between leaves the first write only. */
  function Added(s: Store, failure: string, id: string, outcome: Outcome, correction: string, crash: bool): Store
    requires failure in s.failures
  {
    var s' := s.(cases := s.cases[id := Case(failure, outcome, false, correction)]);
    if crash then s' else s'.(failures := s.failures[failure := s.failures[failure].(promoted := Some(id))])
  }

  /** `ids` lists the directory. */
  ghost predicate ListsCases(s: Store, ids: seq<string>) {
    forall id :: id in ids <==> id in s.cases
  }

  function IdFor(failure: string, caseId: Option<string>, ids: seq<string>): string {
    var token := Sanitized(failure);
    if caseId.Some? then caseId.value else Derived(token, Highest(token, ids) + 1)
  }

  /** Which of several matching cases the directory scan meets first is not specified. */
  ghost predicate Promotes(s: Store, c: Command, s': Store)
    requires c.Promote?
  {
    if c.outcome.Unknown? || c.failure !in s.failures then s' == s
    else if exists id :: Matches(s, c.failure, id) then
      exists id | Matches(s, c.failure, id) ::
        s' == if c.reactivate && s.cases[id].retired then Reactivated(s, id) else s
    else if c.caseId.Some? && c.caseId.value in s.cases then s' == s
    else
      exists ids | ListsCases(s, ids) ::
        s' == Added(s, c.failure, IdFor(c.failure, c.caseId, ids), c.outcome, c.correction, c.crash)
  }

  function RetiredCase(c: Case, reason: string): Case {
    c.(retired := true, correction := (if c.correction == "" then "" else c.correction + "\n") + "RETIRED: " + reason)
  }

  function RetiredIn(s: Store, id: string, reason: string): Store {
    if reason == "" || id !in s.cases || s.cases[id].retired then s
    else s.(cases := s.cases[id := RetiredCase(s.cases[id], reason)])
  }

  predicate Purgeable(f: Failure, cutoff: int) {
    f.promoted.None? && f.captured < cutoff
  }

  function Purged(s: Store, cutoff: int): Store {
    s.(failures := map id | id in s.failures && !Purgeable(s.failures[id], cutoff) :: s.failures[id])
  }

  ghost predicate Next(s: Store, c: Command, s': Store) {
    match c
    case Capture(id, at) => s' == Captured(s, id, at)
    case Promote(_, _, _, _, _, _) => Promotes(s, c, s')
    case Retire(id, reason) => s' == RetiredIn(s, id, reason)
    case Purge(cutoff) => s' == Purged(s, cutoff)
  }

  // ---------- What the commands leave, field by field ----------

  /** Everything but case `id` is as it was. */
  ghost predicate OnlyCase(s: Store, s': Store, id: string) {
    id in s'.cases && s'.cases == s.cases[id := s'.cases[id]]
  }

  /** A new active case of the failure, as asked for, and the failure's pointer to it. */
  ghost predicate Adds(s: Store, s': Store, c: Command, id: string)
    requires c.Promote?
  {
    && OnlyCase(s, s', id)
    && s'.cases[id].source == c.failure && s'.cases[id].outcome == c.outcome
    && s'.cases[id].correction == c.correction && !s'.cases[id].retired
    && (c.caseId.Some? ==> id == c.caseId.value)
    && c.failure in s.failures && c.failure in s'.failures
    && s'.failures == s.failures[c.failure := s'.failures[c.failure]]
    && s'.failures[c.failure].captured == s.failures[c.failure].captured
    && s'.failures[c.failure].promoted == Some(id)
  }

  /** A retired case of the failure is active again, and nothing else changes. */
  ghost predicate Reactivates(s: Store, s': Store, failure: string, id: string) {
    && s'.failures == s.failures && id in s.cases && OnlyCase(s, s', id)
    && s.cases[id].source == s'.cases[id].source == failure
    && s.cases[id].retired && !s'.cases[id].retired
    && s'.cases[id].outcome == s.cases[id].outcome && s'.cases[id].correction == s.cases[id].correction
  }

  /** An active case is retired; its correction is kept, and the reason stands on a line of its own behind it. */
  ghost predicate Retires(s: Store, s': Store, id: string, reason: string) {
    && s'.failures == s.failures && id in s.cases && OnlyCase(s, s', id)
    && !s.cases[id].retired && s'.cases[id].retired
    && s'.cases[id].source == s.cases[id].source && s'.cases[id].outcome == s.cases[id].outcome
    && EndsWithReason(s.cases[id].correction, s'.cases[id].correction, reason)
  }

  predicate EndsWithReason(before: string, after: string, reason: string) {
    var line := "RETIRED: " + reason;
    && |after| == |before| + (if before == "" then 0 else 1) + |line|
    && before <= after && after[|after| - |line|..] == line
    && (before != "" ==> after[|before|] == '\n')
  }

  lemma ReasonIsLast(before: string, reason: string)
    ensures EndsWithReason(before, (if before == "" then "" else before + "\n") + "RETIRED: " + reason, reason)
  {
    var line := "RETIRED: " + reason;
    var head := if before == "" then "" else before + "\n";
    assert head + "RETIRED: " + reason == head + line;
    assert (head + line)[|head|..] == line;
  }

  // ---------- The files ----------

  const HALT_REASONS := {
    "retry_exceeded", "tampering_detected", "budget_exhausted", "wall_clock_cap",
    "guardrail_refused", "orphan_state", "verify_failed", "plan_rejected" }

  const PHASES := {"plan", "implplan", "code", "test"}

  datatype CaptureResult = Written | InvalidHaltReason | IdempotentNoop

  datatype PromoteResult = Created(id: string) | ReactivatedCase(id: string) | InvalidOutcome | NoFailure | AlreadyPromoted

  class EvalStore {
    var failures: map<string, Failure>
    var cases: map<string, Case>

    ghost function Value(): Store
      reads this
    {
      Store(failures, cases)
    }

    constructor ()
      ensures Value() == Store(map[], map[])
    {
      failures, cases := map[], map[];
    }

    /** A failure is written once, and only for a known halt reason and phase. */
    method CaptureFailure(id: string, at: int, haltReason: string, phase: string) returns (r: CaptureResult)
      modifies this`failures
      ensures r.InvalidHaltReason? <==> haltReason !in HALT_REASONS || phase !in PHASES
      ensures r.IdempotentNoop? ==> id in old(failures)
      ensures r.Written? ==> id !in old(failures) && id in failures && failures == old(failures)[id := failures[id]]
      ensures r.Written? ==> failures[id].captured == at && failures[id].promoted.None?
      ensures Value() == if r.InvalidHaltReason? then old(Value()) else Captured(old(Value()), id, at)
    {
      if haltReason !in HALT_REASONS || phase !in PHASES {
        return InvalidHaltReason;
      }
      if id in failures {
        return IdempotentNoop;
      }
      failures := failures[id := Failure(at, None)];
      r := Written;
    }

    /** `files` is the directory listing, in any order. */
    method PromoteFailure(c: Command, files: seq<string>) returns (r: PromoteResult)
      requires c.Promote? && !c.crash && forall id :: id in files <==> id in cases
      modifies this
      ensures Promotes(old(Value()), c, Value())
      ensures r.Created? ==> r.id !in old(cases) && Adds(old(Value()), Value(), c, r.id)
      ensures r.Created? && c.caseId.None? ==> r.id == IdFor(c.failure, None, files)
      ensures r.ReactivatedCase? ==> c.reactivate && Reactivates(old(Value()), Value(), c.failure, r.id)
      ensures r.InvalidOutcome? <==> c.outcome.Unknown?
      ensures r.NoFailure? <==> !c.outcome.Unknown? && c.failure !in old(failures)
      ensures r.InvalidOutcome? || r.NoFailure? || r.AlreadyPromoted? ==> Value() == old(Value())
    {
      if c.outcome.Unknown? {
        return InvalidOutcome;
      }
      if c.failure !in failures {
        return NoFailure;
      }
      ghost var before := Value();
      for n := 0 to |files|
        invariant Value() == before
        invariant forall k | 0 <= k < n :: !Matches(before, c.failure, files[k])
      {
        var id := files[n];
        if Prefixed(id) && cases[id].source == c.failure {
          assert Matches(before, c.failure, id);
          if c.reactivate && cases[id].retired {
            cases := cases[id := cases[id].(retired := false)];
            return ReactivatedCase(id);
          }
          return AlreadyPromoted;
        }
      }
      if c.caseId.Some? && c.caseId.value in cases {
        return AlreadyPromoted;
      }
      DerivedIdIsNew(Sanitized(c.failure), files);
      var id := IdFor(c.failure, c.caseId, files);
      assert ListsCases(before, files);
      cases := cases[id := Case(c.failure, c.outcome, false, c.correction)];
      failures := failures[c.failure := failures[c.failure].(promoted := Some(id))];
      assert Value() == Added(before, c.failure, id, c.outcome, c.correction, false);
      r := Created(id);
    }

    method RetireCase(id: string, reason: string) returns (ok: bool)
      modifies this`cases
      ensures Value() == RetiredIn(old(Value()), id, reason)
      ensures ok == (reason != "" && id in old(cases) && !old(cases)[id].retired)
      ensures if ok then Retires(old(Value()), Value(), id, reason) else cases == old(cases)
    {
      if reason == "" || id !in cases || cases[id].retired {
        return false;
      }
      ghost var before := Value();
      cases := cases[id := RetiredCase(cases[id], reason)];
      ReasonIsLast(before.cases[id].correction, reason);
      ok := true;
    }

    /** Unlinks the purgeable failures among the listed ones, and reports them. */
    method PurgeUnpromoted(cutoff: int, files: seq<string>) returns (purged: seq<string>)
      requires forall id :: id in files <==> id in failures
      modifies this`failures
      ensures Value() == Purged(old(Value()), cutoff)
      ensures forall id | id in old(failures) ::
        (id in failures <==> old(failures)[id].promoted.Some? || old(failures)[id].captured >= cutoff)
        && (id in failures ==> failures[id] == old(failures)[id])
      ensures failures.Keys <= old(failures).Keys
      ensures forall id :: id in purged <==> id in old(failures) && Purgeable(old(failures)[id], cutoff)
    {
      purged := [];
      for n := 0 to |files|
        invariant forall id :: id in purged <==> id in files[..n] && Purgeable(old(failures)[id], cutoff)
        invariant failures == map id | id in old(failures) && id !in purged :: old(failures)[id]
      {
        var id := files[n];
        assert files[..n + 1] == files[..n] + [id];
        if id in failures && Purgeable(failures[id], cutoff) {
          purged := purged + [id];
          failures := failures - {id};
        }
      }
      assert files[..|files|] == files;
    }
  }

  // ---------- Runs ----------

  ghost predicate IsRun(states: seq<Store>, commands: seq<Command>) {
    && |states| == |commands| + 1
    && forall i {:trigger Next(states[i], commands[i], states[i + 1])} | 0 <= i < |commands| ::
         Next(states[i], commands[i], states[i + 1])
  }

  lemma StepOf(states: seq<Store>, commands: seq<Command>, i: nat)
    requires IsRun(states, commands) && i < |commands|
    ensures Next(states[i], commands[i], states[i + 1])
  {
    var taken := Next(states[i], commands[i], states[i + 1]);
    assert taken;
  }

  /** Cases are never deleted, and neither their source nor their expected outcome ever changes. */
  ghost predicate CasesStand(s: Store, s': Store) {
    forall id | id in s.cases ::
      id in s'.cases && s'.cases[id].source == s.cases[id].source && s'.cases[id].outcome == s.cases[id].outcome
  }

  lemma NewIdIsFree(s: Store, c: Command, ids: seq<string>)
    requires c.Promote? && ListsCases(s, ids) && (c.caseId.Some? ==> c.caseId.value !in s.cases)
    ensures IdFor(c.failure, c.caseId, ids) !in s.cases
  {
    DerivedIdIsNew(Sanitized(c.failure), ids);
  }

  lemma StepKeepsCases(s: Store, c: Command, s': Store)
    requires Next(s, c, s')
    ensures CasesStand(s, s')
  {
    if c.Promote? && s' != s && !exists id :: Matches(s, c.failure, id) {
      var ids :| ListsCases(s, ids) &&
        s' == Added(s, c.failure, IdFor(c.failure, c.caseId, ids), c.outcome, c.correction, c.crash);
      NewIdIsFree(s, c, ids);
    }
  }

  /** Main result: over any run, crashes and arbitrary case ids included. */
  lemma {:induction false} CasesNeverChange(states: seq<Store>, commands: seq<Command>, i: nat, j: nat)
    requires IsRun(states, commands) && i <= j < |states|
    ensures CasesStand(states[i], states[j])
    decreases j - i
  {
    hide Next;
    if i < j {
      StepOf(states, commands, i);
      StepKeepsCases(states[i], commands[i], states[i + 1]);
      CasesNeverChange(states, commands, i + 1, j);
    }
  }

  // ---------- One case per failure ----------

  ghost predicate OneCaseEach(s: Store) {
    forall a, b | a in s.cases && b in s.cases && s.cases[a].source == s.cases[b].source :: a == b
  }

  ghost predicate AllPrefixed(s: Store) {
    forall id | id in s.cases :: Prefixed(id)
  }

  predicate PrefixedCommand(c: Command) {
    c.Promote? && c.caseId.Some? ==> Prefixed(c.caseId.value)
  }

  /** What a promotion that writes a new case does, with command-line ids named case_*. */
  lemma NewCase(s: Store, c: Command, s': Store) returns (id: string)
    requires c.Promote? && Next(s, c, s') && PrefixedCommand(c) && s' != s && !exists id :: Matches(s, c.failure, id)
    ensures id !in s.cases && Prefixed(id) && c.failure in s.failures
    ensures s' == Added(s, c.failure, id, c.outcome, c.correction, c.crash)
    ensures forall a | a in s.cases && Prefixed(a) :: s.cases[a].source != c.failure
  {
    var ids :| ListsCases(s, ids) &&
      s' == Added(s, c.failure, IdFor(c.failure, c.caseId, ids), c.outcome, c.correction, c.crash);
    id := IdFor(c.failure, c.caseId, ids);
    DerivedIsPrefixed(Sanitized(c.failure), Highest(Sanitized(c.failure), ids) + 1);
    NewIdIsFree(s, c, ids);
    forall a | a in s.cases && Prefixed(a)
      ensures s.cases[a].source != c.failure
    {
      assert !Matches(s, c.failure, a);
    }
  }

  lemma StepKeepsOneCase(s: Store, c: Command, s': Store)
    requires Next(s, c, s') && PrefixedCommand(c) && OneCaseEach(s) && AllPrefixed(s)
    ensures OneCaseEach(s') && AllPrefixed(s')
  {
    if c.Promote? && s' != s && !exists id :: Matches(s, c.failure, id) {
      var id := NewCase(s, c, s');
    }
  }

  /** A promotion gives a failure a second case exactly when its first one is not named case_*: the duplicate
      scan sees prefixed files only. */
  lemma SecondCaseExactlyWhenUnprefixed(s: Store, c: Command, s': Store, ids: seq<string>)
    requires c.Promote? && Next(s, c, s') && ListsCases(s, ids)
    requires !c.outcome.Unknown? && c.failure in s.failures && (c.caseId.Some? ==> c.caseId.value !in s.cases)
    requires exists a :: a in s.cases && s.cases[a].source == c.failure
    ensures (exists new_ :: new_ in s'.cases && new_ !in s.cases && s'.cases[new_].source == c.failure)
        <==> forall a | a in s.cases && s.cases[a].source == c.failure :: !Prefixed(a)
  {
    if exists id :: Matches(s, c.failure, id) {
      assert s'.cases.Keys == s.cases.Keys;
    } else {
      var used :| ListsCases(s, used) &&
        s' == Added(s, c.failure, IdFor(c.failure, c.caseId, used), c.outcome, c.correction, c.crash);
      NewIdIsFree(s, c, used);
      var id := IdFor(c.failure, c.caseId, used);
      assert id in s'.cases && id !in s.cases && s'.cases[id].source == c.failure;
      forall a | a in s.cases && s.cases[a].source == c.failure
        ensures !Prefixed(a)
      {
        assert !Matches(s, c.failure, a);
      }
    }
  }

  // ---------- Sources are kept ----------

  /** Every case's failure is on file and points back to it. */
  ghost predicate Linked(s: Store) {
    forall id | id in s.cases ::
      s.cases[id].source in s.failures && s.failures[s.cases[id].source].promoted == Some(id)
  }

  predicate CrashFree(c: Command) {
    c.Promote? ==> !c.crash
  }

  lemma StepKeepsLinks(s: Store, c: Command, s': Store)
    requires Next(s, c, s') && PrefixedCommand(c) && CrashFree(c) && Linked(s) && AllPrefixed(s)
    ensures Linked(s')
  {
    if c.Promote? && s' != s && !exists id :: Matches(s, c.failure, id) {
      var id := NewCase(s, c, s');
    }
  }

  const EMPTY := Store(map[], map[])

  /** Main result: in crash-free runs whose operator-chosen ids start with case_, each failure has at most one
      case and no case's source failure is ever purged. */
  lemma {:induction false} LifecycleIsSound(states: seq<Store>, commands: seq<Command>, i: nat)
    requires IsRun(states, commands) && states[0] == EMPTY && i < |states|
    requires forall k | 0 <= k < |commands| :: PrefixedCommand(commands[k]) && CrashFree(commands[k])
    ensures OneCaseEach(states[i]) && AllPrefixed(states[i]) && Linked(states[i])
  {
    hide Next;
    if i > 0 {
      LifecycleIsSound(states, commands, i - 1);
      StepOf(states, commands, i - 1);
      StepKeepsOneCase(states[i - 1], commands[i - 1], states[i]);
      StepKeepsLinks(states[i - 1], commands[i - 1], states[i]);
    }
  }

  // ---------- What a crash breaks ----------

  /** A promotion cut off between the new case file and the pointer to it. */
  predicate CrashedPromotion(s: Store, c: Command, s': Store) {
    c.Promote? && c.crash && s'.cases.Keys != s.cases.Keys
  }

  /** Pointers name cases. */
  ghost predicate PointersMeet(s: Store) {
    forall f | f in s.failures && s.failures[f].promoted.Some? :: s.failures[f].promoted.value in s.cases
  }

  lemma StepKeepsPointers(s: Store, c: Command, s': Store)
    requires Next(s, c, s') && PointersMeet(s)
    ensures PointersMeet(s')
  {
    if c.Promote? && s' != s && !exists id :: Matches(s, c.failure, id) {
      var ids :| ListsCases(s, ids) &&
        s' == Added(s, c.failure, IdFor(c.failure, c.caseId, ids), c.outcome, c.correction, c.crash);
    }
  }

  /** One step from a linked store breaks a link exactly when it is a crashed promotion. */
  lemma LinkedExactlyUnlessCrashed(s: Store, c: Command, s': Store)
    requires Next(s, c, s') && PrefixedCommand(c) && AllPrefixed(s) && PointersMeet(s) && Linked(s)
    ensures Linked(s') <==> !CrashedPromotion(s, c, s')
  {
    if c.Promote? && s' != s && !exists id :: Matches(s, c.failure, id) {
      var id := NewCase(s, c, s');
      AddedIsLinkedUnlessCrashed(s, c, id);
    } else if c.Promote? {
      assert s'.cases.Keys == s.cases.Keys;
      StepKeepsLinks(s, c.(crash := false), s');
    } else {
      StepKeepsLinks(s, c, s');
    }
  }

  lemma AddedIsLinkedUnlessCrashed(s: Store, c: Command, id: string)
    requires c.Promote? && PointersMeet(s) && Linked(s) && AllPrefixed(s) && id !in s.cases && c.failure in s.failures
    requires forall a | a in s.cases && Prefixed(a) :: s.cases[a].source != c.failure
    ensures var s' := Added(s, c.failure, id, c.outcome, c.correction, c.crash);
      s'.cases.Keys != s.cases.Keys && (Linked(s') <==> !c.crash)
  {
    var s' := Added(s, c.failure, id, c.outcome, c.correction, c.crash);
    assert id in s'.cases && s'.cases[id].source == c.failure;
  }

  /** A case whose failure is gone or does not point back to it. */
  ghost predicate Orphan(s: Store, id: string) {
    && id in s.cases && Prefixed(id)
    && (s.cases[id].source in s.failures ==> s.failures[s.cases[id].source].promoted != Some(id))
  }

  /** No command mends that: the duplicate scan keeps every later promotion from writing the pointer. */
  lemma OrphansStay(s: Store, c: Command, s': Store, id: string)
    requires Next(s, c, s') && Orphan(s, id)
    ensures Orphan(s', id)
  {
    StepKeepsCases(s, c, s');
    if c.Promote? && s' != s && !exists a :: Matches(s, c.failure, a) {
      assert !Matches(s, c.failure, id);
      var ids :| ListsCases(s, ids) &&
        s' == Added(s, c.failure, IdFor(c.failure, c.caseId, ids), c.outcome, c.correction, c.crash);
    }
  }

  /** Main result: in runs whose operator-chosen ids start with case_, every case is linked to its failure exactly as
      long as no promotion has crashed between its two writes. */
  lemma {:induction false} LinkedExactlyWithoutCrashes(states: seq<Store>, commands: seq<Command>, i: nat)
    requires IsRun(states, commands) && states[0] == EMPTY && i < |states|
    requires forall k | 0 <= k < |commands| :: PrefixedCommand(commands[k])
    ensures AllPrefixed(states[i]) && PointersMeet(states[i])
    ensures Linked(states[i]) <==> forall k | 0 <= k < i :: !CrashedPromotion(states[k], commands[k], states[k + 1])
  {
    hide Next, CrashedPromotion, Orphan;
    if i > 0 {
      var s, c, s' := states[i - 1], commands[i - 1], states[i];
      LinkedExactlyWithoutCrashes(states, commands, i - 1);
      StepOf(states, commands, i - 1);
      StepKeepsPointers(s, c, s');
      StepKeepsPrefixes(s, c, s');
      LinkedIffNoOrphan(s);
      LinkedIffNoOrphan(s');
      if Linked(s) {
        LinkedExactlyUnlessCrashed(s, c, s');
      } else {
        var id :| Orphan(s, id);
        OrphansStay(s, c, s', id);
      }
    }
  }

  lemma LinkedIffNoOrphan(s: Store)
    requires AllPrefixed(s)
    ensures Linked(s) <==> !exists id :: Orphan(s, id)
  {
    forall id | id in s.cases
      ensures Orphan(s, id) <==>
        !(s.cases[id].source in s.failures && s.failures[s.cases[id].source].promoted == Some(id))
    {}
  }

  lemma StepKeepsPrefixes(s: Store, c: Command, s': Store)
    requires Next(s, c, s') && PrefixedCommand(c) && AllPrefixed(s)
    ensures AllPrefixed(s')
  {
    if c.Promote? && s' != s && !exists id :: Matches(s, c.failure, id) {
      var id := NewCase(s, c, s');
    }
  }

  /** And a failure on file is safe from every purge exactly when it points to a case: for one that does not, any cutoff
      after its capture takes it. */
  lemma PurgeTakesExactlyTheUnpointed(s: Store, id: string, cutoff: int, s': Store)
    requires Next(s, Purge(cutoff), s') && id in s.cases && s.cases[id].source in s.failures
    ensures var f := s.failures[s.cases[id].source];
      && (s.cases[id].source !in s'.failures <==> f.promoted.None? && f.captured < cutoff)
      && ((forall at :: s.cases[id].source in Purged(s, at).failures) <==> f.promoted.Some?)
  {
    var f := s.failures[s.cases[id].source];
    assert f.promoted.None? ==> Purgeable(f, f.captured + 1);
    assert f.promoted.None? ==> s.cases[id].source !in Purged(s, f.captured + 1).failures;
  }

  /** Without the prefix: one failure, two cases. */
  lemma UnprefixedIdsDuplicate() returns (states: seq<Store>, commands: seq<Command>)
    ensures IsRun(states, commands) && states[0] == EMPTY && forall c | c in commands :: CrashFree(c)
    ensures !OneCaseEach(states[|commands|])
  {
    var f := "failure_a_T0_iter1";
    var s1 := Captured(EMPTY, f, 0);
    var first := Promote(f, ScorerShouldFlag, Some("mine"), "", false, false);
    var second := Promote(f, ScorerShouldFlag, Some("yours"), "", false, false);
    var s2 := Added(s1, f, "mine", ScorerShouldFlag, "", false);
    var s3 := Added(s2, f, "yours", ScorerShouldFlag, "", false);
    states, commands := [EMPTY, s1, s2, s3], [Capture(f, 0), first, second];
    assert ListsCases(s1, []);
    assert ListsCases(s2, ["mine"]);
    assert !Prefixed("mine");
    assert forall id :: !Matches(s1, f, id);
    assert forall id :: !Matches(s2, f, id);
    assert Promotes(s1, first, s2);
    assert Promotes(s2, second, s3);
    assert Next(states[0], commands[0], states[1]) && Next(states[1], commands[1], states[2]);
    assert Next(states[2], commands[2], states[3]);
    assert "mine" in s3.cases && "yours" in s3.cases;
  }

  /** A crash between the two writes of a promotion: the failure stays unmarked, no later promotion marks it, and
      the purge takes it away from its case. */
  lemma CrashLosesTheSource() returns (states: seq<Store>, commands: seq<Command>)
    ensures IsRun(states, commands) && states[0] == EMPTY && forall c | c in commands :: PrefixedCommand(c)
    ensures var s := states[|commands|]; exists id :: id in s.cases && s.cases[id].source !in s.failures
  {
    var f := "failure_a_T0_iter1";
    var s1 := Captured(EMPTY, f, 0);
    var crashing := Promote(f, ScorerShouldFlag, Some("case_a"), "", false, true);
    var retry := Promote(f, ScorerShouldFlag, None, "", false, false);
    var s2 := Added(s1, f, "case_a", ScorerShouldFlag, "", true);
    var s4 := Purged(s2, 1);
    states, commands := [EMPTY, s1, s2, s2, s4], [Capture(f, 0), crashing, retry, Purge(1)];
    assert ListsCases(s1, []);
    assert forall id :: !Matches(s1, f, id);
    assert Promotes(s1, crashing, s2);
    assert Matches(s2, f, "case_a");
    assert Promotes(s2, retry, s2);
    assert Next(states[0], commands[0], states[1]) && Next(states[1], commands[1], states[2]);
    assert Next(states[2], commands[2], states[3]) && Next(states[3], commands[3], states[4]);
    assert Purgeable(s2.failures[f], 1);
    assert "case_a" in s4.cases && s4.cases["case_a"].source !in s4.failures;
  }
}
