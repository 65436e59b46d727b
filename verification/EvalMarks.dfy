/** Which cases are retired, over whole runs. */
module EvalMarks {
  import opened EvalCases
  import opened EvalGate

  // A case is retired exactly when the last command that marked it was a retire (bin/_eval_common/regression_case.py).
  // A promotion that may reactivate marks the failure's case active, and so does the one that creates it.

  /** A retire with a reason, of a case on file. */
  predicate MarksRetired(s: Store, c: Command, id: string) {
    c.Retire? && c.retiring == id && c.reason != "" && id in s.cases
  }

  /** A promotion that finds the case of its failure and was allowed to reactivate it. */
  predicate MarksActive(s: Store, c: Command, id: string) {
    && c.Promote? && c.reactivate && !c.outcome.Unknown? && c.failure in s.failures
    && id in s.cases && "case_" <= id && s.cases[id].source == c.failure
  }

  ghost predicate LastMarkIsRetired(states: seq<Store>, commands: seq<Command>, i: nat, id: string)
    requires |states| == |commands| + 1 && i < |states|
  {
    i > 0 &&
    (MarksRetired(states[i - 1], commands[i - 1], id)
     || (LastMarkIsRetired(states, commands, i - 1, id) && !MarksActive(states[i - 1], commands[i - 1], id)))
  }

  // ---------- At most one prefixed case of a failure ----------

  ghost predicate OnePrefixedEach(s: Store) {
    forall a, b | a in s.cases && b in s.cases && Prefixed(a) && Prefixed(b)
        && s.cases[a].source == s.cases[b].source ::
      a == b
  }

  /** Whatever ids the operator chose. */
  lemma StepKeepsOnePrefixed(s: Store, c: Command, s': Store)
    requires Next(s, c, s') && OnePrefixedEach(s)
    ensures OnePrefixedEach(s')
  {
    if c.Promote? && s' != s && !exists id :: Matches(s, c.failure, id) {
      var ids :| ListsCases(s, ids) &&
        s' == Added(s, c.failure, IdFor(c.failure, c.caseId, ids), c.outcome, c.correction, c.crash);
      NewIdIsFree(s, c, ids);
      forall a | a in s.cases && Prefixed(a)
        ensures s.cases[a].source != c.failure
      {
        assert !Matches(s, c.failure, a);
      }
    }
  }

  lemma {:induction false} OnePrefixedAlways(states: seq<Store>, commands: seq<Command>, i: nat)
    requires IsRun(states, commands) && states[0] == EMPTY && i < |states|
    ensures OnePrefixedEach(states[i])
  {
    hide Next;
    if i > 0 {
      OnePrefixedAlways(states, commands, i - 1);
      StepOf(states, commands, i - 1);
      StepKeepsOnePrefixed(states[i - 1], commands[i - 1], states[i]);
    }
  }

  // ---------- Marks ----------

  /** One step: a mark says what the case is afterwards, no mark leaves it as it was, and a new case is active. */
  lemma StepMarks(s: Store, c: Command, s': Store, id: string)
    requires Next(s, c, s') && OnePrefixedEach(s) && id in s'.cases
    ensures s'.cases[id].retired <==>
      MarksRetired(s, c, id) || (id in s.cases && s.cases[id].retired && !MarksActive(s, c, id))
  {
    if c.Promote? && !c.outcome.Unknown? && c.failure in s.failures {
      if exists a :: Matches(s, c.failure, a) {
        var a :| Matches(s, c.failure, a) && s' == if c.reactivate && s.cases[a].retired then Reactivated(s, a) else s;
        assert Matches(s, c.failure, id) ==> a == id;
      } else if s' != s {
        var ids :| ListsCases(s, ids) &&
          s' == Added(s, c.failure, IdFor(c.failure, c.caseId, ids), c.outcome, c.correction, c.crash);
        NewIdIsFree(s, c, ids);
        assert !Matches(s, c.failure, id);
      } else {
        assert !Matches(s, c.failure, id);
      }
    }
  }

  lemma {:induction false} NoMarkYet(states: seq<Store>, commands: seq<Command>, i: nat, id: string)
    requires IsRun(states, commands) && i < |states| && id !in states[i].cases
    ensures !LastMarkIsRetired(states, commands, i, id)
  {
    if i > 0 {
      StepOf(states, commands, i - 1);
      StepKeepsCases(states[i - 1], commands[i - 1], states[i]);
      NoMarkYet(states, commands, i - 1, id);
    }
  }

  /** Main result: in every run, crashes and arbitrary ids included, a case on file is retired exactly when the last
      command that marked it was a retire. */
  lemma {:induction false} RetiredExactlyWhenLastMarked(states: seq<Store>, commands: seq<Command>, i: nat, id: string)
    requires IsRun(states, commands) && states[0] == EMPTY && i < |states| && id in states[i].cases
    ensures states[i].cases[id].retired <==> LastMarkIsRetired(states, commands, i, id)
  {
    hide Next, MarksRetired, MarksActive;
    if i > 0 {
      StepOf(states, commands, i - 1);
      OnePrefixedAlways(states, commands, i - 1);
      StepMarks(states[i - 1], commands[i - 1], states[i], id);
      if id in states[i - 1].cases {
        RetiredExactlyWhenLastMarked(states, commands, i - 1, id);
      } else {
        NoMarkYet(states, commands, i - 1, id);
      }
    }
  }

  /** So the listing, and with it every baseline minted from it, holds exactly the case_* files whose last mark is not
      a retire. */
  lemma ListedExactlyUnlessRetired(states: seq<Store>, commands: seq<Command>, i: nat, files: seq<string>, id: string)
    requires IsRun(states, commands) && states[0] == EMPTY && i < |states| && DirectoryOf(states[i], files)
    ensures Lists(ActiveRows(states[i], files), id) <==>
      id in states[i].cases && "case_" <= id && !LastMarkIsRetired(states, commands, i, id)
  {
    ActiveRowsAreExact(states[i], files);
    if id in states[i].cases {
      RetiredExactlyWhenLastMarked(states, commands, i, id);
    }
  }
}
