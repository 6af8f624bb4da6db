/** Runbook execution: ordered steps with dependencies and retries, and on a
    required failure the skipping of dependents and a rollback in reverse. */
module RunbookEngine {
  import opened Sequences

  datatype Step = Step(id: string, optional: bool, dependsOn: seq<string>, maxRetries: int, hasRollback: bool)

  datatype Status = Succeeded | Failed | Skipped | RolledBack

  datatype StepResult = StepResult(stepId: string, status: Status, attempts: int)

  /** How the steps behave: whether an attempt of a step succeeds (it does not when
      it throws, times out or says so), and whether its rollback goes through. */
  datatype Behaviour = Behaviour(attempt: (string, nat) -> bool, undo: string -> bool)

  ghost predicate UniqueIds(steps: seq<Step>) {
    forall i, j :: 0 <= i < j < |steps| ==> steps[i].id != steps[j].id
  }

  /** The first attempt from `a` up to `last` that succeeds, or None. */
  function FirstSuccess(id: string, b: Behaviour, a: nat, last: int): (r: Option<nat>)
    ensures r.Some? ==> a <= r.value <= last && b.attempt(id, r.value) && forall k: nat :: a <= k < r.value ==>
        !b.attempt(id, k)
    ensures r.None? ==> forall k: nat :: a <= k <= last ==> !b.attempt(id, k)
    decreases last + 1 - a
  {
    if a > last then None else if b.attempt(id, a) then Some(a) else FirstSuccess(id, b, a + 1, last)
  }

  function Ran(step: Step, b: Behaviour): StepResult {
    var first := FirstSuccess(step.id, b, 0, step.maxRetries);
    if first.Some? then StepResult(step.id, Succeeded, first.value + 1)
    else StepResult(step.id, Failed, step.maxRetries + 1)
  }

  method ExecuteStep(step: Step, b: Behaviour) returns (r: StepResult)
    ensures r == Ran(step, b)
  {
    var attempt := 0;
    while attempt <= step.maxRetries
      invariant 0 <= attempt && (step.maxRetries >= 0 ==> attempt <= step.maxRetries + 1)
      invariant FirstSuccess(step.id, b, 0, step.maxRetries) == FirstSuccess(step.id, b, attempt, step.maxRetries)
      decreases step.maxRetries + 1 - attempt
    {
      if b.attempt(step.id, attempt) {
        return StepResult(step.id, Succeeded, attempt + 1);
      }
      attempt := attempt + 1;
    }
    return StepResult(step.id, Failed, step.maxRetries + 1);
  }

  /** Position of the first result of a step, or -1. */
  function FindResult(results: seq<StepResult>, id: string): (at: int)
    ensures -1 <= at < |results|
    ensures at >= 0 ==> results[at].stepId == id && forall i :: 0 <= i < at ==> results[i].stepId != id
    ensures at < 0 ==> forall i :: 0 <= i < |results| ==> results[i].stepId != id
  {
    if results == [] then -1
    else if results[0].stepId == id then 0
    else
      var at := FindResult(results[1..], id);
      if at < 0 then -1 else at + 1
  }

  predicate Met(results: seq<StepResult>, dep: string) {
    var at := FindResult(results, dep);
    at >= 0 && results[at].status.Succeeded?
  }

  predicate Ready(step: Step, results: seq<StepResult>) {
    forall dep :: dep in step.dependsOn ==> Met(results, dep)
  }

  /** What happens to a step when its turn comes. */
  function Outcome(step: Step, b: Behaviour, results: seq<StepResult>): StepResult {
    if Ready(step, results) then Ran(step, b) else StepResult(step.id, Skipped, 0)
  }

  function Outcomes(steps: seq<Step>, b: Behaviour, n: nat): (results: seq<StepResult>)
    requires n <= |steps|
    ensures |results| == n
    ensures forall k :: 0 <= k < n ==> results[k].stepId == steps[k].id && !results[k].status.RolledBack?
  {
    if n == 0 then []
    else
      var before := Outcomes(steps, b, n - 1);
      before + [Outcome(steps[n - 1], b, before)]
  }

  predicate Breaks(step: Step, r: StepResult) {
    r.status.Failed? && !step.optional
  }

  /** Where the walk stops: the first required step that fails, or the end. */
  function Stop(steps: seq<Step>, b: Behaviour, n: nat): (f: nat)
    requires n <= |steps|
    ensures f <= n
    ensures forall k :: 0 <= k < f ==> !Breaks(steps[k], Outcomes(steps, b, k + 1)[k])
    ensures f < n ==> Breaks(steps[f], Outcomes(steps, b, f + 1)[f])
  {
    if n == 0 then 0
    else
      var f := Stop(steps, b, n - 1);
      if f < n - 1 then f
      else if Breaks(steps[n - 1], Outcomes(steps, b, n)[n - 1]) then n - 1 else n
  }

  predicate Blocked(step: Step, failedId: string, results: seq<StepResult>) {
    failedId in step.dependsOn
    || exists i :: 0 <= i < |results| && results[i].status.Skipped? && results[i].stepId in step.dependsOn
  }

  /** The results once the steps between the failed one and `n` are marked. */
  function MarkSkipped(steps: seq<Step>, results: seq<StepResult>, f: nat, n: nat): seq<StepResult>
    requires f < n <= |steps|
  {
    if n == f + 1 then results
    else
      var marked := MarkSkipped(steps, results, f, n - 1);
      if Blocked(steps[n - 1], steps[f].id, marked) then marked + [StepResult(steps[n - 1].id, Skipped, 0)] else marked
  }

  function SucceededSteps(steps: seq<Step>, results: seq<StepResult>): seq<Step>
    requires |results| <= |steps|
  {
    if results == [] then []
    else
      var last := |results| - 1;
      SucceededSteps(steps, results[..last]) + if results[last].status.Succeeded? then [steps[last]] else []
  }

  function Reversed<T>(s: seq<T>): seq<T> {
    if s == [] then [] else [s[|s| - 1]] + Reversed(s[..|s| - 1])
  }

  function RollBackOne(step: Step, b: Behaviour, results: seq<StepResult>): (after: seq<StepResult>)
    ensures |after| == |results|
  {
    var at := FindResult(results, step.id);
    if step.hasRollback && b.undo(step.id) && at >= 0 then results[at := results[at].(status := RolledBack)]
      else results
  }

  /** The results after rolling back `todo`, first to last. */
  function RollBack(todo: seq<Step>, b: Behaviour, results: seq<StepResult>): (after: seq<StepResult>)
    ensures |after| == |results|
  {
    if todo == [] then results else RollBack(todo[1..], b, RollBackOne(todo[0], b, results))
  }

  /** The rollbacks that are called, in order. */
  function Undone(todo: seq<Step>): seq<string> {
    if todo == [] then [] else (if todo[0].hasRollback then [todo[0].id] else []) + Undone(todo[1..])
  }

  datatype RunResult = RunResult(success: bool, results: seq<StepResult>, undone: seq<string>)

  predicate AllRequiredSucceeded(steps: seq<Step>, results: seq<StepResult>)
    requires |results| <= |steps|
  {
    results == [] ||
    var last := |results| - 1;
    AllRequiredSucceeded(steps, results[..last]) && (steps[last].optional || results[last].status.Succeeded?)
  }

  /** The whole run. */
  function Run(steps: seq<Step>, b: Behaviour): RunResult {
    var f := Stop(steps, b, |steps|);
    if f == |steps| then
      var results := Outcomes(steps, b, f);
      RunResult(AllRequiredSucceeded(steps, results), results, [])
    else
      var walked := Outcomes(steps, b, f + 1);
      var todo := Reversed(SucceededSteps(steps, walked));
      RunResult(false, RollBack(todo, b, MarkSkipped(steps, walked, f, |steps|)), Undone(todo))
  }

  method Execute(steps: seq<Step>, b: Behaviour)
      returns (success: bool, stepResults: seq<StepResult>, ghost undone: seq<string>)
    ensures success == Run(steps, b).success && stepResults == Run(steps, b).results
    ensures undone == Run(steps, b).undone
  {
    hide Run, Stop, Outcomes, Outcome, SucceededSteps, AllRequiredSucceeded, Reversed, Undone, MarkSkipped, RollBack;
    WalkStarts(steps, b);
    stepResults, success, undone := [], true, [];
    var succeededSteps: seq<Step> := [];
    NothingYet(steps);
    for i := 0 to |steps|
      invariant stepResults == Outcomes(steps, b, i)
      invariant succeededSteps == SucceededSteps(steps, stepResults)
      invariant success == AllRequiredSucceeded(steps, stepResults)
      invariant Stop(steps, b, i) == i && undone == []
    {
      var step := steps[i];
      var stepResult := TakeTurn(step, b, stepResults);
      WalksOn(steps, b, i);
      OneMore(steps, stepResults, stepResult);
      stepResults := stepResults + [stepResult];
      if stepResult.status.Succeeded? {
        succeededSteps := succeededSteps + [step];
      } else if !step.optional {
        success := false;
        if stepResult.status.Failed? {
          BrokenOff(steps, b, i);
          assert succeededSteps == SucceededSteps(steps, stepResults);
          stepResults := MarkDependents(steps, i, stepResults);
          stepResults, undone := RollBackSteps(Reversed(succeededSteps), b, stepResults);
          return;
        }
      }
    }
    WalkedThrough(steps, b);
  }

  lemma WalkStarts(steps: seq<Step>, b: Behaviour)
    ensures Outcomes(steps, b, 0) == [] && Stop(steps, b, 0) == 0
  {
  }

  lemma WalksOn(steps: seq<Step>, b: Behaviour, i: nat)
    requires i < |steps| && Stop(steps, b, i) == i
    ensures var r := Outcome(steps[i], b, Outcomes(steps, b, i));
            && Outcomes(steps, b, i + 1) == Outcomes(steps, b, i) + [r]
            && Stop(steps, b, i + 1) == if Breaks(steps[i], r) then i else i + 1
  {
    hide Outcome;
  }

  lemma WalkedThrough(steps: seq<Step>, b: Behaviour)
    requires Stop(steps, b, |steps|) == |steps|
    ensures var results := Outcomes(steps, b, |steps|);
            Run(steps, b) == RunResult(AllRequiredSucceeded(steps, results), results, [])
  {
  }

  lemma BrokenOff(steps: seq<Step>, b: Behaviour, f: nat)
    requires f < |steps| && Stop(steps, b, f + 1) == f
    ensures var walked := Outcomes(steps, b, f + 1);
            var todo := Reversed(SucceededSteps(steps, walked));
            Run(steps, b) == RunResult(false, RollBack(todo, b, MarkSkipped(steps, walked, f, |steps|)), Undone(todo))
  {
    hide Stop, Outcomes, SucceededSteps, Reversed, RollBack, MarkSkipped, Undone;
    StopIsFirst(steps, b, f + 1);
  }

  /** Skips a step with unmet dependencies, and executes any other. */
  method TakeTurn(step: Step, b: Behaviour, results: seq<StepResult>) returns (r: StepResult)
    ensures r == Outcome(step, b, results)
  {
    var unmet := Unmet(step.dependsOn, results);
    if unmet != [] {
      return StepResult(step.id, Skipped, 0);
    }
    r := ExecuteStep(step, b);
  }

  lemma {:induction false} NothingYet(steps: seq<Step>)
    ensures SucceededSteps(steps, []) == [] && AllRequiredSucceeded(steps, [])
  {
  }

  lemma {:induction false} OneMore(steps: seq<Step>, results: seq<StepResult>, r: StepResult)
    requires |results| < |steps|
    ensures SucceededSteps(steps, results + [r]) ==
            SucceededSteps(steps, results) + if r.status.Succeeded? then [steps[|results|]] else []
    ensures AllRequiredSucceeded(steps, results + [r]) <==>
            AllRequiredSucceeded(steps, results) && (steps[|results|].optional || r.status.Succeeded?)
  {
    assert (results + [r])[..|results|] == results;
  }

  /** The dependencies of a step that have no success yet. */
  method Unmet(dependsOn: seq<string>, results: seq<StepResult>) returns (unmet: seq<string>)
    ensures unmet == [] <==> forall dep :: dep in dependsOn ==> Met(results, dep)
    ensures forall dep :: dep in unmet ==> dep in dependsOn && !Met(results, dep)
  {
    unmet := [];
    for i := 0 to |dependsOn|
      invariant unmet == [] <==> forall k :: 0 <= k < i ==> Met(results, dependsOn[k])
      invariant forall dep :: dep in unmet ==> dep in dependsOn && !Met(results, dep)
    {
      if !Met(results, dependsOn[i]) { unmet := unmet + [dependsOn[i]]; }
    }
  }

  method MarkDependents(steps: seq<Step>, f: nat, walked: seq<StepResult>) returns (results: seq<StepResult>)
    requires f < |steps|
    ensures results == MarkSkipped(steps, walked, f, |steps|)
  {
    results := walked;
    for j := f + 1 to |steps|
      invariant results == MarkSkipped(steps, walked, f, j)
    {
      if Blocked(steps[j], steps[f].id, results) {
        results := results + [StepResult(steps[j].id, Skipped, 0)];
      }
    }
  }

  /** Calls the rollbacks there are, one after the other, and notes those that go
      through; `called` records each call as it is made. */
  method RollBackSteps(todo: seq<Step>, b: Behaviour, before: seq<StepResult>)
    returns (results: seq<StepResult>, ghost called: seq<string>)
    ensures results == RollBack(todo, b, before)
    ensures called == Undone(todo)
  {
    hide RollBack, Undone, FindResult;
    results, called := before, [];
    assert todo[0..] == todo;
    for i := 0 to |todo|
      invariant RollBack(todo[i..], b, results) == RollBack(todo, b, before)
      invariant called + Undone(todo[i..]) == Undone(todo)
    {
      var step := todo[i];
      NextToUndo(todo, b, results, i);
      if !step.hasRollback { continue; }
      called := called + [step.id];
      if b.undo(step.id) {
        var at := FindResult(results, step.id);
        if at >= 0 { results := results[at := results[at].(status := RolledBack)]; }
      }
    }
    NoneLeft(b, todo, results);
  }

  lemma {:induction false} NoneLeft(b: Behaviour, todo: seq<Step>, results: seq<StepResult>)
    ensures RollBack(todo[|todo|..], b, results) == results && Undone(todo[|todo|..]) == []
  {
  }

  lemma {:induction false} NextToUndo(todo: seq<Step>, b: Behaviour, results: seq<StepResult>, i: nat)
    requires i < |todo|
    ensures RollBack(todo[i..], b, results) == RollBack(todo[i + 1..], b, RollBackOne(todo[i], b, results))
    ensures Undone(todo[i..]) == (if todo[i].hasRollback then [todo[i].id] else []) + Undone(todo[i + 1..])
  {
    hide RollBackOne;
    assert todo[i..][1..] == todo[i + 1..];
  }

  lemma {:induction false} StopIsFirst(steps: seq<Step>, b: Behaviour, n: nat)
    requires n <= |steps| && Stop(steps, b, n) < n
    ensures Stop(steps, b, |steps|) == Stop(steps, b, n)
    decreases |steps| - n
  {
    if n < |steps| { StopIsFirst(steps, b, n + 1); }
  }

  // ------------------------------------------------------------- dependencies

  lemma {:induction false} OutcomesPrefix(steps: seq<Step>, b: Behaviour, k: nat, n: nat)
    requires k <= n <= |steps|
    ensures Outcomes(steps, b, n)[..k] == Outcomes(steps, b, k)
    decreases n - k
  {
    if k < n {
      OutcomesPrefix(steps, b, k, n - 1);
      assert Outcomes(steps, b, n)[..n - 1] == Outcomes(steps, b, n - 1);
      assert Outcomes(steps, b, n)[..k] == Outcomes(steps, b, n)[..n - 1][..k];
    } else {
      assert Outcomes(steps, b, n)[..n] == Outcomes(steps, b, n);
    }
  }

  /** With unique ids a result is found by its step's position. */
  lemma MetByPosition(steps: seq<Step>, results: seq<StepResult>, dep: string)
    requires UniqueIds(steps) && |results| <= |steps|
    requires forall k :: 0 <= k < |results| ==> results[k].stepId == steps[k].id
    ensures Met(results, dep) <==> exists j :: 0 <= j < |results| && steps[j].id == dep && results[j].status.Succeeded?
  {
    var at := FindResult(results, dep);
    forall j | 0 <= j < |results| && steps[j].id == dep ensures j == at {
      assert results[j].stepId == dep;
      assert results[at].stepId == steps[at].id;
    }
  }

  lemma {:induction false} OutcomeAt(steps: seq<Step>, b: Behaviour, n: nat, k: nat)
    requires k < n <= |steps|
    ensures var results, before := Outcomes(steps, b, n), Outcomes(steps, b, k);
            results[k] == Outcome(steps[k], b, before) && forall j :: 0 <= j < k ==> results[j] == before[j]
  {
    hide Outcome;
    OutcomesPrefix(steps, b, k, n);
    OutcomesPrefix(steps, b, k + 1, n);
    var results := Outcomes(steps, b, n);
    assert results[k] == results[..k + 1][k];
    assert forall j :: 0 <= j < k ==> results[j] == results[..k][j];
  }

  /** A step is executed, in whatever run it has its turn, exactly when each of its
      dependencies is an earlier step that succeeded; otherwise it is skipped. */
  lemma {:induction false} RunsOnlyWhenReady(steps: seq<Step>, b: Behaviour, n: nat, k: nat)
    requires UniqueIds(steps) && k < n <= |steps|
    ensures var results := Outcomes(steps, b, n);
            !results[k].status.Skipped? <==>
            forall dep :: dep in steps[k].dependsOn ==>
              exists j :: 0 <= j < k && steps[j].id == dep && results[j].status.Succeeded?
  {
    hide Met, UniqueIds, Outcomes;
    OutcomeAt(steps, b, n, k);
    var results, before := Outcomes(steps, b, n), Outcomes(steps, b, k);
    forall dep
      ensures Met(before, dep) <==> exists j :: 0 <= j < k && steps[j].id == dep && results[j].status.Succeeded?
    {
      MetByPosition(steps, before, dep);
    }
  }

  /** What an executed step reports: success at its first successful attempt, and
      failure only after every allowed attempt failed. */
  lemma AttemptsAreBounded(step: Step, b: Behaviour)
    ensures var r := Ran(step, b);
            && (r.status.Succeeded? <==> exists a: nat :: a <= step.maxRetries && b.attempt(step.id, a))
            && (r.status.Succeeded? ==> && 1 <= r.attempts <= step.maxRetries + 1
                                        && b.attempt(step.id, r.attempts - 1)
                                        && forall a: nat :: a < r.attempts - 1 ==> !b.attempt(step.id, a))
            && (r.status.Failed? <==> !r.status.Succeeded?)
            && (r.status.Failed? ==> r.attempts == step.maxRetries + 1)
  {
  }

  // ---------------------------------------------------------------- rollback

  lemma {:induction false} SucceededStepsMember(steps: seq<Step>, results: seq<StepResult>, step: Step)
    requires |results| <= |steps|
    ensures step in SucceededSteps(steps, results) <==>
        exists k :: 0 <= k < |results| && steps[k] == step && results[k].status.Succeeded?
  {
    if results != [] {
      var last := |results| - 1;
      SucceededStepsMember(steps, results[..last], step);
      assert forall k :: 0 <= k < last ==> results[..last][k] == results[k];
    }
  }

  lemma {:induction false} ReversedMember<T>(s: seq<T>, x: T)
    ensures x in Reversed(s) <==> x in s
  {
    if s != [] {
      ReversedMember(s[..|s| - 1], x);
      assert s == s[..|s| - 1] + [s[|s| - 1]];
    }
  }

  /** Rolling back changes, for each step rolled back, its first result and nothing else. */
  lemma {:induction false} RollBackAt(todo: seq<Step>, b: Behaviour, results: seq<StepResult>, i: nat)
    requires i < |results|
    ensures var r := RollBack(todo, b, results)[i];
            && r.stepId == results[i].stepId && r.attempts == results[i].attempts
            && r.status == if FindResult(results, results[i].stepId) == i
                              && exists step ::
                                   step in todo && step.id == results[i].stepId && step.hasRollback && b.undo(step.id)
                           then RolledBack else results[i].status
  {
    if todo != [] {
      var next := RollBackOne(todo[0], b, results);
      RollBackAt(todo[1..], b, next, i);
      SameFinds(results, next, results[i].stepId);
      assert forall step :: step in todo <==> step == todo[0] || step in todo[1..];
    }
  }

  lemma {:induction false} SameFinds(s: seq<StepResult>, t: seq<StepResult>, id: string)
    requires |s| == |t| && forall i :: 0 <= i < |s| ==> s[i].stepId == t[i].stepId
    ensures FindResult(s, id) == FindResult(t, id)
  {
    var p, q := FindResult(s, id), FindResult(t, id);
    if p >= 0 { assert t[p].stepId == id; }
    if q >= 0 { assert s[q].stepId == id; }
  }

  // ------------------------------------------------- what a failed run leaves

  predicate Recorded(results: seq<StepResult>, id: string) {
    exists i :: 0 <= i < |results| && results[i].stepId == id
  }

  /** The step at `m` was skipped before the failure, or is marked after it. */
  ghost predicate Marked(steps: seq<Step>, walked: seq<StepResult>, f: nat, m: nat)
    requires f < |steps| && |walked| == f + 1 && m < |steps|
  {
    if m <= f then walked[m].status.Skipped? else Blocked(steps[m], steps[f].id, MarkSkipped(steps, walked, f, m))
  }

  ghost predicate MarksRight(steps: seq<Step>, walked: seq<StepResult>, f: nat, n: nat, results: seq<StepResult>)
    requires f < n <= |steps| && |walked| == f + 1
  {
    && f < |results| && (forall k :: 0 <= k <= f ==> results[k] == walked[k])
    && LaterSkipped(steps, f, n, results)
    && RecordedRight(steps, walked, f, n, results)
  }

  ghost predicate LaterSkipped(steps: seq<Step>, f: nat, n: nat, results: seq<StepResult>)
    requires f < n <= |steps|
  {
    forall i :: f < i < |results| ==> results[i].status.Skipped? && Between(steps, f, n, results[i].stepId)
  }

  ghost predicate RecordedRight(steps: seq<Step>, walked: seq<StepResult>, f: nat, n: nat, results: seq<StepResult>)
    requires f < n <= |steps| && |walked| == f + 1
  {
    forall m :: f < m < n ==> (Recorded(results, steps[m].id) <==> Marked(steps, walked, f, m))
  }

  ghost predicate Between(steps: seq<Step>, f: nat, n: nat, id: string)
    requires f < n <= |steps|
  {
    exists m :: f < m < n && steps[m].id == id
  }

  ghost predicate Walked(steps: seq<Step>, walked: seq<StepResult>) {
    UniqueIds(steps) && |walked| <= |steps| && forall k :: 0 <= k < |walked| ==> walked[k].stepId == steps[k].id
  }

  lemma {:induction false} MarkSkippedRight(steps: seq<Step>, walked: seq<StepResult>, f: nat, n: nat)
    requires f < n <= |steps| && |walked| == f + 1 && Walked(steps, walked)
    ensures MarksRight(steps, walked, f, n, MarkSkipped(steps, walked, f, n))
  {
    if n == f + 1 {
      NoneMarked(steps, walked, f);
    } else {
      hide Walked, MarksRight, Blocked;
      MarkSkippedRight(steps, walked, f, n - 1);
      MarkOneRight(steps, walked, f, n - 1, MarkSkipped(steps, walked, f, n - 1), MarkSkipped(steps, walked, f, n));
    }
  }

  lemma NoneMarked(steps: seq<Step>, walked: seq<StepResult>, f: nat)
    requires f < |steps| && |walked| == f + 1
    ensures MarksRight(steps, walked, f, f + 1, MarkSkipped(steps, walked, f, f + 1))
  {
    hide Marked;
  }

  lemma MarkOneRight(steps: seq<Step>, walked: seq<StepResult>, f: nat, m: nat, before: seq<StepResult>,
                     after: seq<StepResult>)
    requires f < m < |steps| && |walked| == f + 1 && Walked(steps, walked)
    requires MarksRight(steps, walked, f, m, before)
    requires after == if Marked(steps, walked, f, m) then before + [StepResult(steps[m].id, Skipped, 0)] else before
    ensures MarksRight(steps, walked, f, m + 1, after)
  {
    hide Marked, LaterSkipped, RecordedRight;
    NotYetRecorded(steps, walked, f, m, before);
    SkippedOneMore(steps, f, m, before, after);
    RecordedOneMore(steps, walked, f, m, before, after);
  }

  lemma SkippedOneMore(steps: seq<Step>, f: nat, m: nat, before: seq<StepResult>, after: seq<StepResult>)
    requires f < m < |steps| && f < |before| && LaterSkipped(steps, f, m, before)
    requires after == before || after == before + [StepResult(steps[m].id, Skipped, 0)]
    ensures LaterSkipped(steps, f, m + 1, after)
  {
    hide Between;
    forall i | f < i < |after| ensures after[i].status.Skipped? && Between(steps, f, m + 1, after[i].stepId) {
      BetweenMore(steps, f, m, after[i].stepId);
      assert i < |before| ==> after[i] == before[i];
    }
  }

  lemma RecordedOneMore(steps: seq<Step>, walked: seq<StepResult>, f: nat, m: nat, before: seq<StepResult>,
                        after: seq<StepResult>)
    requires f < m < |steps| && |walked| == f + 1 && UniqueIds(steps)
    requires RecordedRight(steps, walked, f, m, before) && !Recorded(before, steps[m].id)
    requires after == if Marked(steps, walked, f, m) then before + [StepResult(steps[m].id, Skipped, 0)] else before
    ensures RecordedRight(steps, walked, f, m + 1, after)
  {
    hide Marked, Recorded;
    forall k | f < k < m + 1 ensures Recorded(after, steps[k].id) <==> Marked(steps, walked, f, k) {
      RecordedSnoc(before, StepResult(steps[m].id, Skipped, 0), steps[k].id);
    }
  }

  lemma BetweenMore(steps: seq<Step>, f: nat, m: nat, id: string)
    requires f < m < |steps|
    ensures Between(steps, f, m, id) || id == steps[m].id ==> Between(steps, f, m + 1, id)
  {
  }

  lemma RecordedSnoc(results: seq<StepResult>, r: StepResult, id: string)
    ensures Recorded(results + [r], id) <==> Recorded(results, id) || r.stepId == id
  {
    var more := results + [r];
    if i :| 0 <= i < |results| && results[i].stepId == id { assert more[i].stepId == id; }
    assert more[|results|] == r;
  }

  lemma NotYetRecorded(steps: seq<Step>, walked: seq<StepResult>, f: nat, m: nat, before: seq<StepResult>)
    requires f < m < |steps| && |walked| == f + 1 && Walked(steps, walked)
    requires MarksRight(steps, walked, f, m, before)
    ensures !Recorded(before, steps[m].id)
  {
    hide Marked;
    forall i | 0 <= i < |before| ensures before[i].stepId != steps[m].id {
      assert f < i ==> Between(steps, f, m, before[i].stepId);
    }
  }

  /** A step after the failed one is marked exactly when it depends on the failed
      step or on an earlier step that was skipped or marked. */
  lemma MarkedByDependency(steps: seq<Step>, walked: seq<StepResult>, f: nat, m: nat)
    requires f < m < |steps| && |walked| == f + 1 && Walked(steps, walked) && walked[f].status.Failed?
    ensures Marked(steps, walked, f, m) <==>
            || steps[f].id in steps[m].dependsOn
            || exists k :: 0 <= k < m && Marked(steps, walked, f, k) && steps[k].id in steps[m].dependsOn
  {
    MarkSkippedRight(steps, walked, f, m);
    var results := MarkSkipped(steps, walked, f, m);
    if i :| 0 <= i < |results| && results[i].status.Skipped? && results[i].stepId in steps[m].dependsOn {
      if i <= f {
        assert Marked(steps, walked, f, i);
      } else {
        assert Between(steps, f, m, results[i].stepId);
        var k :| f < k < m && steps[k].id == results[i].stepId;
        assert Recorded(results, steps[k].id);
      }
    }
    if k :| 0 <= k < m && Marked(steps, walked, f, k) && steps[k].id in steps[m].dependsOn {
      if k <= f {
        assert results[k] == walked[k];
      } else {
        assert Recorded(results, steps[k].id);
        var i :| 0 <= i < |results| && results[i].stepId == steps[k].id;
        assert forall j :: 0 <= j <= f ==> results[j].stepId == steps[j].id;
      }
    }
  }

  /** A chain of steps, each depending on the next. */
  ghost predicate Chain(steps: seq<Step>, path: seq<nat>) {
    && (forall i :: 0 <= i < |path| ==> path[i] < |steps|)
    && forall i :: 0 <= i < |path| - 1 ==> steps[path[i + 1]].id in steps[path[i]].dependsOn
  }

  /** The failed step, or one skipped before it. */
  ghost predicate Origin(walked: seq<StepResult>, f: nat, m: nat)
    requires |walked| == f + 1
  {
    m == f || (m < f && walked[m].status.Skipped?)
  }

  ghost predicate Leads(steps: seq<Step>, walked: seq<StepResult>, f: nat, path: seq<nat>)
    requires |walked| == f + 1
  {
    |path| >= 2 && Chain(steps, path) && Origin(walked, f, path[|path| - 1])
  }

  /** Each step of the chain is listed after the next one. */
  ghost predicate Back(path: seq<nat>) {
    forall i :: 0 <= i < |path| - 1 ==> path[i + 1] < path[i]
  }

  /** Steps are listed after what they depend on. */
  ghost predicate Ordered(steps: seq<Step>) {
    forall i, j :: 0 <= i < |steps| && 0 <= j < |steps| && steps[j].id in steps[i].dependsOn ==> j < i
  }

  lemma {:induction false} MarkedHasPath(steps: seq<Step>, walked: seq<StepResult>, f: nat, m: nat)
    requires f < m < |steps| && |walked| == f + 1 && Walked(steps, walked) && walked[f].status.Failed?
    requires Marked(steps, walked, f, m)
    ensures exists path :: Leads(steps, walked, f, path) && Back(path) && path[0] == m
  {
    hide Marked;
    MarkedByDependency(steps, walked, f, m);
    if steps[f].id in steps[m].dependsOn {
      StepLeads(steps, walked, f, m, f);
    } else {
      var k :| 0 <= k < m && Marked(steps, walked, f, k) && steps[k].id in steps[m].dependsOn;
      if k <= f {
        assert walked[k].status.Skipped? by { MarkedBefore(steps, walked, f, k); }
        StepLeads(steps, walked, f, m, k);
      } else {
        MarkedHasPath(steps, walked, f, k);
        var path :| Leads(steps, walked, f, path) && Back(path) && path[0] == k;
        LongerLeads(steps, walked, f, m, path);
      }
    }
  }

  lemma MarkedBefore(steps: seq<Step>, walked: seq<StepResult>, f: nat, m: nat)
    requires m <= f < |steps| && |walked| == f + 1 && Marked(steps, walked, f, m)
    ensures walked[m].status.Skipped?
  {
  }

  lemma StepLeads(steps: seq<Step>, walked: seq<StepResult>, f: nat, m: nat, k: nat)
    requires k < m < |steps| && |walked| == f + 1 && steps[k].id in steps[m].dependsOn && Origin(walked, f, k)
    ensures exists path :: Leads(steps, walked, f, path) && Back(path) && path[0] == m
  {
    assert Leads(steps, walked, f, [m, k]) && Back([m, k]);
  }

  lemma LongerLeads(steps: seq<Step>, walked: seq<StepResult>, f: nat, m: nat, path: seq<nat>)
    requires m < |steps| && |walked| == f + 1 && Leads(steps, walked, f, path) && Back(path)
    requires path[0] < m && steps[path[0]].id in steps[m].dependsOn
    ensures exists longer :: Leads(steps, walked, f, longer) && Back(longer) && longer[0] == m
  {
    var longer := [m] + path;
    forall i | 0 <= i < |longer| - 1
      ensures longer[i + 1] < longer[i] && steps[longer[i + 1]].id in steps[longer[i]].dependsOn
    {
      if i > 0 { assert longer[i] == path[i - 1] && longer[i + 1] == path[i - 1 + 1]; }
    }
    assert Leads(steps, walked, f, longer) && Back(longer) && longer[0] == m;
  }

  lemma {:induction false} PathMarks(steps: seq<Step>, b: Behaviour, f: nat, path: seq<nat>)
    requires f < |steps| && UniqueIds(steps) && Outcomes(steps, b, f + 1)[f].status.Failed?
    requires Leads(steps, Outcomes(steps, b, f + 1), f, path) && Back(path)
    ensures path[0] != f && Marked(steps, Outcomes(steps, b, f + 1), f, path[0])
  {
    hide Outcomes, Blocked, MarkSkipped, UniqueIds;
    var walked := Outcomes(steps, b, f + 1);
    if |path| > 2 {
      LeadsTail(steps, walked, f, path);
      PathMarks(steps, b, f, path[1..]);
    }
    assert steps[path[0 + 1]].id in steps[path[0]].dependsOn && path[0 + 1] < path[0];
    MarkSpreads(steps, b, f, path[0], path[1]);
  }

  lemma LeadsTail(steps: seq<Step>, walked: seq<StepResult>, f: nat, path: seq<nat>)
    requires |walked| == f + 1 && |path| > 2 && Leads(steps, walked, f, path) && Back(path)
    ensures Leads(steps, walked, f, path[1..]) && Back(path[1..])
  {
    var tail := path[1..];
    assert tail[|tail| - 1] == path[|path| - 1];
    forall i | 0 <= i < |tail| - 1 ensures steps[tail[i + 1]].id in steps[tail[i]].dependsOn && tail[i + 1] < tail[i] {
      assert tail[i + 1] == path[i + 1 + 1] && tail[i] == path[i + 1];
    }
  }

  /** A dependent of the failed step or of a marked one is marked. */
  lemma MarkSpreads(steps: seq<Step>, b: Behaviour, f: nat, j: nat, m: nat)
    requires f < |steps| && UniqueIds(steps) && Outcomes(steps, b, f + 1)[f].status.Failed?
    requires m < j < |steps| && steps[m].id in steps[j].dependsOn
    requires m == f || Marked(steps, Outcomes(steps, b, f + 1), f, m)
    ensures j != f && Marked(steps, Outcomes(steps, b, f + 1), f, j)
  {
    var walked := Outcomes(steps, b, f + 1);
    if j <= f {
      hide Outcomes, Blocked, MarkSkipped;
      RunsOnlyWhenReady(steps, b, f + 1, j);
    } else {
      hide Outcomes, Marked;
      OutcomesWalked(steps, b, f + 1);
      MarkedByDependency(steps, walked, f, j);
    }
  }

  lemma {:induction false} OutcomesWalked(steps: seq<Step>, b: Behaviour, n: nat)
    requires n <= |steps| && UniqueIds(steps)
    ensures Walked(steps, Outcomes(steps, b, n))
  {
  }

  /** The later steps that a failed run records are exactly those from which a chain
      of dependencies leads back through the list, to the failed step or to a step
      skipped before it. */
  lemma {:induction false} SkipsBackwardDependents(steps: seq<Step>, b: Behaviour, m: nat)
    requires UniqueIds(steps)
    requires Stop(steps, b, |steps|) < m < |steps|
    ensures var f := Stop(steps, b, |steps|);
            Recorded(Run(steps, b).results, steps[m].id)
            <==> exists path :: Leads(steps, Outcomes(steps, b, f + 1), f, path) && Back(path) && path[0] == m
  {
    var f := Stop(steps, b, |steps|);
    var walked := Outcomes(steps, b, f + 1);
    OutcomesWalked(steps, b, f + 1);
    MarkSkippedRight(steps, walked, f, |steps|);
    var marked := MarkSkipped(steps, walked, f, |steps|);
    var todo := Reversed(SucceededSteps(steps, walked));
    forall i | 0 <= i < |marked| ensures RollBack(todo, b, marked)[i].stepId == marked[i].stepId {
      RollBackAt(todo, b, marked, i);
    }
    assert Recorded(RollBack(todo, b, marked), steps[m].id) <==> Recorded(marked, steps[m].id);
    hide Leads, Back;
    if Marked(steps, walked, f, m) {
      MarkedHasPath(steps, walked, f, m);
    }
    if path :| Leads(steps, walked, f, path) && Back(path) && path[0] == m {
      PathMarks(steps, b, f, path);
    }
  }

  /** So when steps are listed after their dependencies they are the transitive
      dependents, directly or indirectly. */
  lemma {:induction false} SkipsTransitiveDependents(steps: seq<Step>, b: Behaviour, m: nat)
    requires UniqueIds(steps) && Ordered(steps)
    requires Stop(steps, b, |steps|) < m < |steps|
    ensures var f := Stop(steps, b, |steps|);
            Recorded(Run(steps, b).results, steps[m].id)
            <==> exists path :: Leads(steps, Outcomes(steps, b, f + 1), f, path) && path[0] == m
  {
    hide Run, Outcomes, Recorded, UniqueIds;
    SkipsBackwardDependents(steps, b, m);
    var f := Stop(steps, b, |steps|);
    if path :| Leads(steps, Outcomes(steps, b, f + 1), f, path) && path[0] == m {
      assert Back(path);
    }
  }

  lemma {:induction false} FirstStepFails(steps: seq<Step>, b: Behaviour)
    requires steps != [] && steps[0].dependsOn == [] && !steps[0].optional
        && forall k: nat :: !b.attempt(steps[0].id, k)
    ensures Stop(steps, b, |steps|) == 0 && Outcomes(steps, b, 1)[0].status.Failed?
  {
    var none := Outcomes(steps, b, 0);
    assert Outcomes(steps, b, 1) == none + [Outcome(steps[0], b, none)];
    assert Stop(steps, b, 0) == 0;
    assert Stop(steps, b, 1) == 0;
    StopIsFirst(steps, b, 1);
  }

  /** A failing step F, and two that depend on it, B by way of C. */
  function EarlyDependent(): seq<Step> {
    [Step("F", false, [], 0, false), Step("B", false, ["C"], 0, false), Step("C", false, ["F"], 0, false)]
  }

  lemma EarlyDependentShape()
    ensures var steps := EarlyDependent();
            && |steps| == 3 && UniqueIds(steps) && steps[0].id == "F" && steps[1].id == "B" && steps[2].id == "C"
            && steps[0].dependsOn == [] && !steps[0].optional
  {
  }

  lemma OnlyChains(path: seq<nat>, walked: seq<StepResult>)
    requires |walked| == 1
    ensures Leads(EarlyDependent(), walked, 0, [1, 2, 0])
    ensures Leads(EarlyDependent(), walked, 0, [2, 0]) && Back([2, 0])
    ensures !(Leads(EarlyDependent(), walked, 0, path) && Back(path) && path[0] == 1)
  {
    var steps := EarlyDependent();
    if Leads(steps, walked, 0, path) && path[0] == 1 {
      assert steps[path[0 + 1]].id in steps[path[0]].dependsOn;
      assert !Back(path) by { assert path[0 + 1] == 2; }
    }
  }

  /** An indirect dependent listed too early is left out: B depends on C, which is
      listed behind it and depends on the failed step. */
  lemma {:induction false} EarlyDependentIsMissed(b: Behaviour)
    requires forall k: nat :: !b.attempt("F", k)
    ensures var steps, results := EarlyDependent(), Run(EarlyDependent(), b).results;
            && Leads(steps, Outcomes(steps, b, 1), 0, [1, 2, 0]) && steps[1].id == "B"
            && Recorded(results, "C") && !Recorded(results, "B")
  {
    hide Run, Outcomes, Stop, Recorded, Back, UniqueIds, EarlyDependent, Chain;
    var steps := EarlyDependent();
    EarlyDependentShape();
    FirstStepFails(steps, b);
    var walked := Outcomes(steps, b, 1);
    SkipsBackwardDependents(steps, b, 1);
    SkipsBackwardDependents(steps, b, 2);
    OnlyChains([2, 0], walked);
    if path :| Leads(steps, walked, 0, path) && Back(path) && path[0] == 1 {
      OnlyChains(path, walked);
    }
  }

  /** The final status of every step that had its turn in a failed run: rolled back
      exactly if it had succeeded and its rollback went through. */
  lemma {:induction false} FinalStatuses(steps: seq<Step>, b: Behaviour)
    requires UniqueIds(steps) && Stop(steps, b, |steps|) < |steps|
    ensures var f := Stop(steps, b, |steps|);
            var walked, results := Outcomes(steps, b, f + 1), Run(steps, b).results;
            && f < |results|
            && (forall k :: 0 <= k <= f ==>
                  && results[k].stepId == steps[k].id
                  && results[k].status == if walked[k].status.Succeeded? && steps[k].hasRollback && b.undo(steps[k].id)
                                          then RolledBack else walked[k].status)
            && (forall i :: f < i < |results| ==> results[i].status.Skipped? && results[i].stepId != steps[f].id)
  {
    hide Reversed, SucceededSteps, RollBack, MarkSkipped, FindResult, Outcomes, Undone, MarksRight, Walked;
    var f := Stop(steps, b, |steps|);
    var walked := Outcomes(steps, b, f + 1);
    OutcomesWalked(steps, b, f + 1);
    MarkSkippedRight(steps, walked, f, |steps|);
    var marked := MarkSkipped(steps, walked, f, |steps|);
    MarkedShape(steps, walked, f, marked);
    var todo := Reversed(SucceededSteps(steps, walked));
    forall i | 0 <= i < |marked|
      ensures RollBack(todo, b, marked)[i].stepId == marked[i].stepId
              && RollBack(todo, b, marked)[i].status == FinalOf(steps, b, walked, marked, f, i)
    {
      RollBackAt(todo, b, marked, i);
      FinalStatus(steps, b, walked, marked, f, i);
    }
  }

  ghost function FinalOf(steps: seq<Step>, b: Behaviour, walked: seq<StepResult>, marked: seq<StepResult>, f: nat,
                         i: nat): Status
    requires f < |steps| && |walked| == f + 1 && i < |marked|
  {
    if i <= f && walked[i].status.Succeeded? && steps[i].hasRollback && b.undo(steps[i].id) then RolledBack
    else marked[i].status
  }

  lemma MarkedShape(steps: seq<Step>, walked: seq<StepResult>, f: nat, marked: seq<StepResult>)
    requires f < |steps| && |walked| == f + 1 && Walked(steps, walked) && MarksRight(steps, walked, f, |steps|, marked)
    ensures f < |marked| && forall k :: 0 <= k <= f ==> marked[k] == walked[k] && marked[k].stepId == steps[k].id
    ensures forall i :: f < i < |marked| ==> marked[i].status.Skipped? && marked[i].stepId != steps[f].id
  {
    hide Marked, Recorded;
    forall i | f < i < |marked| ensures marked[i].stepId != steps[f].id {
      assert Between(steps, f, |steps|, marked[i].stepId);
    }
  }

  lemma {:induction false} FinalStatus(steps: seq<Step>, b: Behaviour, walked: seq<StepResult>,
                                       marked: seq<StepResult>, f: nat, i: nat)
    requires f < |steps| && |walked| == f + 1 && Walked(steps, walked) && MarksRight(steps, walked, f, |steps|, marked)
    requires i < |marked|
    ensures (FindResult(marked, marked[i].stepId) == i
             && exists step ::
                  && step in Reversed(SucceededSteps(steps, walked)) && step.id == marked[i].stepId
                  && step.hasRollback && b.undo(step.id))
            <==> i <= f && walked[i].status.Succeeded? && steps[i].hasRollback && b.undo(steps[i].id)
  {
    hide Marked, Recorded, Reversed, SucceededSteps;
    forall step ensures step in Reversed(SucceededSteps(steps, walked)) <==>
                        exists k :: 0 <= k <= f && steps[k] == step && walked[k].status.Succeeded? {
      ReversedMember(SucceededSteps(steps, walked), step);
      SucceededStepsMember(steps, walked, step);
    }
    FoundFirst(steps, walked, marked, f, i);
  }

  /** A step that had its turn is found at its place, and a marked one is another. */
  lemma {:induction false} FoundFirst(steps: seq<Step>, walked: seq<StepResult>, marked: seq<StepResult>, f: nat,
                                      i: nat)
    requires f < |steps| && |walked| == f + 1 && Walked(steps, walked) && MarksRight(steps, walked, f, |steps|, marked)
    requires i < |marked|
    ensures if i <= f then FindResult(marked, marked[i].stepId) == i
            else forall k :: 0 <= k <= f ==> steps[k].id != marked[i].stepId
  {
    hide Marked, Recorded;
    assert f < i ==> Between(steps, f, |steps|, marked[i].stepId);
    assert forall k :: 0 <= k <= f ==> marked[k].stepId == steps[k].id;
  }

  lemma {:induction false} AllRequiredQuantified(steps: seq<Step>, results: seq<StepResult>)
    requires |results| <= |steps|
    ensures AllRequiredSucceeded(steps, results) <==> forall k :: 0 <= k < |results| && !steps[k].optional ==>
        results[k].status.Succeeded?
  {
    if results != [] {
      var last := |results| - 1;
      AllRequiredQuantified(steps, results[..last]);
      assert forall k :: 0 <= k < last ==> results[..last][k] == results[k];
    }
  }

  predicate EndsSucceeded(results: seq<StepResult>, id: string) {
    exists i :: 0 <= i < |results| && results[i].stepId == id && results[i].status.Succeeded?
  }

  lemma EndsByPosition(steps: seq<Step>, results: seq<StepResult>, k: nat)
    requires Walked(steps, results) && k < |results|
    ensures EndsSucceeded(results, steps[k].id) <==> results[k].status.Succeeded?
  {
  }

  /** The run succeeds exactly when every required step ends as succeeded. */
  lemma SuccessExactly(steps: seq<Step>, b: Behaviour)
    requires UniqueIds(steps)
    ensures Run(steps, b).success <==>
            forall k :: 0 <= k < |steps| && !steps[k].optional ==> EndsSucceeded(Run(steps, b).results, steps[k].id)
  {
    hide Reversed, SucceededSteps, RollBack, MarkSkipped, Outcomes, Undone, Walked, AllRequiredSucceeded, UniqueIds;
    var f, results := Stop(steps, b, |steps|), Run(steps, b).results;
    if f == |steps| {
      OutcomesWalked(steps, b, f);
      AllRequiredQuantified(steps, results);
      forall k | 0 <= k < |steps| ensures EndsSucceeded(results, steps[k].id) <==> results[k].status.Succeeded? {
        EndsByPosition(steps, results, k);
      }
    } else {
      FinalStatuses(steps, b);
      OutcomesWalked(steps, b, f + 1);
      NotTwice(steps, f, results);
      StoppedFailed(steps, b, f);
    }
  }

  lemma StoppedFailed(steps: seq<Step>, b: Behaviour, f: nat)
    requires f == Stop(steps, b, |steps|) < |steps|
    ensures Outcomes(steps, b, f + 1)[f].status.Failed? && !steps[f].optional
  {
  }

  lemma NotTwice(steps: seq<Step>, f: nat, results: seq<StepResult>)
    requires UniqueIds(steps) && f < |results| && f < |steps|
    requires forall k :: 0 <= k <= f ==> results[k].stepId == steps[k].id
    requires forall i :: f < i < |results| ==> results[i].stepId != steps[f].id
    ensures EndsSucceeded(results, steps[f].id) <==> results[f].status.Succeeded?
  {
  }

  /** The succeeded steps with a rollback handler, latest first. */
  ghost function RollbackOrder(steps: seq<Step>, results: seq<StepResult>): seq<nat>
    requires |results| <= |steps|
  {
    if results == [] then []
    else
      var last := |results| - 1;
      (if results[last].status.Succeeded? && steps[last].hasRollback then [last as nat] else [])
          + RollbackOrder(steps, results[..last])
  }

  lemma {:induction false} RollbackOrderDescends(steps: seq<Step>, results: seq<StepResult>)
    requires |results| <= |steps|
    ensures var order := RollbackOrder(steps, results);
            && (forall i :: 0 <= i < |order| ==> order[i] < |results|)
            && (forall i, j :: 0 <= i < j < |order| ==> order[i] > order[j])
            && (forall k: nat :: k in order <==> k < |results| && results[k].status.Succeeded? && steps[k].hasRollback)
  {
    if results != [] {
      var last := |results| - 1;
      RollbackOrderDescends(steps, results[..last]);
      assert forall k :: 0 <= k < last ==> results[..last][k] == results[k];
    }
  }

  ghost function IdsAt(steps: seq<Step>, order: seq<nat>): (ids: seq<string>)
    requires forall i :: 0 <= i < |order| ==> order[i] < |steps|
    ensures |ids| == |order| && forall i :: 0 <= i < |order| ==> ids[i] == steps[order[i]].id
  {
    seq(|order|, i requires 0 <= i < |order| => steps[order[i]].id)
  }

  lemma {:induction false} UndoneSnoc(todo: seq<Step>, step: Step)
    ensures Undone(Reversed(todo + [step])) == (if step.hasRollback then [step.id] else []) + Undone(Reversed(todo))
  {
    assert (todo + [step])[..|todo|] == todo;
    assert ([step] + Reversed(todo))[1..] == Reversed(todo);
  }

  lemma IdsAtCons(steps: seq<Step>, k: nat, order: seq<nat>)
    requires k < |steps| && forall i :: 0 <= i < |order| ==> order[i] < |steps|
    ensures (forall i :: 0 <= i < |[k] + order| ==> ([k] + order)[i] < |steps|)
            && IdsAt(steps, [k] + order) == [steps[k].id] + IdsAt(steps, order)
  {
  }

  lemma {:induction false} UndoneInOrder(steps: seq<Step>, results: seq<StepResult>)
    requires |results| <= |steps|
    ensures var order := RollbackOrder(steps, results);
            && (forall i :: 0 <= i < |order| ==> order[i] < |steps|)
            && Undone(Reversed(SucceededSteps(steps, results))) == IdsAt(steps, order)
  {
    if results == [] {
    } else {
      hide Undone, Reversed, IdsAt, SucceededSteps, RollbackOrder;
      var last := |results| - 1;
      UndoneInOrder(steps, results[..last]);
      OneMoreToUndo(steps, results);
      UndoneSnoc(SucceededSteps(steps, results[..last]), steps[last]);
      IdsAtCons(steps, last, RollbackOrder(steps, results[..last]));
    }
  }

  lemma {:induction false} OneMoreToUndo(steps: seq<Step>, results: seq<StepResult>)
    requires 0 < |results| <= |steps|
    ensures var last := |results| - 1;
            var done, order := SucceededSteps(steps, results[..last]), RollbackOrder(steps, results[..last]);
            && SucceededSteps(steps, results) == (if results[last].status.Succeeded?
                                                  then done + [steps[last]] else done)
            && RollbackOrder(steps, results) == if results[last].status.Succeeded?
              && steps[last].hasRollback then [last] + order else order
  {
  }

  /** A failed run calls the rollbacks of exactly the succeeded steps that have one,
      in reverse order of execution; a run without a required failure calls none. */
  lemma {:induction false} RollsBackInReverse(steps: seq<Step>, b: Behaviour)
    ensures var f := Stop(steps, b, |steps|);
            if f == |steps| then Run(steps, b).undone == []
            else var walked := Outcomes(steps, b, f + 1);
                 var order := RollbackOrder(steps, walked);
                 && (forall i, j :: 0 <= i < j < |order| ==> order[i] > order[j])
                 && (forall k: nat :: k in order <==> k <= f && walked[k].status.Succeeded? && steps[k].hasRollback)
                 && (forall i :: 0 <= i < |order| ==> order[i] < |steps|)
                 && Run(steps, b).undone == IdsAt(steps, order)
  {
    hide Outcomes, SucceededSteps, Reversed, Undone, RollBack, MarkSkipped, RollbackOrder;
    var f := Stop(steps, b, |steps|);
    if f < |steps| {
      RollbackOrderDescends(steps, Outcomes(steps, b, f + 1));
      UndoneInOrder(steps, Outcomes(steps, b, f + 1));
    }
  }

  // ------------------------------------------------------------- the whole run

  /** A step that was executed with success, rolled back since or not. */
  ghost predicate Had(results: seq<StepResult>, j: nat) {
    j < |results| && (results[j].status.Succeeded? || results[j].status.RolledBack?)
  }

  /** Every dependency of a step is a step before it that was executed with success. */
  ghost predicate Unblocked(steps: seq<Step>, results: seq<StepResult>, j: nat)
    requires j < |steps|
  {
    forall dep :: dep in steps[j].dependsOn ==> exists i :: 0 <= i < j && steps[i].id == dep && Had(results, i)
  }

  /** What became of a step, as long as no required one had failed. */
  ghost predicate TurnTaken(steps: seq<Step>, b: Behaviour, results: seq<StepResult>, j: nat)
    requires j < |steps| && j < |results|
  {
    && results[j].stepId == steps[j].id
    && (results[j].status.Skipped? <==> !Unblocked(steps, results, j))
    && (Had(results, j) <==>
          Unblocked(steps, results, j) && exists a: nat :: a <= steps[j].maxRetries && b.attempt(steps[j].id, a))
  }

  ghost predicate FailedRequired(steps: seq<Step>, results: seq<StepResult>, k: nat) {
    k < |steps| && k < |results| && results[k].stepId == steps[k].id && results[k].status.Failed? && !steps[k].optional
  }

  /** A step that is passed over has had no attempt. */
  lemma {:induction false} PassedOver(steps: seq<Step>, b: Behaviour, n: nat, j: nat)
    requires j < n <= |steps|
    ensures var r := Outcomes(steps, b, n)[j]; r.status.Skipped? ==> r.attempts == 0
  {
    hide Ready, Outcomes;
    OutcomeAt(steps, b, n, j);
  }

  lemma {:induction false} WalkedTells(steps: seq<Step>, b: Behaviour, n: nat, j: nat)
    requires UniqueIds(steps) && j < n <= |steps|
    ensures TurnTaken(steps, b, Outcomes(steps, b, n), j)
  {
    hide Ready, Outcomes, UniqueIds;
    OutcomeAt(steps, b, n, j);
    RunsOnlyWhenReady(steps, b, n, j);
    AttemptsAreBounded(steps[j], b);
    hide Ran;
    var results := Outcomes(steps, b, n);
    assert Unblocked(steps, results, j) <==> !results[j].status.Skipped?;
  }

  lemma {:induction false} NoneBreaks(steps: seq<Step>, b: Behaviour, n: nat, k: nat)
    requires n <= |steps| && k < n && k < Stop(steps, b, |steps|)
    ensures !FailedRequired(steps, Outcomes(steps, b, n), k)
  {
    hide Outcome;
    OutcomesPrefix(steps, b, k + 1, n);
    assert Outcomes(steps, b, n)[k] == Outcomes(steps, b, n)[..k + 1][k];
  }

  /** Without a failed required step, every step had its turn and no rollback is called. */
  lemma WalksThrough(steps: seq<Step>, b: Behaviour)
    requires UniqueIds(steps) && forall k :: !FailedRequired(steps, Run(steps, b).results, k)
    ensures var r := Run(steps, b);
            && |r.results| == |steps| && r.undone == []
            && forall j :: 0 <= j < |steps| ==> TurnTaken(steps, b, r.results, j) && !r.results[j].status.RolledBack?
  {
    hide Outcomes, MarkSkipped, RollBack, Reversed, SucceededSteps, AllRequiredSucceeded, UniqueIds, TurnTaken, Undone;
    StopFails(steps, b);
    forall j | 0 <= j < |steps| ensures TurnTaken(steps, b, Run(steps, b).results, j) {
      WalkedTells(steps, b, |steps|, j);
    }
  }

  lemma {:induction false} StopFails(steps: seq<Step>, b: Behaviour)
    requires UniqueIds(steps)
    ensures var f := Stop(steps, b, |steps|); f < |steps| ==> FailedRequired(steps, Run(steps, b).results, f)
  {
    hide Outcomes, MarkSkipped, RollBack, Reversed, SucceededSteps, AllRequiredSucceeded, UniqueIds, Undone;
    var f := Stop(steps, b, |steps|);
    if f < |steps| {
      FinalStatuses(steps, b);
      StoppedFailed(steps, b, f);
    }
  }

  /** A failed required step is where the run breaks off: the steps up to it had their turn,
      those that succeeded are rolled back where that works, and none behind it was
      executed. There is one such step at most. */
  lemma BreaksOff(steps: seq<Step>, b: Behaviour, k: nat)
    requires UniqueIds(steps) && FailedRequired(steps, Run(steps, b).results, k)
    ensures var results := Run(steps, b).results;
            && (forall j :: 0 <= j <= k ==> TurnTaken(steps, b, results, j))
            && (forall j :: 0 <= j <= k && Had(results, j) ==>
                  (results[j].status.RolledBack? <==> steps[j].hasRollback && b.undo(steps[j].id)))
            && (forall i :: k < i < |results| ==> results[i].status.Skipped?)
            && (forall j :: FailedRequired(steps, results, j) ==> j == k)
  {
    hide Outcomes, MarkSkipped, RollBack, Reversed, SucceededSteps, AllRequiredSucceeded, UniqueIds, TurnTaken, Undone;
    var f, results := Stop(steps, b, |steps|), Run(steps, b).results;
    if f == |steps| {
      NoneBreaks(steps, b, |steps|, k);
    } else {
      FinalStatuses(steps, b);
      var walked := Outcomes(steps, b, f + 1);
      forall j | FailedRequired(steps, results, j) ensures j == f {
        if j < f { NoneBreaks(steps, b, f + 1, j); }
      }
      forall j | 0 <= j <= f ensures TurnTaken(steps, b, results, j) {
        WalkedTells(steps, b, f + 1, j);
        SameTurns(steps, b, walked, results, f, j);
      }
    }
  }

  lemma SameTurns(steps: seq<Step>, b: Behaviour, walked: seq<StepResult>, results: seq<StepResult>, f: nat, j: nat)
    requires j <= f < |steps| && f < |walked| && f < |results| && TurnTaken(steps, b, walked, j)
    requires forall i :: 0 <= i <= f ==> results[i].stepId == walked[i].stepId && !walked[i].status.RolledBack?
    requires forall i :: 0 <= i <= f ==>
               results[i].status == walked[i].status || (walked[i].status.Succeeded? && results[i].status.RolledBack?)
    ensures TurnTaken(steps, b, results, j)
  {
    assert forall i :: 0 <= i <= f ==> (Had(results, i) <==> Had(walked, i));
  }

  /** No rollback is called but after a failed required step. */
  lemma RollsBackAfterFailure(steps: seq<Step>, b: Behaviour)
    requires UniqueIds(steps) && Run(steps, b).undone != []
    ensures exists k :: FailedRequired(steps, Run(steps, b).results, k)
  {
    hide Run, FailedRequired;
    if forall k :: !FailedRequired(steps, Run(steps, b).results, k) { WalksThrough(steps, b); }
  }

  /** The rollbacks called are those of the steps that had succeeded and have one, latest
      first. */
  lemma CallsInReverse(steps: seq<Step>, b: Behaviour, k: nat) returns (order: seq<nat>)
    requires UniqueIds(steps) && FailedRequired(steps, Run(steps, b).results, k)
    ensures forall i, j :: 0 <= i < j < |order| ==> order[i] > order[j]
    ensures forall j: nat :: j in order <==> j <= k && Had(Run(steps, b).results, j) && steps[j].hasRollback
    ensures |Run(steps, b).undone| == |order|
    ensures forall i :: 0 <= i < |order| ==> order[i] < |steps| && Run(steps, b).undone[i] == steps[order[i]].id
  {
    hide Outcomes, MarkSkipped, RollBack, Reversed, SucceededSteps, AllRequiredSucceeded, UniqueIds;
    hide Undone, RollbackOrder;
    var f := Stop(steps, b, |steps|);
    if f == |steps| { NoneBreaks(steps, b, |steps|, k); }
    BreaksOff(steps, b, k);
    FinalStatuses(steps, b);
    StopFails(steps, b);
    RollsBackInReverse(steps, b);
    order := RollbackOrder(steps, Outcomes(steps, b, f + 1));
  }
}
