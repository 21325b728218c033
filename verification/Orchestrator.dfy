/**
 Chain execution of internal/orchestration/orchestrator.go: steps run in list order, each
 only when the recorded results of its dependencies are free of errors; a required step
 that cannot run or fails ends the chain. The executor is a parameter: `fails(k)` says
 whether running step `k` returns an error.
 */
module Orchestrator {

  datatype Step = Step(id: string, dependsOn: seq<string>, optional: bool)
  datatype Status = Pending | Running | Completed | Failed | Canceled
  datatype StepResult = StepResult(stepId: string, failed: bool)
  datatype ChainResult =
    | AlreadyExecuted
    | Finished(success: bool, stepResults: seq<StepResult>)

  predicate DistinctIds(steps: seq<Step>) {
    forall i, j :: 0 <= i < j < |steps| ==> steps[i].id != steps[j].id
  }

  /** `areDependenciesMet`: `results` maps the id of a step that ran to whether it failed. */
  predicate DependenciesMet(step: Step, results: map<string, bool>) {
    forall d :: d in step.dependsOn ==> d in results && !results[d]
  }

  // ----- The specification of a run

  ghost predicate InRange(steps: seq<Step>, ran: seq<nat>) {
    forall i :: 0 <= i < |ran| ==> ran[i] < |steps|
  }

  /** The results map after the steps `ran`; a later result replaces an earlier one with the same id. */
  ghost function Results(steps: seq<Step>, fails: int -> bool, ran: seq<nat>): map<string, bool>
    requires InRange(steps, ran)
  {
    if ran == [] then map[]
    else
      var k := ran[|ran| - 1];
      Results(steps, fails, ran[..|ran| - 1])[steps[k].id := fails(k)]
  }

  /** The steps that run among the first `n`, if none of them ends the chain. */
  ghost function RanSteps(steps: seq<Step>, fails: int -> bool, n: nat): (ran: seq<nat>)
    requires n <= |steps|
    ensures forall i :: 0 <= i < |ran| ==> ran[i] < n
  {
    if n == 0 then []
    else
      var before := RanSteps(steps, fails, n - 1);
      if DependenciesMet(steps[n - 1], Results(steps, fails, before)) then before + [n - 1] else before
  }

  ghost predicate Runs(steps: seq<Step>, fails: int -> bool, k: nat)
    requires k < |steps|
  {
    DependenciesMet(steps[k], Results(steps, fails, RanSteps(steps, fails, k)))
  }

  /** Step `k` ends the chain: it is required, and it cannot run or fails. */
  ghost predicate Ends(steps: seq<Step>, fails: int -> bool, k: nat)
    requires k < |steps|
  {
    !steps[k].optional && (!Runs(steps, fails, k) || fails(k))
  }

  ghost predicate NoneEnds(steps: seq<Step>, fails: int -> bool, n: nat)
    requires n <= |steps|
  {
    forall k :: 0 <= k < n ==> !Ends(steps, fails, k)
  }

  /** How many steps are considered, from step `k` on: all, or up to and including the first that ends the chain. */
  ghost function Considered(steps: seq<Step>, fails: int -> bool, k: nat): (n: nat)
    requires k <= |steps|
    ensures k <= n <= |steps|
    decreases |steps| - k
  {
    if k == |steps| then k
    else if Ends(steps, fails, k) then k + 1
    else Considered(steps, fails, k + 1)
  }

  /** The steps that run, in order. */
  ghost function Executed(steps: seq<Step>, fails: int -> bool): seq<nat> {
    RanSteps(steps, fails, Considered(steps, fails, 0))
  }

  ghost predicate Succeeds(steps: seq<Step>, fails: int -> bool) {
    NoneEnds(steps, fails, |steps|)
  }

  // ----- The chain object

  function FirstId(steps: seq<Step>): string {
    if steps == [] then "" else steps[0].id
  }

  /** The reported results of the steps `ran`: each is labelled with the id of the chain's first step. */
  ghost predicate Reports(rs: seq<StepResult>, steps: seq<Step>, fails: int -> bool, ran: seq<nat>) {
    |rs| == |ran| && forall i :: 0 <= i < |rs| ==> rs[i] == StepResult(FirstId(steps), fails(ran[i]))
  }

  class Chain {
    var steps: seq<Step>
    var results: seq<StepResult>
    var status: Status

    constructor ()
      ensures steps == [] && results == [] && status == Pending
    {
      steps, results, status := [], [], Pending;
    }

    method AddStep(step: Step)
      modifies this`steps
      ensures steps == old(steps) + [step]
    {
      steps := steps + [step];
    }

    /** Runs the chain once; every result carries the id of the chain's first step. */
    method Execute(fails: int -> bool) returns (r: ChainResult)
      modifies this`results, this`status
      ensures old(status) != Pending ==> r == AlreadyExecuted && unchanged(this)
      ensures old(status) == Pending ==>
        && r.Finished?
        && (r.success <==> Succeeds(steps, fails))
        && Reports(r.stepResults, steps, fails, Executed(steps, fails))
        && (forall i :: 0 <= i < |r.stepResults| && steps != [] ==> r.stepResults[i].stepId == steps[0].id)
        && results == old(results) + r.stepResults
        && status == (if r.success then Completed else Failed)
    {
      if status != Pending {
        return AlreadyExecuted;
      }
      status := Running;
      var stepResults, success;
      stepResults, success := RunSteps(steps, fails);
      results := results + stepResults;
      status := if success then Completed else Failed;
      r := Finished(success, stepResults);
    }
  }

  lemma NextStep(steps: seq<Step>, fails: int -> bool, k: nat)
    requires k < |steps|
    ensures var ran, next := RanSteps(steps, fails, k), RanSteps(steps, fails, k + 1);
      if Runs(steps, fails, k)
      then next == ran + [k] && Results(steps, fails, next) == Results(steps, fails, ran)[steps[k].id := fails(k)]
      else next == ran
  {
  }

  /** What holds before step `k` is considered. */
  ghost predicate Progress(
    steps: seq<Step>, fails: int -> bool, k: nat, recorded: map<string, bool>, rs: seq<StepResult>)
  {
    && k <= |steps|
    && recorded == Results(steps, fails, RanSteps(steps, fails, k))
    && Reports(rs, steps, fails, RanSteps(steps, fails, k))
    && NoneEnds(steps, fails, k)
  }

  lemma ProgressStart(steps: seq<Step>, fails: int -> bool)
    ensures Progress(steps, fails, 0, map[], [])
  {
  }

  /** Considering one step: it runs or is skipped, and then ends the chain or not. */
  lemma ProgressStep(
    steps: seq<Step>, fails: int -> bool, k: nat, recorded: map<string, bool>, rs: seq<StepResult>,
    recorded': map<string, bool>, rs': seq<StepResult>)
    requires k < |steps| && Progress(steps, fails, k, recorded, rs)
    requires recorded' == if DependenciesMet(steps[k], recorded) then recorded[steps[k].id := fails(k)] else recorded
    requires rs' == if DependenciesMet(steps[k], recorded) then rs + [StepResult(FirstId(steps), fails(k))] else rs
    ensures Ends(steps, fails, k) <==> (!DependenciesMet(steps[k], recorded) || fails(k)) && !steps[k].optional
    ensures Reports(rs', steps, fails, RanSteps(steps, fails, k + 1))
    ensures !Ends(steps, fails, k) ==> Progress(steps, fails, k + 1, recorded', rs')
  {
  }

  /** The loop over the steps. */
  method RunSteps(steps: seq<Step>, fails: int -> bool) returns (stepResults: seq<StepResult>, success: bool)
    ensures success <==> Succeeds(steps, fails)
    ensures Reports(stepResults, steps, fails, Executed(steps, fails))
  {
    hide Runs, Ends, RanSteps, Results, Reports, DependenciesMet;
    stepResults, success := [], true;
    var recorded: map<string, bool> := map[];
    ProgressStart(steps, fails);
    var k := 0;
    while k < |steps|
      invariant success && Progress(steps, fails, k, recorded, stepResults)
      invariant Considered(steps, fails, k) == Considered(steps, fails, 0)
    {
      var step := steps[k];
      ghost var recorded0, stepResults0 := recorded, stepResults;
      var met := DependenciesMet(step, recorded);
      if met {
        stepResults := stepResults + [StepResult(FirstId(steps), fails(k))];
        recorded := recorded[step.id := fails(k)];
      }
      ProgressStep(steps, fails, k, recorded0, stepResults0, recorded, stepResults);
      if (!met || fails(k)) && !step.optional {
        return stepResults, false;
      }
      k := k + 1;
    }
  }

  // ----- What runs

  /**
   Step `j` satisfies dependency `d` of step `k`: it comes earlier, has that id, and ran without
   error; and no step in between with the same id ran, whose result would have replaced it.
   */
  ghost predicate SatisfiedBy(steps: seq<Step>, fails: int -> bool, n: nat, k: nat, d: string, j: nat)
    requires k < n <= |steps|
  {
    && j < k && steps[j].id == d && !fails(j) && j in RanSteps(steps, fails, n)
    && forall i :: j < i < k && steps[i].id == d ==> i !in RanSteps(steps, fails, n)
  }

  ghost predicate Satisfied(steps: seq<Step>, fails: int -> bool, n: nat, k: nat, d: string)
    requires k < n <= |steps|
  {
    exists j: nat :: SatisfiedBy(steps, fails, n, k, d, j)
  }

  ghost predicate AllSatisfied(steps: seq<Step>, fails: int -> bool, n: nat, k: nat)
    requires k < n <= |steps|
  {
    forall d :: d in steps[k].dependsOn ==> Satisfied(steps, fails, n, k, d)
  }

  /** The results map, when step `k` is considered, has an entry for `d` without an error. */
  ghost predicate Met(steps: seq<Step>, fails: int -> bool, k: nat, d: string)
    requires k < |steps|
  {
    var results := Results(steps, fails, RanSteps(steps, fails, k));
    d in results && !results[d]
  }

  /** Step `j` is the latest of the first `n` steps with id `d` that ran. */
  ghost predicate LatestRun(steps: seq<Step>, fails: int -> bool, n: nat, d: string, j: nat)
    requires n <= |steps|
  {
    && j < n && steps[j].id == d && j in RanSteps(steps, fails, n)
    && forall i :: j < i < n && steps[i].id == d ==> i !in RanSteps(steps, fails, n)
  }

  ghost predicate HasRun(steps: seq<Step>, fails: int -> bool, n: nat, d: string)
    requires n <= |steps|
  {
    exists j: nat :: LatestRun(steps, fails, n, d, j)
  }

  /** The results map holds, for each id, the result of the latest step with that id that ran. */
  lemma {:induction false} ResultsMeaning(steps: seq<Step>, fails: int -> bool, n: nat, d: string, j: nat)
    requires n <= |steps|
    ensures var results := Results(steps, fails, RanSteps(steps, fails, n));
      && (d in results <==> HasRun(steps, fails, n, d))
      && (LatestRun(steps, fails, n, d, j) ==> d in results && results[d] == fails(j))
  {
    if n > 0 {
      ResultsMeaning(steps, fails, n - 1, d, j);
      ResultsStep(steps, fails, n, d);
      HasRunStep(steps, fails, n, d);
      hide RanSteps, Results, Runs, LatestRun, HasRun;
      if Runs(steps, fails, n - 1) && steps[n - 1].id == d {
        LatestRunNew(steps, fails, n, d);
      } else {
        LatestRunKept(steps, fails, n, d, j);
      }
    }
  }

  lemma HasRunStep(steps: seq<Step>, fails: int -> bool, n: nat, d: string)
    requires 0 < n <= |steps|
    ensures HasRun(steps, fails, n, d) <==>
      (Runs(steps, fails, n - 1) && steps[n - 1].id == d) || HasRun(steps, fails, n - 1, d)
  {
    hide RanSteps, Results, Runs, LatestRun;
    var k := n - 1;
    if Runs(steps, fails, k) && steps[k].id == d {
      LatestRunNew(steps, fails, n, d);
    } else {
      if j: nat :| LatestRun(steps, fails, n, d, j) {
        LatestRunKept(steps, fails, n, d, j);
      }
      if j: nat :| LatestRun(steps, fails, k, d, j) {
        LatestRunKept(steps, fails, n, d, j);
      }
    }
  }

  lemma ResultsStep(steps: seq<Step>, fails: int -> bool, n: nat, d: string)
    requires 0 < n <= |steps|
    ensures var before, after :=
        Results(steps, fails, RanSteps(steps, fails, n - 1)), Results(steps, fails, RanSteps(steps, fails, n));
      if Runs(steps, fails, n - 1) && steps[n - 1].id == d then d in after && after[d] == fails(n - 1)
      else (d in after <==> d in before) && (d in before ==> after[d] == before[d])
  {
    NextStep(steps, fails, n - 1);
    hide RanSteps, Results, Runs;
  }

  lemma LatestRunNew(steps: seq<Step>, fails: int -> bool, n: nat, d: string)
    requires 0 < n <= |steps| && Runs(steps, fails, n - 1) && steps[n - 1].id == d
    ensures LatestRun(steps, fails, n, d, n - 1)
    ensures forall j: nat :: LatestRun(steps, fails, n, d, j) ==> j == n - 1
  {
    NextStep(steps, fails, n - 1);
    hide RanSteps, Results, Runs;
  }

  lemma LatestRunKept(steps: seq<Step>, fails: int -> bool, n: nat, d: string, j: nat)
    requires 0 < n <= |steps| && !(Runs(steps, fails, n - 1) && steps[n - 1].id == d)
    ensures LatestRun(steps, fails, n, d, j) <==> LatestRun(steps, fails, n - 1, d, j)
  {
    var ran, next := RanSteps(steps, fails, n - 1), RanSteps(steps, fails, n);
    NextStep(steps, fails, n - 1);
    hide RanSteps, Results, Runs;
    assert forall i: nat :: i < n - 1 ==> (i in next <==> i in ran);
    assert steps[n - 1].id == d ==> n - 1 !in next;
  }

  lemma {:induction false} RanStepsPrefix(steps: seq<Step>, fails: int -> bool, m: nat, n: nat, k: nat)
    requires m <= n <= |steps| && k < m
    ensures k in RanSteps(steps, fails, m) <==> k in RanSteps(steps, fails, n)
  {
    if m < n {
      RanStepsPrefix(steps, fails, m, n - 1, k);
      NextStep(steps, fails, n - 1);
      hide RanSteps, Results, Runs;
    }
  }

  lemma SatisfiedIsLatest(steps: seq<Step>, fails: int -> bool, n: nat, k: nat, d: string, j: nat)
    requires k < n <= |steps|
    ensures SatisfiedBy(steps, fails, n, k, d, j) <==> LatestRun(steps, fails, k, d, j) && !fails(j)
  {
    hide RanSteps;
    forall i: nat | i < k
      ensures i in RanSteps(steps, fails, k) <==> i in RanSteps(steps, fails, n)
    {
      RanStepsPrefix(steps, fails, k, n, i);
    }
  }

  lemma MetIffSatisfied(steps: seq<Step>, fails: int -> bool, n: nat, k: nat, d: string)
    requires k < n <= |steps|
    ensures Met(steps, fails, k, d) <==> Satisfied(steps, fails, n, k, d)
  {
    hide RanSteps, Results, LatestRun, SatisfiedBy;
    ResultsMeaning(steps, fails, k, d, 0);
    if Met(steps, fails, k, d) {
      var j: nat :| LatestRun(steps, fails, k, d, j);
      ResultsMeaning(steps, fails, k, d, j);
      SatisfiedIsLatest(steps, fails, n, k, d, j);
    }
    if j: nat :| SatisfiedBy(steps, fails, n, k, d, j) {
      SatisfiedIsLatest(steps, fails, n, k, d, j);
      ResultsMeaning(steps, fails, k, d, j);
    }
  }

  /**
   The steps that run are exactly those each of whose dependencies has a result without error from
   an earlier step of the same run, the latest one with that id. With distinct ids that is: all
   its dependencies ran earlier without error.
   */
  lemma RunsIffSatisfied(steps: seq<Step>, fails: int -> bool, n: nat, k: nat)
    requires k < n <= |steps|
    ensures k in RanSteps(steps, fails, n) <==> Runs(steps, fails, k)
    ensures Runs(steps, fails, k) <==> AllSatisfied(steps, fails, n, k)
  {
    RanIffRuns(steps, fails, n, k);
    forall d | d in steps[k].dependsOn
      ensures Met(steps, fails, k, d) <==> Satisfied(steps, fails, n, k, d)
    {
      MetIffSatisfied(steps, fails, n, k, d);
    }
    assert Runs(steps, fails, k) <==> forall d :: d in steps[k].dependsOn ==> Met(steps, fails, k, d);
  }

  lemma RanIffRuns(steps: seq<Step>, fails: int -> bool, n: nat, k: nat)
    requires k < n <= |steps|
    ensures k in RanSteps(steps, fails, n) <==> Runs(steps, fails, k)
  {
  }

  /** Steps run in the order of the list, each at most once. */
  lemma {:induction false} RanInOrder(steps: seq<Step>, fails: int -> bool, n: nat, i: nat, j: nat)
    requires n <= |steps| && i < j < |RanSteps(steps, fails, n)|
    ensures RanSteps(steps, fails, n)[i] < RanSteps(steps, fails, n)[j]
  {
    NextStep(steps, fails, n - 1);
    if j < |RanSteps(steps, fails, n - 1)| {
      RanInOrder(steps, fails, n - 1, i, j);
    }
  }

  lemma {:induction false} EndsAtLastConsidered(steps: seq<Step>, fails: int -> bool, k: nat)
    requires k <= |steps| && NoneEnds(steps, fails, k)
    ensures var n := Considered(steps, fails, k);
      if Succeeds(steps, fails) then n == |steps| else n > 0 && Ends(steps, fails, n - 1)
    decreases |steps| - k
  {
    if k < |steps| && !Ends(steps, fails, k) {
      assert NoneEnds(steps, fails, k + 1);
      EndsAtLastConsidered(steps, fails, k + 1);
    }
  }

  lemma ExecutedIffRuns(steps: seq<Step>, fails: int -> bool, k: nat)
    requires k < |steps| && k < Considered(steps, fails, 0)
    ensures k in Executed(steps, fails) <==> Runs(steps, fails, k)
  {
    RanIffRuns(steps, fails, Considered(steps, fails, 0), k);
  }

  lemma {:induction false} ConsideredIff(steps: seq<Step>, fails: int -> bool, j: nat, k: nat)
    requires j <= k < |steps|
    ensures k < Considered(steps, fails, j) <==> forall i :: j <= i < k ==> !Ends(steps, fails, i)
    decreases |steps| - j
  {
    hide Ends;
    if j < k && !Ends(steps, fails, j) {
      ConsideredIff(steps, fails, j + 1, k);
    }
  }

  /** A step is executed exactly if it can run and no earlier step ended the chain. */
  lemma ExecutedExactly(steps: seq<Step>, fails: int -> bool, k: nat)
    requires k < |steps|
    ensures k in Executed(steps, fails) <==> Runs(steps, fails, k) && NoneEnds(steps, fails, k)
  {
    hide Runs, Ends, RanSteps;
    ConsideredIff(steps, fails, 0, k);
    if k < Considered(steps, fails, 0) {
      ExecutedIffRuns(steps, fails, k);
    }
  }

  ghost predicate RanWithoutError(steps: seq<Step>, fails: int -> bool, k: nat) {
    k in Executed(steps, fails) && !fails(k)
  }

  lemma ConsideredRan(steps: seq<Step>, fails: int -> bool, k: nat)
    requires k < |steps| && k < Considered(steps, fails, 0)
    ensures Ends(steps, fails, k) <==> !steps[k].optional && !RanWithoutError(steps, fails, k)
  {
    ExecutedIffRuns(steps, fails, k);
  }

  /** A run succeeds exactly if every required step ran without error. */
  lemma SuccessIffRequiredRan(steps: seq<Step>, fails: int -> bool)
    ensures Succeeds(steps, fails) <==>
      forall k :: 0 <= k < |steps| && !steps[k].optional ==> RanWithoutError(steps, fails, k)
  {
    EndsAtLastConsidered(steps, fails, 0);
    if Succeeds(steps, fails) {
      forall k | 0 <= k < |steps| && !steps[k].optional
        ensures RanWithoutError(steps, fails, k)
      {
        assert !Ends(steps, fails, k);
        ConsideredRan(steps, fails, k);
      }
    } else {
      ConsideredRan(steps, fails, Considered(steps, fails, 0) - 1);
    }
  }

  // ----- Dependency paths

  /** Each step of the path depends on the id of the next one. */
  ghost predicate DependencyPath(steps: seq<Step>, path: seq<nat>) {
    && (forall i :: 0 <= i < |path| ==> path[i] < |steps|)
    && (forall i :: 0 <= i < |path| - 1 ==> steps[path[i + 1]].id in steps[path[i]].dependsOn)
  }

  /** Everything a step that runs depends on, directly or not, ran before it and without error. */
  lemma {:induction false} PathRunsBackwards(steps: seq<Step>, fails: int -> bool, n: nat, path: seq<nat>, i: nat)
    requires DistinctIds(steps) && n <= |steps| && DependencyPath(steps, path)
    requires 0 < i < |path| && path[0] in RanSteps(steps, fails, n)
    ensures path[i] in RanSteps(steps, fails, n) && !fails(path[i]) && path[i] < path[i - 1]
    ensures path[i] < path[0]
  {
    var ran := RanSteps(steps, fails, n);
    if i > 1 {
      PathRunsBackwards(steps, fails, n, path, i - 1);
    }
    var k, d := path[i - 1], steps[path[i]].id;
    RunsIffSatisfied(steps, fails, n, k);
    assert Satisfied(steps, fails, n, k, d);
    var j: nat :| SatisfiedBy(steps, fails, n, k, d, j);
    assert j == path[i];
  }

  /** No step on a dependency cycle ever runs. */
  lemma CyclesNeverRun(steps: seq<Step>, fails: int -> bool, n: nat, cycle: seq<nat>)
    requires DistinctIds(steps) && n <= |steps| && DependencyPath(steps, cycle)
    requires |cycle| > 1 && cycle[|cycle| - 1] == cycle[0]
    ensures cycle[0] !in RanSteps(steps, fails, n)
  {
    if cycle[0] in RanSteps(steps, fails, n) {
      PathRunsBackwards(steps, fails, n, cycle, |cycle| - 1);
    }
  }

  /** No step downstream of one that failed or did not run ever runs. */
  lemma DownstreamNeverRuns(steps: seq<Step>, fails: int -> bool, n: nat, path: seq<nat>)
    requires DistinctIds(steps) && n <= |steps| && DependencyPath(steps, path) && |path| > 1
    requires fails(path[|path| - 1]) || path[|path| - 1] !in RanSteps(steps, fails, n)
    ensures path[0] !in RanSteps(steps, fails, n)
  {
    if path[0] in RanSteps(steps, fails, n) {
      PathRunsBackwards(steps, fails, n, path, |path| - 1);
    }
  }
}
