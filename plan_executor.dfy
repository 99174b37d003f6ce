/**
 * lib/plan-executor.ts: the plan-execute-validate workflow. The two agent
 * runs are inputs (the parsed plan and the parsed patches); what is left is
 * the check that the patches touch only planned files, and the validation
 * phase, which is a placeholder that always passes.
 */
module PlanExecutor {
  import opened Wrappers
  import opened Strings
  import opened Schema

  /** A `Plan` as the planning agent returns it. */
  datatype Plan = Plan(filesToModify: seq<string>, rationale: string, estimatedChanges: int)

  /** The validation phase's report. */
  datatype PhaseReport = PhaseReport(passed: bool, errors: seq<string>, warnings: seq<string>)

  /** What the workflow returns when it does not throw. */
  datatype Outcome = Outcome(plan: Plan, patches: PatchProposal, validation: PhaseReport)

  /** `executeValidationPhase(filesModified)`: passes with no errors or warnings, whatever it is given. */
  function ExecuteValidationPhase(filesModified: seq<string>): (r: PhaseReport)
    ensures r.passed && r.errors == [] && r.warnings == []
  {
    PhaseReport(true, [], [])
  }

  /** `patches.changes.map(c => c.path)`. Its ensures only unfolds the definition element by element, for the solver; the lemmas about it carry the meaning. */
  function PatchedFiles(changes: seq<Change>): (r: seq<string>)
    ensures |r| == |changes| && forall k :: 0 <= k < |r| ==> r[k] == changes[k].path
  {
    seq(|changes|, k requires 0 <= k < |changes| => changes[k].path)
  }

  /** `patchedFiles.filter(f => !plan.files_to_modify.includes(f))`. */
  function UnauthorizedFiles(planned: seq<string>, patched: seq<string>): (r: seq<string>)
    ensures r == [] <==> forall k :: 0 <= k < |patched| ==> patched[k] in planned
    decreases |patched|
  {
    if patched == [] then []
    else
      var f := patched[|patched| - 1];
      UnauthorizedFiles(planned, patched[..|patched| - 1]) + (if f in planned then [] else [f])
  }

  /**
   * The unauthorized files are the patched paths outside the plan, each as
   * often as it is patched, in patch order.
   */
  lemma {:induction false} UnauthorizedCounts(planned: seq<string>, patched: seq<string>)
    ensures forall f :: multiset(UnauthorizedFiles(planned, patched))[f] == if f in planned then 0 else multiset(patched)[f]
    decreases |patched|
  {
    if patched != [] {
      var prior := patched[..|patched| - 1];
      UnauthorizedCounts(planned, prior);
      assert patched == prior + [patched[|patched| - 1]];
    }
  }

  /** A path is unauthorized exactly when it is patched and not planned. */
  lemma UnauthorizedMembers(planned: seq<string>, patched: seq<string>)
    ensures forall f :: f in UnauthorizedFiles(planned, patched) <==> f in patched && f !in planned
  {
    UnauthorizedCounts(planned, patched);
    forall f
      ensures f in UnauthorizedFiles(planned, patched) <==> f in patched && f !in planned
    {
      assert f in UnauthorizedFiles(planned, patched) <==> f in multiset(UnauthorizedFiles(planned, patched));
      assert f in patched <==> f in multiset(patched);
    }
  }

  /** The positions of the unauthorized files among the patched paths. */
  function UnauthorizedPositions(planned: seq<string>, patched: seq<string>): seq<nat>
    decreases |patched|
  {
    if patched == [] then []
    else
      var n := |patched| - 1;
      UnauthorizedPositions(planned, patched[..n]) + (if patched[n] in planned then [] else [n])
  }

  /** Each unauthorized file is the patched path at its position, and the positions increase. */
  lemma {:induction false} PositionsPick(planned: seq<string>, patched: seq<string>)
    ensures var u := UnauthorizedFiles(planned, patched);
      var pick := UnauthorizedPositions(planned, patched);
      |pick| == |u| && (forall k :: 0 <= k < |u| ==> pick[k] < |patched| && patched[pick[k]] == u[k])
        && forall k, l :: 0 <= k < l < |u| ==> pick[k] < pick[l]
    decreases |patched|
  {
    if patched != [] {
      var n := |patched| - 1;
      var prior := patched[..n];
      PositionsPick(planned, prior);
      var u0 := UnauthorizedFiles(planned, prior);
      var p0 := UnauthorizedPositions(planned, prior);
      var u := UnauthorizedFiles(planned, patched);
      var pick := UnauthorizedPositions(planned, patched);
      assert u == u0 + (if patched[n] in planned then [] else [patched[n]]);
      assert pick == p0 + (if patched[n] in planned then [] else [n]);
      forall k | 0 <= k < |u0|
        ensures pick[k] == p0[k] < n && u[k] == u0[k] && patched[p0[k]] == prior[p0[k]]
      {
      }
    }
  }

  /** The unauthorized files keep the order of the patches: each is a patched path at a later position than the one before. */
  lemma UnauthorizedInOrder(planned: seq<string>, patched: seq<string>)
    ensures var u := UnauthorizedFiles(planned, patched);
      exists pick: seq<nat> :: |pick| == |u| && (forall k :: 0 <= k < |u| ==> pick[k] < |patched| && patched[pick[k]] == u[k])
        && forall k, l :: 0 <= k < l < |u| ==> pick[k] < pick[l]
  {
    PositionsPick(planned, patched);
  }

  /** The message the workflow throws. */
  function UnauthorizedMessage(files: seq<string>): string
  {
    "Agent tried to modify unauthorized files: " + Join(files, ", ")
  }

  /**
   * `executePlanValidateWorkflow` once both agents have answered: it returns
   * exactly when every changed path is planned, and then returns the plan
   * and the patches unchanged with a passing report; otherwise it throws,
   * listing the unplanned paths in change order.
   */
  function Workflow(plan: Plan, patches: PatchProposal): (r: Result<Outcome>)
    ensures r.Success? <==> forall k :: 0 <= k < |patches.changes| ==> patches.changes[k].path in plan.filesToModify
    ensures r.Success? ==> r.value == Outcome(plan, patches, PhaseReport(true, [], []))
    ensures r.Failure? ==> r.error == UnauthorizedMessage(UnauthorizedFiles(plan.filesToModify, PatchedFiles(patches.changes)))
  {
    var patchedFiles := PatchedFiles(patches.changes);
    var unauthorized := UnauthorizedFiles(plan.filesToModify, patchedFiles);
    if |unauthorized| > 0 then Failure(UnauthorizedMessage(unauthorized))
    else Success(Outcome(plan, patches, ExecuteValidationPhase(patchedFiles)))
  }

  /** Patches confined to the plan except for one stray path fail, and the error names only that path. */
  lemma OneStrayFile(plan: Plan, patches: PatchProposal, stray: string)
    requires stray !in plan.filesToModify
    requires forall k :: 0 <= k < |patches.changes| ==> patches.changes[k].path in plan.filesToModify || patches.changes[k].path == stray
    requires exists k :: 0 <= k < |patches.changes| && patches.changes[k].path == stray
    ensures Workflow(plan, patches).Failure?
    ensures var u := UnauthorizedFiles(plan.filesToModify, PatchedFiles(patches.changes));
      |u| > 0 && forall k :: 0 <= k < |u| ==> u[k] == stray
  {
    var patched := PatchedFiles(patches.changes);
    var u := UnauthorizedFiles(plan.filesToModify, patched);
    UnauthorizedMembers(plan.filesToModify, patched);
    var j :| 0 <= j < |patches.changes| && patches.changes[j].path == stray;
    assert patched[j] == stray && stray in patched;
    assert stray in u;
    forall k | 0 <= k < |u|
      ensures u[k] == stray
    {
      assert u[k] in u;
      var i :| 0 <= i < |patched| && patched[i] == u[k];
      assert patches.changes[i].path == u[k];
    }
  }
}
