/**
 * server.js: the `/api/chat` handler. A request whose text looks complex
 * gets a planning run first; the editing run's output is parsed as a patch
 * proposal, every change is checked by an inline validator, and the
 * changes are then applied in order by an inline applier that stops at the
 * first failure and keeps no backups. The two model runs are inputs: the
 * planning output as its text and whether it parsed, the editing output as
 * its stream of deltas and what parsing it gave. The handler reports what
 * it does as a list of events.
 */
module Server {
  import opened Wrappers
  import opened Strings
  import opened Schema
  import Paths
  import Applier
  import ModelRouter
  import Disk

  /* ---------------- detectComplexRequest ---------------- */

  /** The words that send a request through the planning run. */
  const ComplexKeywords: seq<string> :=
    ["refactor", "restructure", "reorganize", "multiple files", "several files", "architecture",
     "design", "plan", "how should", "what approach"]

  /** `detectComplexRequest(message)`: complex exactly when the lower-cased text contains one of the ten keywords. */
  function DetectComplexRequest(message: string): (complex: bool)
    ensures complex <==> exists k :: k in ComplexKeywords && Contains(Lower(message), k)
    ensures !complex <==> forall k :: k in ComplexKeywords ==> !Contains(Lower(message), k)
  {
    ContainsAny(Lower(message), ComplexKeywords)
  }

  /** Letter case does not matter, and the empty request is not complex. */
  lemma DetectCaseInsensitive(message: string)
    ensures DetectComplexRequest(message) == DetectComplexRequest(Lower(message))
    ensures !DetectComplexRequest("")
  {
    LowerIdempotent(message);
    EmptyContainsNoKeyword(ComplexKeywords);
  }

  /** No two adjacent characters of `s` are the first two of `k`, so `k` does not occur. */
  lemma AbsentPair(s: string, k: string)
    requires |k| >= 2
    requires forall i :: 0 <= i < |s| - 1 ==> !(s[i] == k[0] && s[i + 1] == k[1])
    ensures !Contains(s, k)
  {
    forall i | 0 <= i <= |s| - |k|
      ensures !OccursAt(s, k, i)
    {
      assert s[i..i + |k|][0] == s[i] && s[i..i + |k|][1] == s[i + 1];
    }
  }

  /** The handler's classifier and the router's disagree: "several files" is complex but routed as an edit. */
  lemma SeveralFilesDisagree()
    ensures DetectComplexRequest("several files") && ModelRouter.InferTaskType("several files") == ModelRouter.Edit
  {
    var s := "several files";
    assert Lower(s) == s;
    assert OccursAt(s, "several files", 0) && Contains(Lower(s), "several files");
    assert ComplexKeywords[4] == "several files";
    forall k | k in ModelRouter.PlanKeywords
      ensures !Contains(s, k)
    {
      AbsentPair(s, k);
    }
  }

  /** The other way round: "organize" is routed as a plan but is not complex. */
  lemma OrganizeDisagrees()
    ensures !DetectComplexRequest("organize") && ModelRouter.InferTaskType("organize") == ModelRouter.Plan
  {
    var o := "organize";
    assert Lower(o) == o;
    assert OccursAt(o, "organize", 0) && Contains(Lower(o), "organize");
    assert ModelRouter.PlanKeywords[5] == "organize";
    forall k | k in ComplexKeywords
      ensures !Contains(o, k)
    {
      AbsentPair(o, k);
    }
  }

  /* ---------------- The inline validator ---------------- */

  /** The start of the inline validator's message for an unsafe path. */
  const UnsafePath: string := "Unsafe path: "

  /** The start of the inline validator's message for a modify of a missing file. */
  const ModifyMissing: string := "Cannot modify non-existent file: "

  /** The start of the inline validator's message for a modify without a diff. */
  const ModifyNoDiff: string := "Modify requires diff: "

  /** The start of the inline validator's message for a create of an existing file. */
  const CreateExisting: string := "Cannot create existing file: "

  /** The start of the inline validator's message for a create without content. */
  const CreateNoContent: string := "Create requires content: "

  /** The start of the inline validator's message for a delete of a missing file. */
  const DeleteMissing: string := "Cannot delete non-existent file: "

  /** The start of the inline validator's message for an operation it does not know. */
  const UnknownOperation: string := "Unknown operation: "

  /** The inline `validateChange(change)`: the lib rules without the staleness check and with shorter messages. */
  function InlineValidation(ws: string, files: map<string, string>, c: Change): (r: ValidationResult)
    ensures r.valid <==> |r.errors| == 0
  {
    if !StartsWith(Paths.Resolve(ws, c.path), ws) then ValidationResult(false, [UnsafePath + c.path])
    else
      var fileExists := Paths.JoinPath(ws, c.path) in files;
      var errors :=
        match c.operation
        case Modify =>
          (if !fileExists then [ModifyMissing + c.path] else [])
          + (if !Provided(c.diff) then [ModifyNoDiff + c.path] else [])
        case Create =>
          (if fileExists then [CreateExisting + c.path] else [])
          + (if !Provided(c.content) then [CreateNoContent + c.path] else [])
        case Delete =>
          if !fileExists then [DeleteMissing + c.path] else []
        case Unknown(name) =>
          [UnknownOperation + name];
      ValidationResult(|errors| == 0, errors)
  }

  /**
   * An unsafe path short-circuits with one error; otherwise a change is
   * valid exactly when the lib validator's per-operation rules hold, with
   * existence looked up at `path.join(workspaceDir, path)` and no staleness
   * check.
   */
  lemma InlineValidationRules(ws: string, files: map<string, string>, c: Change)
    ensures var r := InlineValidation(ws, files, c);
      (!StartsWith(Paths.Resolve(ws, c.path), ws) ==> r.errors == [UnsafePath + c.path])
      && (r.valid <==> (StartsWith(Paths.Resolve(ws, c.path), ws) &&
        var present := Paths.JoinPath(ws, c.path) in files;
        match c.operation
        case Modify => present && Provided(c.diff)
        case Create => !present && Provided(c.content)
        case Delete => present
        case Unknown(_) => false))
  {
  }

  /** The inline validator's verdict on each change. Its ensures only unfolds the definition element by element, for the solver; the lemmas about it carry the meaning. */
  function Validations(ws: string, files: map<string, string>, changes: seq<Change>): (r: seq<ValidationResult>)
    ensures |r| == |changes| && forall k :: 0 <= k < |r| ==> r[k] == InlineValidation(ws, files, changes[k])
  {
    seq(|changes|, k requires 0 <= k < |changes| => InlineValidation(ws, files, changes[k]))
  }

  /** The errors of the invalid verdicts, in order. */
  function CollectErrors(results: seq<ValidationResult>): seq<string>
    decreases |results|
  {
    if results == [] then []
    else
      var v := results[|results| - 1];
      CollectErrors(results[..|results| - 1]) + (if v.valid then [] else v.errors)
  }

  /** Verdicts that carry errors exactly when invalid collect no error exactly when all are valid. */
  lemma {:induction false} CollectEmptyIff(results: seq<ValidationResult>)
    requires forall k :: 0 <= k < |results| ==> (results[k].valid <==> |results[k].errors| == 0)
    ensures CollectErrors(results) == [] <==> forall k :: 0 <= k < |results| ==> results[k].valid
    decreases |results|
  {
    if results != [] {
      var prior := results[..|results| - 1];
      CollectEmptyIff(prior);
      assert forall k :: 0 <= k < |prior| ==> prior[k] == results[k];
    }
  }

  /** `allErrors` after the validation loop: the errors of each invalid change, in order. */
  function ValidationErrors(ws: string, files: map<string, string>, changes: seq<Change>): seq<string>
  {
    CollectErrors(Validations(ws, files, changes))
  }

  /** The loop collects no error exactly when every change is valid. */
  lemma ValidationErrorsEmptyIff(ws: string, files: map<string, string>, changes: seq<Change>)
    ensures ValidationErrors(ws, files, changes) == [] <==> forall k :: 0 <= k < |changes| ==> InlineValidation(ws, files, changes[k]).valid
  {
    CollectEmptyIff(Validations(ws, files, changes));
  }

  /* ---------------- The inline applier ---------------- */

  /** The message `diff.split` raises when a modify carries no diff. */
  const SplitOfUndefined: string := "Cannot read properties of undefined (reading 'split')"

  /** The message `writeFile` raises when a create carries no content. */
  const DataUndefined: string :=
    "The \"data\" argument must be of type string or an instance of Buffer, TypedArray, or DataView. Received undefined"

  /** The result of one inline `applyChange`, with the files afterwards. */
  datatype Outcome = Outcome(result: ApplyResult, files: map<string, string>)

  /**
   * The inline `applyChange(change)`: no backups, an empty diff or empty
   * content is applied, and an operation it does not know succeeds without
   * doing anything.
   */
  function InlineStep(ws: string, files: map<string, string>, c: Change): (r: Outcome)
    ensures r.result.path == c.path
    ensures !r.result.success ==> r.files == files
    // What a success writes at the change's own file; the diff or content may be ''.
    ensures c.operation.Modify? && Paths.JoinPath(ws, c.path) in files && c.diff.Some? ==>
      r.result.success
      && r.files == files[Paths.JoinPath(ws, c.path) := Applier.UnifiedPatch(files[Paths.JoinPath(ws, c.path)], c.diff.value)]
    ensures c.operation.Create? && c.content.Some? ==>
      r.result.success && r.files == files[Paths.JoinPath(ws, c.path) := c.content.value]
    ensures c.operation.Delete? && Paths.JoinPath(ws, c.path) in files ==>
      r.result.success && r.files == files - {Paths.JoinPath(ws, c.path)}
    ensures c.operation.Unknown? ==> r.result.success && r.files == files
  {
    var fullPath := Paths.JoinPath(ws, c.path);
    match c.operation
    case Modify =>
      if fullPath !in files then Outcome(Failed(c.path, Disk.NotFound("open", fullPath)), files)
      else if c.diff.None? then Outcome(Failed(c.path, SplitOfUndefined), files)
      else Outcome(Succeeded(c.path), files[fullPath := Applier.UnifiedPatch(files[fullPath], c.diff.value)])
    case Create =>
      if c.content.None? then Outcome(Failed(c.path, DataUndefined), files)
      else Outcome(Succeeded(c.path), files[fullPath := c.content.value])
    case Delete =>
      if fullPath !in files then Outcome(Failed(c.path, Disk.NotFound("unlink", fullPath)), files)
      else Outcome(Succeeded(c.path), files - {fullPath})
    case Unknown(_) =>
      Outcome(Succeeded(c.path), files)
  }

  /**
   * The inline `applyChange` fails only on a missing file or a missing
   * field, reports a failure with a message and the files unchanged, treats
   * an unknown operation as a success, and touches no file but the change's.
   */
  lemma InlineStepRules(ws: string, files: map<string, string>, c: Change)
    ensures var r := InlineStep(ws, files, c);
      (r.result.success <==> r.result.error.None?)
      && (r.result.success <==>
        match c.operation
        case Modify => Paths.JoinPath(ws, c.path) in files && c.diff.Some?
        case Create => c.content.Some?
        case Delete => Paths.JoinPath(ws, c.path) in files
        case Unknown(_) => true)
      && (forall k :: k != Paths.JoinPath(ws, c.path) ==>
        (k in r.files <==> k in files) && (k in files ==> r.files[k] == files[k]))
  {
  }

  /** The results of the apply loop, with the files afterwards. */
  datatype Run = Run(results: seq<ApplyResult>, files: map<string, string>)

  /** What the loop relies on of a step: it reports the change's path, and a failed step changes no file. */
  ghost predicate Stepping(step: (map<string, string>, Change) -> Outcome)
  {
    forall f, c :: step(f, c).result.path == c.path && (!step(f, c).result.success ==> step(f, c).files == f)
  }

  /**
   * A loop that applies `step` to each change in order and stops after the
   * first failed result, undoing nothing.
   */
  function RunSteps(step: (map<string, string>, Change) -> Outcome, files: map<string, string>, changes: seq<Change>): (r: Run)
    requires Stepping(step)
    ensures |r.results| <= |changes|
    ensures forall k :: 0 <= k < |r.results| ==> r.results[k].path == changes[k].path
    ensures forall k :: 0 <= k < |r.results| - 1 ==> r.results[k].success
    ensures Applier.AllSucceeded(r.results) ==> |r.results| == |changes|
    decreases |changes|
  {
    if changes == [] then Run([], files)
    else
      var o := step(files, changes[0]);
      if !o.result.success then Run([o.result], o.files)
      else
        var rest := RunSteps(step, o.files, changes[1..]);
        assert forall k :: 0 <= k < |rest.results| ==> ([o.result] + rest.results)[k + 1] == rest.results[k];
        Run([o.result] + rest.results, rest.files)
  }

  /** A run that completes without a failure is extended by the next change's step. */
  lemma {:induction false} RunExtends(step: (map<string, string>, Change) -> Outcome, files: map<string, string>, changes: seq<Change>, c: Change)
    requires Stepping(step)
    requires Applier.AllSucceeded(RunSteps(step, files, changes).results)
    ensures var r := RunSteps(step, files, changes);
      var o := step(r.files, c);
      RunSteps(step, files, changes + [c]) == Run(r.results + [o.result], o.files)
    decreases |changes|
  {
    if changes == [] {
      assert [] + [c] == [c] && [c][1..] == [];
    } else {
      var o := step(files, changes[0]);
      assert (changes + [c])[0] == changes[0] && (changes + [c])[1..] == changes[1..] + [c];
      var rest := RunSteps(step, o.files, changes[1..]);
      assert Applier.AllSucceeded(rest.results) by {
        assert forall k :: 0 <= k < |rest.results| ==> rest.results[k] == RunSteps(step, files, changes).results[k + 1];
      }
      RunExtends(step, o.files, changes[1..], c);
      Applier.ConcatAssociative([o.result], rest.results, [step(rest.files, c).result]);
    }
  }

  /** Once a run has failed, later changes are not attempted. */
  lemma {:induction false} RunStopsEarly(step: (map<string, string>, Change) -> Outcome, files: map<string, string>, changes: seq<Change>, later: seq<Change>)
    requires Stepping(step)
    requires !Applier.AllSucceeded(RunSteps(step, files, changes).results)
    ensures RunSteps(step, files, changes + later) == RunSteps(step, files, changes)
    decreases |changes|
  {
    var o := step(files, changes[0]);
    assert (changes + later)[0] == changes[0] && (changes + later)[1..] == changes[1..] + later;
    if o.result.success {
      RunStopsEarly(step, o.files, changes[1..], later);
    }
  }

  /**
   * A change that fails after a run of successful ones ends the loop: the
   * later changes are not attempted and the files stay as the successful
   * changes left them, since nothing is rolled back.
   */
  lemma StopKeepsEarlierChanges(step: (map<string, string>, Change) -> Outcome, files: map<string, string>, before: seq<Change>, c: Change, after: seq<Change>)
    requires Stepping(step)
    requires Applier.AllSucceeded(RunSteps(step, files, before).results)
    requires !step(RunSteps(step, files, before).files, c).result.success
    ensures var done := RunSteps(step, files, before);
      RunSteps(step, files, before + [c] + after) == Run(done.results + [step(done.files, c).result], done.files)
  {
    RunExtends(step, files, before, c);
    var done := RunSteps(step, files, before);
    assert (done.results + [step(done.files, c).result])[|done.results|] == step(done.files, c).result;
    RunStopsEarly(step, files, before + [c], after);
  }

  /** The inline `applyChange` as a step of that loop. */
  function InlineSteps(ws: string): (step: (map<string, string>, Change) -> Outcome)
    ensures forall f, c :: step(f, c) == InlineStep(ws, f, c)
    ensures Stepping(step)
  {
    (f, c) => InlineStep(ws, f, c)
  }

  /** The handler's apply loop. */
  function ApplyRun(ws: string, files: map<string, string>, changes: seq<Change>): Run
  {
    RunSteps(InlineSteps(ws), files, changes)
  }

  /** The apply loop leaves alone every file that none of the changes names. */
  lemma {:induction false} ApplyRunFrame(ws: string, files: map<string, string>, changes: seq<Change>, k: string)
    requires forall i :: 0 <= i < |changes| ==> k != Paths.JoinPath(ws, changes[i].path)
    ensures var run := ApplyRun(ws, files, changes);
      (k in run.files <==> k in files) && (k in files ==> run.files[k] == files[k])
    decreases |changes|
  {
    if changes != [] {
      var o := InlineStep(ws, files, changes[0]);
      InlineStepRules(ws, files, changes[0]);
      if o.result.success {
        ApplyRunFrame(ws, o.files, changes[1..], k);
      }
    }
  }

  /* ---------------- The handler ---------------- */

  /** What the handler writes to the response, one JSON object per line. */
  datatype Event =
    | PlanningStarted
    | PlanCreated(plan: string)
    | ModelOutput(delta: string)
    | Error(message: string)
    | ValidatingPatches(count: nat)
    | ValidationFailed(errors: seq<string>)
    | ApplyingPatch(path: string, operation: Operation)
    | Done(summary: string)
    | PatchFailed(errors: seq<string>)

  /** The planning run's output: its text and, when `JSON.parse` accepts it, the plan printed back. */
  datatype PlanOutput = PlanOutput(text: string, plan: Option<string>)

  /** What `JSON.parse` and the structure check make of the editing run's output. */
  datatype EditParse =
    | NotJson
    | NullJson
    | NoChangesArray
    | Proposal(changes: seq<Change>)

  /** The editing run's output: the text deltas as they stream in, and what parsing their concatenation gave. */
  datatype EditOutput = EditOutput(deltas: seq<string>, parsed: EditParse)

  /** The events written and the files afterwards. */
  datatype Reply = Reply(events: seq<Event>, files: map<string, string>)

  /** The `model_output` events: one per non-empty delta, in order. */
  function Streamed(deltas: seq<string>): (r: seq<Event>)
    ensures forall k :: 0 <= k < |r| ==> r[k].ModelOutput? && r[k].delta != ""
    decreases |deltas|
  {
    if deltas == [] then []
    else
      var d := deltas[|deltas| - 1];
      Streamed(deltas[..|deltas| - 1]) + (if d == "" then [] else [ModelOutput(d)])
  }

  /** `fullResponse`: the deltas concatenated. */
  function FullResponse(deltas: seq<string>): string
    decreases |deltas|
  {
    if deltas == [] then "" else FullResponse(deltas[..|deltas| - 1]) + deltas[|deltas| - 1]
  }

  /** The deltas the client sees add up to the full response. */
  lemma {:induction false} StreamedSpellsResponse(deltas: seq<string>)
    ensures FullResponse(deltas) == Deltas(Streamed(deltas))
    decreases |deltas|
  {
    if deltas != [] {
      var prior := deltas[..|deltas| - 1];
      StreamedSpellsResponse(prior);
      var d := deltas[|deltas| - 1];
      DeltasAppend(Streamed(prior), if d == "" then [] else [ModelOutput(d)]);
    }
  }

  /** The texts of some `model_output` events, concatenated. */
  function Deltas(events: seq<Event>): string
    requires forall k :: 0 <= k < |events| ==> events[k].ModelOutput?
    decreases |events|
  {
    if events == [] then "" else Deltas(events[..|events| - 1]) + events[|events| - 1].delta
  }

  lemma {:induction false} DeltasAppend(a: seq<Event>, b: seq<Event>)
    requires forall k :: 0 <= k < |a| ==> a[k].ModelOutput?
    requires forall k :: 0 <= k < |b| ==> b[k].ModelOutput?
    ensures Deltas(a + b) == Deltas(a) + Deltas(b)
    decreases |b|
  {
    if b == [] {
      assert a + b == a;
    } else {
      assert (a + b)[..|a + b| - 1] == a + b[..|b| - 1];
      DeltasAppend(a, b[..|b| - 1]);
    }
  }

  /** The `applying_patch` events for the attempted changes. Its ensures only unfolds the definition element by element, for the solver; the lemmas about it carry the meaning. */
  function ApplyingEvents(attempted: seq<Change>): (r: seq<Event>)
    ensures |r| == |attempted|
    ensures forall k :: 0 <= k < |r| ==> r[k] == ApplyingPatch(attempted[k].path, attempted[k].operation)
  {
    seq(|attempted|, k requires 0 <= k < |attempted| => ApplyingPatch(attempted[k].path, attempted[k].operation))
  }

  /** One more attempted change adds its `applying_patch` event at the end. */
  lemma ApplyingEventsGrow(changes: seq<Change>, i: nat)
    requires i < |changes|
    ensures ApplyingEvents(changes[..i + 1]) == ApplyingEvents(changes[..i]) + [ApplyingPatch(changes[i].path, changes[i].operation)]
  {
    var a := ApplyingEvents(changes[..i + 1]);
    var b := ApplyingEvents(changes[..i]) + [ApplyingPatch(changes[i].path, changes[i].operation)];
    assert |a| == |b|;
    forall k | 0 <= k < |a|
      ensures a[k] == b[k]
    {
      assert changes[..i + 1][k] == changes[k];
    }
  }

  /** `${r.error}` of a result. */
  function ErrorText(error: Option<string>): string
  {
    match error
    case None => "undefined"
    case Some(e) => e
  }

  /** `path: error` for each failed result, in order. */
  function FailureLines(results: seq<ApplyResult>): seq<string>
    decreases |results|
  {
    if results == [] then []
    else
      var r := results[|results| - 1];
      FailureLines(results[..|results| - 1]) + (if r.success then [] else [r.path + ": " + ErrorText(r.error)])
  }

  /** The two parts of the `done` summary around the count. */
  const Applied: string := "Applied "

  const ChangesSuccessfully: string := " changes successfully"

  /** The closing event: `done` when every attempted change succeeded, `patch_failed` otherwise. */
  function Summary(results: seq<ApplyResult>): Event
  {
    if Applier.AllSucceeded(results) then Done(Applied + NatToString(|results|) + ChangesSuccessfully)
    else PatchFailed(FailureLines(results))
  }

  /** Everything from `validating_patches` on, for a well-formed proposal. */
  function ProposalPhase(ws: string, files: map<string, string>, changes: seq<Change>): Reply
  {
    var errors := ValidationErrors(ws, files, changes);
    if |errors| > 0 then Reply([ValidatingPatches(|changes|), ValidationFailed(errors)], files)
    else
      var run := ApplyRun(ws, files, changes);
      Reply([ValidatingPatches(|changes|)] + ApplyingEvents(changes[..|run.results|]) + [Summary(run.results)], run.files)
  }

  /** The start of the error written when the planning output does not parse. */
  const PlanningFailed: string := "Planning failed: "

  /** The start of the error written when the editing output is not JSON. */
  const NotJsonPrefix: string := "Model did not return valid JSON. Response: "

  /** The message the outer `catch` writes when the output is JSON `null`. */
  const NullChanges: string := "Cannot read properties of null (reading 'changes')"

  const MissingChanges: string := "Invalid patch proposal: missing 'changes' array"

  /** Everything from the editing run on. */
  function EditPhase(ws: string, files: map<string, string>, edit: EditOutput): Reply
  {
    var streamed := Streamed(edit.deltas);
    match edit.parsed
    case NotJson => Reply(streamed + [Error(NotJsonPrefix + Prefix(FullResponse(edit.deltas), 200))], files)
    case NullJson => Reply(streamed + [Error(NullChanges)], files)
    case NoChangesArray => Reply(streamed + [Error(MissingChanges)], files)
    case Proposal(changes) =>
      var p := ProposalPhase(ws, files, changes);
      Reply(streamed + p.events, p.files)
  }

  /** The planning events, and whether the handler goes on to the editing run. */
  datatype Opening = Opening(events: seq<Event>, proceed: bool)

  function PlanningPhase(userMessage: string, plan: PlanOutput): Opening
  {
    if !DetectComplexRequest(userMessage) then Opening([], true)
    else
      match plan.plan
      case None => Opening([PlanningStarted, Error(PlanningFailed + Prefix(plan.text, 200))], false)
      case Some(p) => Opening([PlanningStarted, PlanCreated(p)], true)
  }

  /**
   * The `/api/chat` handler on the message contents, the two runs' outputs
   * and the files. Only a parsed proposal can change the files: a failed
   * plan or an editing output without a proposal leaves them as they were.
   */
  function Chat(ws: string, messages: seq<string>, plan: PlanOutput, edit: EditOutput, files: map<string, string>): (r: Reply)
    ensures DetectComplexRequest(Join(messages, "\n")) && plan.plan.None? ==> r.files == files
    ensures !edit.parsed.Proposal? ==> r.files == files
  {
    var opening := PlanningPhase(Join(messages, "\n"), plan);
    if !opening.proceed then Reply(opening.events, files)
    else
      var rest := EditPhase(ws, files, edit);
      Reply(opening.events + rest.events, rest.files)
  }

  /* ---------------- What the handler promises ---------------- */

  /** No event is `planning_started`. */
  predicate NoPlanning(events: seq<Event>)
  {
    forall k :: 0 <= k < |events| ==> events[k] != PlanningStarted
  }

  lemma NoPlanningConcat(a: seq<Event>, b: seq<Event>)
    requires NoPlanning(a) && NoPlanning(b)
    ensures NoPlanning(a + b)
  {
    forall k | 0 <= k < |a + b|
      ensures (a + b)[k] != PlanningStarted
    {
      if k < |a| {
        assert (a + b)[k] == a[k];
      } else {
        assert (a + b)[k] == b[k - |a|];
      }
    }
  }

  /** A proposal's events start with `validating_patches` and contain no `planning_started`. */
  lemma ProposalNeverPlans(ws: string, files: map<string, string>, changes: seq<Change>)
    ensures var events := ProposalPhase(ws, files, changes).events;
      |events| > 0 && events[0] == ValidatingPatches(|changes|) && NoPlanning(events)
  {
    ValidationErrorsEmptyIff(ws, files, changes);
    if ValidationErrors(ws, files, changes) == [] {
      ProposalAccepted(ws, files, changes);
      var run := ApplyRun(ws, files, changes);
      var applying := ApplyingEvents(changes[..|run.results|]);
      NoPlanningConcat([ValidatingPatches(|changes|)], applying);
      NoPlanningConcat([ValidatingPatches(|changes|)] + applying, [Summary(run.results)]);
    } else {
      ProposalRejected(ws, files, changes);
    }
  }

  /** The editing phase writes some event and no `planning_started`. */
  lemma EditNeverPlans(ws: string, files: map<string, string>, edit: EditOutput)
    ensures var events := EditPhase(ws, files, edit).events;
      |events| > 0 && NoPlanning(events)
  {
    var streamed := Streamed(edit.deltas);
    match edit.parsed {
      case Proposal(changes) =>
        ProposalNeverPlans(ws, files, changes);
        NoPlanningConcat(streamed, ProposalPhase(ws, files, changes).events);
      case NotJson =>
        NoPlanningConcat(streamed, [Error(NotJsonPrefix + Prefix(FullResponse(edit.deltas), 200))]);
      case NullJson =>
        NoPlanningConcat(streamed, [Error(NullChanges)]);
      case NoChangesArray =>
        NoPlanningConcat(streamed, [Error(MissingChanges)]);
    }
  }

  /** The reply is never empty, and `planning_started` opens it exactly when the request is complex. */
  lemma PlanningStartedIffComplex(ws: string, messages: seq<string>, plan: PlanOutput, edit: EditOutput, files: map<string, string>)
    ensures var events := Chat(ws, messages, plan, edit, files).events;
      |events| > 0 && (events[0] == PlanningStarted <==> DetectComplexRequest(Join(messages, "\n")))
  {
    var opening := PlanningPhase(Join(messages, "\n"), plan);
    if opening.proceed {
      EditNeverPlans(ws, files, edit);
      ChatEdit(ws, messages, plan, edit, files);
      var rest := EditPhase(ws, files, edit).events;
      if opening.events == [] {
        assert Chat(ws, messages, plan, edit, files).events[0] == rest[0];
      }
    }
  }

  /** No event after the first is `planning_started`. */
  lemma PlanningNeverLater(ws: string, messages: seq<string>, plan: PlanOutput, edit: EditOutput, files: map<string, string>)
    ensures var events := Chat(ws, messages, plan, edit, files).events;
      |events| > 0 && NoPlanning(events[1..])
  {
    var opening := PlanningPhase(Join(messages, "\n"), plan);
    if opening.proceed {
      EditNeverPlans(ws, files, edit);
      ChatEdit(ws, messages, plan, edit, files);
      var rest := EditPhase(ws, files, edit).events;
      AfterFirstNoPlanning(opening.events, rest);
    }
  }

  /** An opening whose tail does not plan, before events that do not plan, leaves no planning after the first event. */
  lemma AfterFirstNoPlanning(a: seq<Event>, b: seq<Event>)
    requires |b| > 0 && NoPlanning(b) && (|a| > 0 ==> NoPlanning(a[1..]))
    ensures NoPlanning((a + b)[1..])
  {
    if a == [] {
      assert (a + b)[1..] == b[1..];
      assert forall k :: 0 <= k < |b| - 1 ==> b[1..][k] == b[k + 1];
    } else {
      assert (a + b)[1..] == a[1..] + b;
      NoPlanningConcat(a[1..], b);
    }
  }

  /** A planning output that does not parse ends the reply with one error, before the editing run. */
  lemma PlanFailureStops(ws: string, messages: seq<string>, plan: PlanOutput, edit: EditOutput, files: map<string, string>)
    requires DetectComplexRequest(Join(messages, "\n")) && plan.plan.None?
    ensures Chat(ws, messages, plan, edit, files)
      == Reply([PlanningStarted, Error(PlanningFailed + Prefix(plan.text, 200))], files)
  {
  }

  /** The events of the planning phase in front of the editing run's, when that run happens. */
  function Opened(messages: seq<string>, plan: PlanOutput): seq<Event>
  {
    PlanningPhase(Join(messages, "\n"), plan).events
  }

  /**
   * An editing output that is not a proposal ends the reply with a single
   * error after the streamed text; nothing is validated or written.
   */
  lemma ParseFailureStops(ws: string, messages: seq<string>, plan: PlanOutput, edit: EditOutput, files: map<string, string>)
    requires PlanningPhase(Join(messages, "\n"), plan).proceed
    requires !edit.parsed.Proposal?
    ensures var reply := Chat(ws, messages, plan, edit, files);
      reply.files == files
      && reply.events == Opened(messages, plan) + Streamed(edit.deltas) + [reply.events[|reply.events| - 1]]
      && reply.events[|reply.events| - 1].Error?
      && (edit.parsed.NotJson? ==>
        reply.events[|reply.events| - 1].message == NotJsonPrefix + Prefix(FullResponse(edit.deltas), 200))
      && (edit.parsed.NoChangesArray? ==> reply.events[|reply.events| - 1].message == MissingChanges)
  {
    var streamed := Streamed(edit.deltas);
    var reply := Chat(ws, messages, plan, edit, files);
    var rest := EditPhase(ws, files, edit);
    assert |rest.events| == |streamed| + 1;
    assert reply.events == Opened(messages, plan) + rest.events;
    assert rest.events == streamed + [rest.events[|rest.events| - 1]];
  }

  /** When the planning phase lets the request through, the editing phase's events follow the planning events. */
  lemma ChatEdit(ws: string, messages: seq<string>, plan: PlanOutput, edit: EditOutput, files: map<string, string>)
    requires PlanningPhase(Join(messages, "\n"), plan).proceed
    ensures var rest := EditPhase(ws, files, edit);
      Chat(ws, messages, plan, edit, files) == Reply(Opened(messages, plan) + rest.events, rest.files)
  {
  }

  /** When the planning phase lets the request through, a proposal's events follow the streamed text. */
  lemma ChatProposal(ws: string, messages: seq<string>, plan: PlanOutput, deltas: seq<string>, changes: seq<Change>, files: map<string, string>)
    requires PlanningPhase(Join(messages, "\n"), plan).proceed
    ensures var p := ProposalPhase(ws, files, changes);
      Chat(ws, messages, plan, EditOutput(deltas, Proposal(changes)), files)
        == Reply(Opened(messages, plan) + Streamed(deltas) + p.events, p.files)
  {
    var p := ProposalPhase(ws, files, changes);
    assert EditPhase(ws, files, EditOutput(deltas, Proposal(changes))) == Reply(Streamed(deltas) + p.events, p.files);
  }

  /** An invalid change makes the proposal phase write `validation_failed` with every collected error and change nothing. */
  lemma ProposalRejected(ws: string, files: map<string, string>, changes: seq<Change>)
    requires exists k :: 0 <= k < |changes| && !InlineValidation(ws, files, changes[k]).valid
    ensures ValidationErrors(ws, files, changes) != []
    ensures ProposalPhase(ws, files, changes)
      == Reply([ValidatingPatches(|changes|), ValidationFailed(ValidationErrors(ws, files, changes))], files)
  {
    ValidationErrorsEmptyIff(ws, files, changes);
  }

  /**
   * One invalid change stops the request after `validating_patches`: the
   * reply ends with `validation_failed` carrying every collected error, and
   * the files are unchanged.
   */
  lemma InvalidProposalStops(ws: string, messages: seq<string>, plan: PlanOutput, deltas: seq<string>, changes: seq<Change>, files: map<string, string>)
    requires PlanningPhase(Join(messages, "\n"), plan).proceed
    requires exists k :: 0 <= k < |changes| && !InlineValidation(ws, files, changes[k]).valid
    ensures Chat(ws, messages, plan, EditOutput(deltas, Proposal(changes)), files)
      == Reply(Opened(messages, plan) + Streamed(deltas)
        + [ValidatingPatches(|changes|), ValidationFailed(ValidationErrors(ws, files, changes))], files)
    ensures ValidationErrors(ws, files, changes) != []
  {
    ProposalRejected(ws, files, changes);
    ChatProposal(ws, messages, plan, deltas, changes, files);
  }

  /** With every change valid, the proposal phase runs the apply loop. */
  lemma ProposalAccepted(ws: string, files: map<string, string>, changes: seq<Change>)
    requires forall k :: 0 <= k < |changes| ==> InlineValidation(ws, files, changes[k]).valid
    ensures var run := ApplyRun(ws, files, changes);
      ProposalPhase(ws, files, changes)
        == Reply([ValidatingPatches(|changes|)] + ApplyingEvents(changes[..|run.results|]) + [Summary(run.results)], run.files)
  {
    ValidationErrorsEmptyIff(ws, files, changes);
  }

  /**
   * The closing event of a run: `done` with the count exactly when every
   * result succeeded, and otherwise `patch_failed` naming the one failed
   * change, which is the last attempted.
   */
  lemma SummaryOfRun(ws: string, files: map<string, string>, changes: seq<Change>)
    ensures var run := ApplyRun(ws, files, changes);
      var n := |run.results|;
      (Summary(run.results).Done? <==> Applier.AllSucceeded(run.results))
      && (Summary(run.results).Done? ==> n == |changes| && Summary(run.results).summary == Applied + NatToString(|changes|) + ChangesSuccessfully)
      && (!Summary(run.results).Done? ==>
        n > 0 && Summary(run.results).errors == [changes[n - 1].path + ": " + ErrorText(run.results[n - 1].error)])
  {
    var run := ApplyRun(ws, files, changes);
    if !Applier.AllSucceeded(run.results) {
      OnlyLastFailed(run.results);
    }
  }

  /**
   * A valid proposal is applied in order: an `applying_patch` event before
   * each attempted change, the loop stopping after the first failure, and
   * `done` reporting the count exactly when every change succeeded, in
   * which case every change was attempted; otherwise `patch_failed` names
   * the one failed change.
   */
  lemma ValidProposalApplied(ws: string, messages: seq<string>, plan: PlanOutput, deltas: seq<string>, changes: seq<Change>, files: map<string, string>)
    requires PlanningPhase(Join(messages, "\n"), plan).proceed
    requires forall k :: 0 <= k < |changes| ==> InlineValidation(ws, files, changes[k]).valid
    ensures var run := ApplyRun(ws, files, changes);
      Chat(ws, messages, plan, EditOutput(deltas, Proposal(changes)), files)
        == Reply(Opened(messages, plan) + Streamed(deltas)
          + ([ValidatingPatches(|changes|)] + ApplyingEvents(changes[..|run.results|]) + [Summary(run.results)]), run.files)
  {
    ProposalAccepted(ws, files, changes);
    ChatProposal(ws, messages, plan, deltas, changes, files);
  }

  /** When only the last result failed, `patch_failed` lists that one result. */
  lemma OnlyLastFailed(results: seq<ApplyResult>)
    requires |results| > 0 && forall k :: 0 <= k < |results| - 1 ==> results[k].success
    requires !results[|results| - 1].success
    ensures FailureLines(results) == [results[|results| - 1].path + ": " + ErrorText(results[|results| - 1].error)]
  {
    AllSucceededNoLines(results[..|results| - 1]);
  }

  lemma {:induction false} AllSucceededNoLines(results: seq<ApplyResult>)
    requires forall k :: 0 <= k < |results| ==> results[k].success
    ensures FailureLines(results) == []
    decreases |results|
  {
    if results != [] {
      AllSucceededNoLines(results[..|results| - 1]);
    }
  }

  /**
   * A delete and then a modify of the same file both pass validation, which
   * looks only at the files before the request; the delete goes through,
   * the modify then fails to read the file, and the delete is not undone.
   */
  lemma DeleteThenModifyLosesFile(ws: string, files: map<string, string>, p: string, diff: string)
    requires StartsWith(Paths.Resolve(ws, p), ws) && Paths.JoinPath(ws, p) in files && diff != ""
    ensures var changes := [Change(p, Delete, None, None), Change(p, Modify, Some(diff), None)];
      var key := Paths.JoinPath(ws, p);
      ValidationErrors(ws, files, changes) == []
      && ProposalPhase(ws, files, changes) == Reply(
        [ValidatingPatches(2), ApplyingPatch(p, Delete), ApplyingPatch(p, Modify),
         PatchFailed([p + ": " + Disk.NotFound("open", key)])],
        files - {key})
  {
    var changes := [Change(p, Delete, None, None), Change(p, Modify, Some(diff), None)];
    ValidationErrorsEmptyIff(ws, files, changes);
    DeleteThenModifyRun(ws, files, p, diff);
    var run := ApplyRun(ws, files, changes);
    assert changes[..2] == changes;
    OnlyLastFailed(run.results);
  }

  /** The apply loop on that pair: the delete succeeds, then the modify finds no file. */
  lemma DeleteThenModifyRun(ws: string, files: map<string, string>, p: string, diff: string)
    requires Paths.JoinPath(ws, p) in files
    ensures var key := Paths.JoinPath(ws, p);
      ApplyRun(ws, files, [Change(p, Delete, None, None), Change(p, Modify, Some(diff), None)])
        == Run([Succeeded(p), Failed(p, Disk.NotFound("open", key))], files - {key})
  {
    var changes := [Change(p, Delete, None, None), Change(p, Modify, Some(diff), None)];
    var key := Paths.JoinPath(ws, p);
    var after := files - {key};
    assert InlineStep(ws, files, changes[0]) == Outcome(Succeeded(p), after);
    assert changes[1..] == [changes[1]];
    var second := InlineStep(ws, after, changes[1]);
    assert second == Outcome(Failed(p, Disk.NotFound("open", key)), after);
    assert ApplyRun(ws, after, changes[1..]) == Run([second.result], after);
  }

  /* ---------------- The handler, step by step ---------------- */

  /** The inline `applyUnifiedDiff(original, diff)`: the same walk as the lib applier's, to the same result. */
  method InlineApplyUnifiedDiff(original: string, diff: string) returns (r: string)
    ensures r == Applier.UnifiedPatch(original, diff)
  {
    var originalLines := Split(original, '\n');
    var result: seq<string> := [];
    var diffLines := Split(diff, '\n');
    var originalIndex: nat := 0;
    for i := 0 to |diffLines|
      invariant Applier.DiffWalk(originalLines, Applier.Cursor([], 0), diffLines[..i]) == Applier.Cursor(result, originalIndex)
    {
      assert diffLines[..i + 1][..i] == diffLines[..i];
      var line := diffLines[i];
      if StartsWith(line, "@@") {
        continue;
      }
      if StartsWith(line, "+") {
        result := result + [line[1..]];
      } else if StartsWith(line, "-") {
        originalIndex := originalIndex + 1;
      } else if StartsWith(line, " ") {
        if originalIndex < |originalLines| {
          result := result + [originalLines[originalIndex]];
          originalIndex := originalIndex + 1;
        }
      }
    }
    assert diffLines[..|diffLines|] == diffLines;
    while originalIndex < |originalLines|
      invariant result + Applier.Remaining(originalLines, originalIndex) == Applier.PatchedLines(originalLines, diffLines)
    {
      Applier.RemainingStep(originalLines, originalIndex);
      Applier.ConcatAssociative(result, [originalLines[originalIndex]], Applier.Remaining(originalLines, originalIndex + 1));
      result := result + [originalLines[originalIndex]];
      originalIndex := originalIndex + 1;
    }
    assert result + [] == result;
    r := Join(result, "\n");
  }

  /** The inline `applyChange(change)` against the files. */
  method InlineApplyChange(ws: string, files: map<string, string>, change: Change) returns (result: ApplyResult, after: map<string, string>)
    ensures Outcome(result, after) == InlineStep(ws, files, change)
  {
    var fullPath := Paths.JoinPath(ws, change.path);
    after := files;
    match change.operation {
      case Modify =>
        if fullPath !in files {
          return Failed(change.path, Disk.NotFound("open", fullPath)), files;
        }
        if change.diff.None? {
          return Failed(change.path, SplitOfUndefined), files;
        }
        var modified := InlineApplyUnifiedDiff(files[fullPath], change.diff.value);
        after := files[fullPath := modified];
      case Create =>
        if change.content.None? {
          return Failed(change.path, DataUndefined), files;
        }
        after := files[fullPath := change.content.value];
      case Delete =>
        if fullPath !in files {
          return Failed(change.path, Disk.NotFound("unlink", fullPath)), files;
        }
        after := files - {fullPath};
      case Unknown(_) =>
    }
    result := Succeeded(change.path);
  }

  /** The streaming loop: a `model_output` event for each non-empty delta, and the text so far. */
  method StreamDeltas(deltas: seq<string>) returns (events: seq<Event>, fullResponse: string)
    ensures events == Streamed(deltas) && fullResponse == FullResponse(deltas)
  {
    events := [];
    fullResponse := "";
    for i := 0 to |deltas|
      invariant events == Streamed(deltas[..i])
      invariant fullResponse == FullResponse(deltas[..i])
    {
      assert deltas[..i + 1][..i] == deltas[..i];
      var delta := deltas[i];
      if delta != "" {
        fullResponse := fullResponse + delta;
        events := events + [ModelOutput(delta)];
      }
    }
    assert deltas[..|deltas|] == deltas;
  }

  /** The validation loop: every change is checked against the files before the request. */
  method ValidateChanges(ws: string, files: map<string, string>, changes: seq<Change>) returns (allErrors: seq<string>)
    ensures allErrors == ValidationErrors(ws, files, changes)
  {
    ghost var verdicts := Validations(ws, files, changes);
    allErrors := [];
    for i := 0 to |changes|
      invariant allErrors == CollectErrors(verdicts[..i])
    {
      assert verdicts[..i + 1][..i] == verdicts[..i];
      var result := InlineValidation(ws, files, changes[i]);
      if !result.valid {
        allErrors := allErrors + result.errors;
      }
    }
    assert verdicts[..|changes|] == verdicts;
  }

  /**
   * One turn of the apply loop: after a run of successful changes, the next
   * change's outcome either extends the run or, when it fails, ends the
   * whole loop.
   */
  lemma ApplyLoopStep(ws: string, files: map<string, string>, changes: seq<Change>, i: nat, done: Run, o: Outcome)
    requires i < |changes|
    requires done == ApplyRun(ws, files, changes[..i]) && Applier.AllSucceeded(done.results)
    requires o == InlineStep(ws, done.files, changes[i])
    ensures o.result.success ==>
      Run(done.results + [o.result], o.files) == ApplyRun(ws, files, changes[..i + 1])
      && Applier.AllSucceeded(done.results + [o.result])
    ensures !o.result.success ==> Run(done.results + [o.result], o.files) == ApplyRun(ws, files, changes)
  {
    var step := InlineSteps(ws);
    assert o == step(done.files, changes[i]);
    RunLoopStep(step, files, changes, i, done, o);
  }

  /** The same turn for any step. */
  lemma RunLoopStep(step: (map<string, string>, Change) -> Outcome, files: map<string, string>, changes: seq<Change>, i: nat, done: Run, o: Outcome)
    requires Stepping(step) && i < |changes|
    requires done == RunSteps(step, files, changes[..i]) && Applier.AllSucceeded(done.results)
    requires o == step(done.files, changes[i])
    ensures o.result.success ==>
      Run(done.results + [o.result], o.files) == RunSteps(step, files, changes[..i + 1])
      && Applier.AllSucceeded(done.results + [o.result])
    ensures !o.result.success ==> Run(done.results + [o.result], o.files) == RunSteps(step, files, changes)
  {
    RunExtends(step, files, changes[..i], changes[i]);
    assert changes[..i] + [changes[i]] == changes[..i + 1];
    if !o.result.success {
      var next := done.results + [o.result];
      assert next[|next| - 1] == o.result;
      RunStopsEarly(step, files, changes[..i + 1], changes[i + 1..]);
      assert changes[..i + 1] + changes[i + 1..] == changes;
    }
  }

  /**
   * The apply loop: an `applying_patch` event before each attempted change,
   * stopping after the first failure.
   */
  method ApplyChanges(ws: string, files: map<string, string>, changes: seq<Change>)
    returns (events: seq<Event>, results: seq<ApplyResult>, after: map<string, string>)
    ensures Run(results, after) == ApplyRun(ws, files, changes)
    ensures events == ApplyingEvents(changes[..|results|])
  {
    events := [];
    results := [];
    after := files;
    var i := 0;
    assert changes[..0] == [];
    while i < |changes|
      invariant 0 <= i <= |changes| && |results| == i
      invariant events == ApplyingEvents(changes[..i])
      invariant Run(results, after) == ApplyRun(ws, files, changes[..i])
      invariant Applier.AllSucceeded(results)
    {
      ApplyingEventsGrow(changes, i);
      events := events + [ApplyingPatch(changes[i].path, changes[i].operation)];
      ghost var done := Run(results, after);
      var result;
      result, after := InlineApplyChange(ws, after, changes[i]);
      ApplyLoopStep(ws, files, changes, i, done, Outcome(result, after));
      results := results + [result];
      if !result.success {
        return;
      }
      i := i + 1;
    }
    assert changes[..i] == changes;
  }

  /** Validation, then the apply loop when every change is valid. */
  method ProposalStage(ws: string, files: map<string, string>, changes: seq<Change>)
    returns (events: seq<Event>, after: map<string, string>)
    ensures Reply(events, after) == ProposalPhase(ws, files, changes)
  {
    events := [ValidatingPatches(|changes|)];
    after := files;
    var allErrors := ValidateChanges(ws, files, changes);
    ValidationErrorsEmptyIff(ws, files, changes);
    if |allErrors| > 0 {
      events := events + [ValidationFailed(allErrors)];
      ProposalRejected(ws, files, changes);
      return;
    }
    ProposalAccepted(ws, files, changes);
    var applying, results;
    applying, results, after := ApplyChanges(ws, files, changes);
    events := events + applying + [Summary(results)];
  }

  /** The streamed output, then the parse checks, then the proposal. */
  method EditStage(ws: string, files: map<string, string>, edit: EditOutput)
    returns (events: seq<Event>, after: map<string, string>)
    ensures Reply(events, after) == EditPhase(ws, files, edit)
  {
    var fullResponse;
    events, fullResponse := StreamDeltas(edit.deltas);
    after := files;
    match edit.parsed {
      case NotJson =>
        events := events + [Error(NotJsonPrefix + Prefix(fullResponse, 200))];
      case NullJson =>
        events := events + [Error(NullChanges)];
      case NoChangesArray =>
        events := events + [Error(MissingChanges)];
      case Proposal(changes) =>
        var proposed;
        proposed, after := ProposalStage(ws, files, changes);
        events := events + proposed;
    }
  }

  /**
   * The `/api/chat` handler: the planning phase, the streamed output, the
   * parse checks, the validation loop and the apply loop, writing events as
   * it goes.
   */
  method HandleChat(ws: string, messages: seq<string>, plan: PlanOutput, edit: EditOutput, files: map<string, string>)
    returns (events: seq<Event>, after: map<string, string>)
    ensures Reply(events, after) == Chat(ws, messages, plan, edit, files)
  {
    var userMessage := Join(messages, "\n");
    events := [];
    after := files;
    if DetectComplexRequest(userMessage) {
      events := events + [PlanningStarted];
      if plan.plan.None? {
        events := events + [Error(PlanningFailed + Prefix(plan.text, 200))];
        PlanFailureStops(ws, messages, plan, edit, files);
        return;
      }
      events := events + [PlanCreated(plan.plan.value)];
    }
    assert PlanningPhase(userMessage, plan).proceed && events == Opened(messages, plan);
    ChatEdit(ws, messages, plan, edit, files);
    var rest;
    rest, after := EditStage(ws, files, edit);
    events := events + rest;
  }
}
