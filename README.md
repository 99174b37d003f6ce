# Censeo.dev patch pipeline, modelled in Dafny

Censeo.dev's coding assistant lets a language model propose a list of file
changes. Each change is one of three kinds:

- `modify`, carrying a unified-diff-like text;
- `create`, carrying the new content;
- `delete`.

The server checks the proposal, applies it to the candidate's workspace and
streams what it does as JSON events. This project models that patch pipeline
and proves what it promises.

- **Applier** (`patch_applier.dfy`): `PatchApplier` from `lib/patch-applier.ts`.
  - The sequential diff walk `applyUnifiedDiff` ignores hunk numbers.
  - `applyChange` keeps a backup of what each change replaced.
  - `applyChanges` stops and rolls back at the first failure.
  - `rollback` undoes the history newest first, reading a `''` backup as "did not exist".
  - `clearBackups` commits.
  - The class keeps its `appliedChanges` history and a file system as fields. Its methods are proved equal to the pure functions `UnifiedPatch`, `ChangeStep`, `ApplyAll` and `Undo`, and the lemmas are proved about those functions.
- **Validator** (`patch_validator.dfy`): `PatchValidator` from `lib/patch-validator.ts`.
  - path normalisation with its string-prefix containment test;
  - `isPathSafe`;
  - the checksum record of reads, and staleness detection;
  - the per-operation rules of `validateChange`, and the error accumulation of `validateProposal`.
- **DiffParser** (`diff_parser.dfy`): `lib/diff-parser.ts`.
  - `parseDiffSuggestion` splits markdown into ```` ```diff-suggestion ```` blocks. The lazy regular expression is written out as a search for the opener and then the first closing fence. The parser takes the `FILE:` header and numbers the add, remove and context lines.
  - `applyDiffChanges` merges accepted lines into a file by trimmed-text search.
- **FileStates** (`file_state_manager.dfy`): `FileStateManager` from `lib/file-state-manager.ts`. This is a class over a map of sessions, with lazy creation, an append-only change log, clearing, and age-based cleanup.
- **PlanExecutor** (`plan_executor.dfy`): from `lib/plan-executor.ts`, the check that the editing agent's patches touch only planned files, and the validation phase.
- **ModelRouter** (`model_router.dfy`): `inferTaskType`, `selectModel` and `getModelConfig` from `lib/model-router.ts`.
- **Server** (`server.dfy`): from `server.js`:
  - `detectComplexRequest`;
  - the inline validator and the inline applier;
  - the `/api/chat` handler, as the function `Chat` and the method `HandleChat` that is proved equal to it.

  The handler's inputs are:
  - the message texts;
  - the planning run's output: its text, and the plan when it parses;
  - the editing run's output: its stream of deltas, and what `JSON.parse` and the structure check made of it;
  - the files.

  Its outputs are the events written and the files afterwards.

Supporting modules:

- **Wrappers:** `Option` and `Result`.
- **Strings:**
  - `split`, `join`, `startsWith`, `includes`;
  - ASCII `toLowerCase`, `trim`, `substring(0, n)`;
  - decimal rendering.
- **Schema:** the records of `lib/patch-schema.ts`. An operation name other than the three known ones is kept as `Unknown(name)`. A SHA-256 digest is a datatype that holds the hashed content, so two digests are equal exactly when the contents are.
- **Paths:** Node's POSIX `path.normalize`, `resolve`, `join` and `relative`, on `/`-separated segments. The workspace directory is absolute.
- **Disk:** the `fs` module as a class over `map<string, string>`. The map is keyed by the full path that `fs` is handed, `path.join(workspaceDir, p)`.

`Date.now()` is an integer parameter `now`. The language-model runs are inputs.

## Model

| member | source | states |
|---|---|---|
| Applier.PatchApplier.constructor | lib/patch-applier.ts:8-14 | the applier starts with an empty backup history over the given workspace and file system |
| Applier.PatchApplier.ApplyUnifiedDiff | lib/patch-applier.ts:19-52 | the loop over the diff lines and the loop appending the unconsumed original lines return exactly `UnifiedPatch(original, diff)` |
| Applier.DiffWalkAppend | lib/patch-applier.ts:26-43 | walking two diffs one after the other is walking their concatenation |
| Applier.InertLineHasNoEffect | lib/patch-applier.ts:27-29 | an `@@` line, or one starting with none of `+`, `-`, space, can be removed from anywhere in a diff without changing the output |
| Applier.UnifiedPatch | lib/patch-applier.ts:19-52 | an empty diff returns the original text exactly, through the split/join round trip |
| Applier.ContextWalkCopies | lib/patch-applier.ts:36-41 | context and ignored lines alone copy a prefix of the original, never past its end |
| Applier.ContextOnlyKeepsLines | lib/patch-applier.ts:36-49 | a diff with no `+` or `-` line reproduces the original lines |
| Applier.AdditionsWalk | lib/patch-applier.ts:30-32 | with only `+` and ignored lines the walk emits the payloads in order and consumes nothing |
| Applier.AdditionsOnly | lib/patch-applier.ts:30-49 | with only `+` and ignored lines the output is the payloads followed by the whole original |
| Applier.DeletionsWalk | lib/patch-applier.ts:33-35 | k `-` lines emit nothing and advance the index by k, even past the end of the original |
| Applier.DeletionsOnly | lib/patch-applier.ts:33-49 | k `-` lines drop the first k original lines, and everything once k overruns the original; the final loop still terminates |
| Applier.WalkSourcesDenote | lib/patch-applier.ts:26-43 | each emitted line comes from the source it is attributed to: an original line or a `+` payload |
| Applier.WalkSourcesOrdered | lib/patch-applier.ts:26-43 | the walk's original lines come in increasing position below the index, each at most once, and its payloads in diff order |
| Applier.WalkSourcesComplete | lib/patch-applier.ts:30-32 | every `+` line of the diff contributes its payload |
| Applier.Provenance | lib/patch-applier.ts:26-49 | every output line is an original line or a `+` payload; original lines keep their order and appear at most once; payloads keep diff order and all appear |
| Applier.SourcesDenote | lib/patch-applier.ts:26-49 | the attributed sources, including the appended remainder, match the output line by line |
| Applier.SourcesOrdered | lib/patch-applier.ts:26-49 | the appended remainder keeps the original lines in order after those the walk copied |
| Applier.ChangeStep | lib/patch-applier.ts:57-116 | `applyChange` never throws. It reports on the change's own path, with an error exactly when it fails. It succeeds exactly when: a modify's file exists and a non-empty diff is given; a create has non-empty content; a delete's file exists. An unknown operation always fails. A successful modify writes `applyUnifiedDiff(old, diff)` at the file, a create writes the content, a delete removes the file; no other file changes, and a failure changes no file. The history gains exactly: for a modify or delete, the old content when the file exists, even if the modify then fails for want of a diff; for a create, `''` only when it goes ahead; nothing for an unknown operation |
| Applier.PatchApplier.ApplyChange | lib/patch-applier.ts:57-116 | the method's result, files and history are those of `ChangeStep` |
| Applier.UndoPrefix | lib/patch-applier.ts:145-159 | undoing the first i entries undoes entry i−1 first, then the ones before it: newest first |
| Applier.UndoAppend | lib/patch-applier.ts:145-159 | undoing a concatenated history undoes the newer part first |
| Applier.UndoFrame | lib/patch-applier.ts:142-162 | rollback leaves every file that no history entry names exactly as it was, present or absent |
| Applier.PatchApplier.Rollback | lib/patch-applier.ts:142-162 | the files become the history undone newest first, with `''` deleting and anything else rewriting, per-entry failures ignored; the history ends empty |
| Applier.PatchApplier.ClearBackups | lib/patch-applier.ts:167-169 | the history is emptied and the files are not touched |
| Applier.ChangeStepsStepwise | lib/patch-applier.ts:57-116 | `applyChange` reports on its change's path and only appends to the history |
| Applier.Batched | lib/patch-applier.ts:122-137 | at most one result per change; every result but the last succeeded; a batch that did not stop has a result for every change; a stopped batch has rolled back and emptied the history |
| Applier.BatchedPaths | lib/patch-applier.ts:125-127 | result k is about change k |
| Applier.BatchedHistory | lib/patch-applier.ts:122-137 | a batch that does not stop only appends to the history |
| Applier.ApplyAllResults | lib/patch-applier.ts:122-137 | for the applier's own steps, results line up with the changes, and a completed batch extends the history |
| Applier.ApplyAll | lib/patch-applier.ts:122-137 | the changes are tried in order: every result but the last attempted is a success; either every change was attempted, or the batch stopped at its first failure and the history was emptied by the rollback |
| Applier.StepUnfolds | lib/patch-applier.ts:125-133 | the first change of a batch is applied first; its failure rolls back and ends the batch, and its success goes on with the rest |
| Applier.PatchApplier.ApplyChanges | lib/patch-applier.ts:122-137 | the method's results, files and history are those of `ApplyAll` |
| Applier.StepKeepsUndo | lib/patch-applier.ts:57-162 | when a change's backup is faithful (a create to a missing file; a modify or delete of a non-empty file), undoing the whole history afterwards gives the same files as before the change |
| Applier.ApplyAllRestores | lib/patch-applier.ts:122-162 | for faithful backups, rollback restores the files of the last commit, both after a failed batch and after a successful one |
| Applier.AllOrNothing | lib/patch-applier.ts:122-137 | from a committed state, a failed batch leaves every file as it was and the history empty |
| Applier.RollbackRevertsEarlierBatches | lib/patch-applier.ts:122-162 | history accumulates across batches, so a rollback after two uncommitted batches also reverts the first |
| Applier.EmptyFileLostOnRollback | lib/patch-applier.ts:62-162 | a modified or deleted empty file gets the `''` backup, so a rollback deletes it |
| Applier.CreateRollbackAndDelete | lib/patch-applier.ts:78-162 | a rolled-back create leaves no file, and so does a create followed by a delete |
| Validator.PatchValidator.constructor | lib/patch-validator.ts:13-16 | the validator starts with no recorded reads |
| Validator.NormalizePath | lib/patch-validator.ts:21-31 | fails exactly when the resolved path does not start with the workspace text, with "Path traversal detected: " followed by the path; otherwise returns the path relative to the workspace |
| Validator.IsPathSafe | lib/patch-validator.ts:36-43 | a path is safe exactly when, resolved against the workspace, it starts with the workspace text |
| Validator.RelativePathsWithoutParentAreSafe | lib/patch-validator.ts:21-43 | a relative path with no `..` segment is always safe |
| Validator.ParentDirectoryRejected | lib/patch-validator.ts:21-31 | `..` is refused for any workspace other than the root |
| Validator.SiblingDirectoryAccepted | lib/patch-validator.ts:26-30 | containment is a string-prefix test, so a path into a sibling directory whose name extends the workspace's is accepted and returned, although it resolves outside the workspace |
| Validator.SiblingSharesPrefix | lib/patch-validator.ts:26 | such a sibling's path starts with the workspace text but not with the workspace followed by `/` |
| Validator.SiblingResolves | lib/patch-validator.ts:23 | `../sibling/f` resolves against the workspace to the sibling's file |
| Validator.SiblingRelative | lib/patch-validator.ts:30 | the sibling's file is `../sibling/f` relative to the workspace |
| Validator.ClimbIsNormal | lib/patch-validator.ts:22 | `../s/f` for names s and f is already normal |
| Validator.DotNameNormalizes | lib/patch-validator.ts:21-31 | `./a` for a name a is safe and normalises to `a` |
| Validator.RecordRead | lib/patch-validator.ts:55-62 | the read is stored under the path as given, with the checksum of the content and the time; a later read replaces it; no other entry changes |
| Validator.PatchValidator.RecordFileRead | lib/patch-validator.ts:55-62 | the method's new map is `RecordRead` of the old one |
| Validator.PatchValidator.HasFileChanged | lib/patch-validator.ts:67-79 | reports `Changed`: a read is recorded, and the file is missing or its checksum differs |
| Validator.ReadThenUnchanged | lib/patch-validator.ts:55-75 | a file read and left alone has not changed |
| Validator.EditAfterReadDetected | lib/patch-validator.ts:67-78 | a file whose text differs from what was read, or that has gone, has changed |
| Validator.UnreadNeverChanged | lib/patch-validator.ts:68-69 | a file never read is never reported as changed |
| Validator.ChangeValidation | lib/patch-validator.ts:84-139 | valid exactly when there is no error; an unsafe path gives exactly the one error "Unsafe path: " followed by the path |
| Validator.ChangeValidIff | lib/patch-validator.ts:88-130 | a change is valid exactly when its path is safe and: for a modify, the file exists, a non-empty diff is given and it has not changed since read; for a create, the file is absent and the content non-empty; for a delete, the file exists; never for an unknown operation |
| Validator.ModifyReportsEveryProblem | lib/patch-validator.ts:100-111 | a modify of a missing, previously read file with no diff draws the three errors in the order missing, no diff, stale |
| Validator.UnknownOperationOneError | lib/patch-validator.ts:128-129 | a safe change with an unknown operation is invalid with exactly one "Unknown operation: " error naming it |
| Validator.StaleCheckMissesUnnormalizedKey | lib/patch-validator.ts:55-111 | reads are stored under the path as given but the staleness check looks up the normalised path, so a changed file read as `./a` passes a modify of `./a` |
| Validator.PatchValidator.ValidateChange | lib/patch-validator.ts:84-139 | the method's result is `ChangeValidation` on the current reads and files |
| Validator.CollectValidations | lib/patch-validator.ts:145-157 | the collected result is valid exactly when it has no errors |
| Validator.CollectValidIff | lib/patch-validator.ts:147-157 | it is valid exactly when every verdict is |
| Validator.ProposalValidIff | lib/patch-validator.ts:144-158 | a proposal is valid exactly when it has no error, and exactly when each of its changes is valid; the empty proposal is valid |
| Validator.ValidProposalPathsAreSafe | lib/patch-validator.ts:84-158 | a valid proposal touches only safe paths |
| Validator.PatchValidator.ValidateProposal | lib/patch-validator.ts:144-158 | the loop's result is `ProposalValidation`: the errors of every invalid change, in order |
| DiffParser.IndexOf | lib/diff-parser.ts:25 | a found position lies within the text, at or after the start |
| DiffParser.IndexOfFinds | lib/diff-parser.ts:25 | the search finds the first occurrence at or after its start, or there is none |
| DiffParser.BlocksStep | lib/diff-parser.ts:25 | one match: the text from the first opener to the first fence after it, then the matches after that fence |
| DiffParser.FirstBlock | lib/diff-parser.ts:25 | that text is a block: the opener, a body with no fence, the fence |
| DiffParser.BlocksAreBlocks | lib/diff-parser.ts:25 | every match for any opener is such a block and occurs in the text |
| DiffParser.FenceBlocksAreBlocks | lib/diff-parser.ts:25 | every ```` ```diff-suggestion ```` match is such a block and occurs in the markdown |
| DiffParser.NoOpenerNoBlocks | lib/diff-parser.ts:25-26 | text without an opener has no matches |
| DiffParser.ParseNoOpener | lib/diff-parser.ts:25-26 | markdown with no diff-suggestion opener yields no file diffs |
| DiffParser.SingleBlock | lib/diff-parser.ts:25 | a text that is exactly one block, with a fence-free body, yields that block |
| DiffParser.SingleFenceBlock | lib/diff-parser.ts:25 | a markdown message that is exactly one diff-suggestion block yields that block |
| DiffParser.FenceAfterBody | lib/diff-parser.ts:25 | the first fence after the opener of such a block is its closing fence |
| DiffParser.FenceFrom | lib/diff-parser.ts:25 | a fence search started anywhere in such a body stops at the closing fence |
| DiffParser.BodyHasNoFence | lib/diff-parser.ts:25 | no fence starts inside such a body |
| DiffParser.SpaceRun | lib/diff-parser.ts:30 | `\s*` reaches the end of the longest run of white space |
| DiffParser.LineEnd | lib/diff-parser.ts:30 | `.` can match up to the first line terminator, and not past it |
| DiffParser.LastNonTerminator | lib/diff-parser.ts:30 | the last character `.` can match, or none |
| DiffParser.GroupAt | lib/diff-parser.ts:30 | a group matched after `FILE:` is never empty |
| DiffParser.HeaderNamesFile | lib/diff-parser.ts:30-31 | the first line `FILE: name` gives the file name `name` |
| DiffParser.HeaderNamesFileAfter | lib/diff-parser.ts:30-31 | for any first line `pre + "FILE:" + rest` with no earlier "FILE:", where `rest` is one line holding a non-space character, the name is `rest` trimmed, whatever text precedes the marker, whatever padding surrounds the name and whatever lines follow |
| DiffParser.FileName | lib/diff-parser.ts:30-31 | the file name is always trimmed, whether found or the default "unknown" |
| DiffParser.NoHeaderUnknown | lib/diff-parser.ts:30-31 | a first line without `FILE:` matches nothing, so the block is named "unknown" |
| DiffParser.ParsedBlocks | lib/diff-parser.ts:24-64 | one file diff per diff-suggestion block, in order; each block occurs in the markdown, opens with the opener and ends at the first fence after it; each diff carries the block's file name and exactly the block's change lines from the second line on, with their kinds, their text after two characters and their line numbers |
| DiffParser.BlockDiff | lib/diff-parser.ts:29-63 | a block's diff has the file name of its first line and one change per change line after it, in order, each with the kind of its first character, its text after two characters, and original and new numbers counting the removes and context lines, and the adds and context lines, before it from 1 |
| DiffParser.ParseDiffSuggestions | lib/diff-parser.ts:24-64 | the method returns `ParseDiffSuggestion(markdown)` |
| DiffParser.ParseBlock | lib/diff-parser.ts:29-63 | the per-block loop with its two counters returns `BlockDiff(block)` |
| DiffParser.NumberStepAdvances | lib/diff-parser.ts:39-60 | each body line is skipped or appends one change carrying the current counters, advancing the original counter unless it is an add and the new counter unless it is a remove |
| DiffParser.NumberingCounts | lib/diff-parser.ts:34-59 | every change is numbered from 1 by the changes before it: an original number counts the removes and context lines so far, a new number counts the adds and context lines |
| DiffParser.CountsExtend | lib/diff-parser.ts:41-59 | appending a correctly numbered change keeps every change correctly numbered and advances the counts by its kind |
| DiffParser.ChangeLines | lib/diff-parser.ts:39-60 | the kept lines are exactly the change lines |
| DiffParser.ChangesAreChangeLines | lib/diff-parser.ts:37-60 | exactly the non-empty lines that do not start with `---` and start with `+`, `-` or space become changes, in order, with their kind and their text after two characters |
| DiffParser.FindLine | lib/diff-parser.ts:86-110 | the forward search stops at the first original line whose trimmed text matches, or at the end |
| DiffParser.MergeStep | lib/diff-parser.ts:79-112 | one accepted change never moves the index past the original |
| DiffParser.MergeChange | lib/diff-parser.ts:79-112 | the method for one accepted change computes `MergeStep` |
| DiffParser.ApplyDiffChanges | lib/diff-parser.ts:71-122 | the nested loops return `DiffMerge(originalContent, acceptedChanges)` |
| DiffParser.MergeFromAppend | lib/diff-parser.ts:78-113 | merging two lists of changes one after the other is merging their concatenation |
| DiffParser.DiffMerge | lib/diff-parser.ts:71-122 | no accepted changes return the content unchanged |
| DiffParser.MergeProvenance | lib/diff-parser.ts:78-119 | every line of the result is the text of an add, an original line copied by a context change whose trimmed text it matches, or an original line at or after where the merge stopped; original lines keep their order and appear at most once, so lines a search passed over are dropped; each change gives at most one line, in change order; every add appears and the add lines, in order, are exactly the adds' texts; every original line from where the merge stopped is appended |
| DiffParser.MergeOriginsFit | lib/diff-parser.ts:78-113 | during the loop, each merged line is an add's text or a copied original line before the index reached, in the order of the changes and of the original |
| DiffParser.MergeAtEnd | lib/diff-parser.ts:78-119 | once the original is used up, only adds contribute |
| DiffParser.UnmatchedLineDropsRest | lib/diff-parser.ts:86-119 | a context or remove line that matches nothing uses up the original: only later adds appear |
| DiffParser.MatchingRemoveDeletesLine | lib/diff-parser.ts:99-110 | a remove matching the first original line deletes exactly that line |
| DiffParser.MatchingContextKeepsLines | lib/diff-parser.ts:81-94 | context lines matching the original line by line copy exactly those lines |
| DiffParser.ContextMatchesNext | lib/diff-parser.ts:86-90 | a context line matching the next original line copies it |
| DiffParser.MatchingContextMerged | lib/diff-parser.ts:78-119 | on lines: matching context lines give back the original lines |
| DiffParser.MatchingContextReproduces | lib/diff-parser.ts:71-122 | on text: matching context lines give back the content |
| DiffParser.SearchMatched | lib/diff-parser.ts:86-107 | a search that stops at a match copies it for a context line, skips it for a remove, and moves past it |
| DiffParser.SearchMissed | lib/diff-parser.ts:86-110 | a search that reaches the end emits nothing and leaves the index at the end |
| FileStates.FileStateManager.constructor | lib/file-state-manager.ts:9 | the manager starts with no sessions |
| FileStates.Fresh | lib/file-state-manager.ts:16-21 | a new session has no reads, no modified paths, an empty log and `startTime` now |
| FileStates.Ensured | lib/file-state-manager.ts:14-24 | after `getSession`, the id is present, and no other id was added |
| FileStates.GetSessionKeepsExisting | lib/file-state-manager.ts:14-24 | a session is created only when absent; a repeat call returns the same record unreset, whatever the time |
| FileStates.GetSessionFrames | lib/file-state-manager.ts:14-24 | `getSession` touches no other session |
| FileStates.FileStateManager.GetSession | lib/file-state-manager.ts:14-24 | the new sessions are `Ensured` and the record returned is the stored one |
| FileStates.RecordReadStores | lib/file-state-manager.ts:36-45 | the path's entry holds the checksum of the content read at now; other paths, the modified set, the log, the start time and the other sessions are unchanged |
| FileStates.RecordReadReplaces | lib/file-state-manager.ts:40-44 | a later read of the same path replaces the earlier entry |
| FileStates.FileStateManager.RecordRead | lib/file-state-manager.ts:36-45 | the new sessions are `AfterRead` of the old |
| FileStates.RecordModifyAppends | lib/file-state-manager.ts:50-61 | the path joins the modified set and exactly one entry is appended at the end of the log, with the time, path, operation and checksum of the new content; nothing else changes |
| FileStates.FileStateManager.RecordModify | lib/file-state-manager.ts:50-61 | the new sessions are `AfterModify` of the old |
| FileStates.FileStateManager.GetFileState | lib/file-state-manager.ts:66-69 | creates the session if absent, and returns the recorded read of the path, if any |
| FileStates.FileStateManager.WasModifiedPath | lib/file-state-manager.ts:74-77 | creates the session if absent, and answers whether it lists the path as modified |
| FileStates.FileStateManager.GetChangeLog | lib/file-state-manager.ts:82-85 | creates the session if absent, and returns its log as a value that later calls cannot alter |
| FileStates.ClearSessionRemovesOnlyIt | lib/file-state-manager.ts:90-92 | only that session is removed, and the next `getSession` starts a fresh one |
| FileStates.FileStateManager.ClearSession | lib/file-state-manager.ts:90-92 | the new sessions are `AfterClear` of the old |
| FileStates.CleanupRemovesExactlyOld | lib/file-state-manager.ts:104-112 | exactly the sessions started before now − 3600000 are removed; the others are kept unchanged |
| FileStates.FileStateManager.CleanupOldSessions | lib/file-state-manager.ts:104-112 | the loop over the sessions leaves `AfterCleanup` of the old ones |
| FileStates.ModifiedUntilCleared | lib/file-state-manager.ts:50-112 | once a path is marked modified, it stays modified and the log only grows, through any calls until the session is cleared or reaped as old |
| FileStates.StepKeepsModified | lib/file-state-manager.ts:14-112 | one such call keeps the path modified and extends the log |
| FileStates.WasModifiedThenCleared | lib/file-state-manager.ts:50-92 | `wasModified` is true after `recordModify` and false just after `clearSession` |
| PlanExecutor.ExecuteValidationPhase | lib/plan-executor.ts:84-95 | passes with no errors and no warnings, whatever files it is given |
| PlanExecutor.UnauthorizedCounts | lib/plan-executor.ts:117-119 | each unplanned path occurs as often as it is patched, and a planned path not at all |
| PlanExecutor.UnauthorizedFiles | lib/plan-executor.ts:117-119 | no path is unauthorized exactly when every patched path is planned |
| PlanExecutor.UnauthorizedMembers | lib/plan-executor.ts:117-119 | a path is unauthorized exactly when it is patched and not planned |
| PlanExecutor.PositionsPick | lib/plan-executor.ts:117-119 | the unauthorized paths sit at increasing positions among the patched ones |
| PlanExecutor.UnauthorizedInOrder | lib/plan-executor.ts:117-119 | the unauthorized paths keep the patch order |
| PlanExecutor.Workflow | lib/plan-executor.ts:100-131 | the workflow returns exactly when every changed path is planned, with the plan and patches unchanged and a passing report; otherwise it throws the message listing the unplanned paths joined by ", " |
| PlanExecutor.OneStrayFile | lib/plan-executor.ts:116-125 | patches confined to the plan except for one stray path fail, and the error lists only that path |
| ModelRouter.SelectModel | lib/model-router.ts:14-32 | `plan` selects "gpt-5-mini-2025-08-07" and `edit` selects "gpt-5.1-codex-mini" |
| ModelRouter.GetModelConfig | lib/model-router.ts:14-66 | the configuration's name is the selected model, with the table's description |
| ModelRouter.ModelsDiffer | lib/model-router.ts:14-25 | the two task types go to different models |
| ModelRouter.InferTaskType | lib/model-router.ts:37-59 | a message is `plan` exactly when its lower-cased text contains one of the nine keywords, and `edit` exactly when it contains none |
| ModelRouter.EmptyIsEdit | lib/model-router.ts:37-59 | the empty message is `edit` |
| ModelRouter.CaseInsensitive | lib/model-router.ts:50 | the classification of a message and of its lower-cased form agree |
| ModelRouter.PlanSurvivesContext | lib/model-router.ts:52-56 | text added before or after a `plan` message keeps it `plan` |
| ModelRouter.KeywordMakesPlan | lib/model-router.ts:38-56 | any message containing a keyword is `plan` |
| Server.DetectComplexRequest | server.js:250-266 | a request is complex exactly when its lower-cased text contains one of the ten keywords, and simple exactly when it contains none |
| Server.DetectCaseInsensitive | server.js:264-265 | case does not matter, and the empty request is not complex |
| Server.SeveralFilesDisagree | server.js:251-262 | "several files" is complex for the handler but routed as an edit by `inferTaskType` |
| Server.OrganizeDisagrees | server.js:251-262 | "organize" is routed as a plan but is not complex for the handler |
| Server.InlineValidation | server.js:393-423 | valid exactly when there is no error |
| Server.InlineValidationRules | server.js:393-423 | an unsafe resolved path gives exactly the one error "Unsafe path: " followed by the path; otherwise a change is valid exactly when the library validator's per-operation rules hold, with no staleness check |
| Server.CollectEmptyIff | server.js:484-490 | the collected error list is empty exactly when all verdicts are valid |
| Server.ValidationErrorsEmptyIff | server.js:484-492 | the validation loop collects no error exactly when every change is valid |
| Server.ValidateChanges | server.js:484-490 | the loop's `allErrors` are the errors of each invalid change, in order, checked against the files before the request |
| Server.InlineStep | server.js:454-479 | the result names the change's path, and a failure changes no file. A modify of an existing file with any diff, even `''`, succeeds and writes `applyUnifiedDiff(old, diff)`; a create with any content, even `''`, succeeds and writes it; a delete of an existing file succeeds and removes it; an unknown operation succeeds and changes no file |
| Server.InlineStepRules | server.js:454-479 | the inline `applyChange` fails exactly when a modify's or delete's file is missing or a modify's diff or a create's content is absent, always with a message; no file other than the change's own changes |
| Server.InlineApplyChange | server.js:454-479 | the method's result and files are `InlineStep`'s |
| Server.InlineApplyUnifiedDiff | server.js:426-452 | the inline walk returns the same text as the library's `applyUnifiedDiff` on every input |
| Server.RunSteps | server.js:505-521 | at most one result per change, each on its change's path; every result but the last succeeded; with no failure every change was attempted |
| Server.RunExtends | server.js:506-521 | a run with no failure yet goes on with the next change |
| Server.RunStopsEarly | server.js:516-520 | after a failure, later changes are not attempted |
| Server.StopKeepsEarlierChanges | server.js:505-521 | a failure after successful changes ends the loop and keeps the files those changes wrote: nothing is rolled back |
| Server.InlineSteps | server.js:454-479 | the inline `applyChange` reports its path and changes no file when it fails |
| Server.ApplyRunFrame | server.js:505-521 | the apply loop leaves every file that none of its changes names exactly as it was, present or absent |
| Server.ApplyChanges | server.js:505-521 | the loop emits an `applying_patch` event before each attempted change and its results and files are the inline run's |
| Server.Streamed | server.js:346-359 | one `model_output` event per non-empty delta, in order |
| Server.StreamedSpellsResponse | server.js:354-357 | the streamed deltas add up to `fullResponse` |
| Server.StreamDeltas | server.js:343-359 | the streaming loop's events and `fullResponse` are `Streamed` and the deltas' concatenation |
| Server.ApplyingEventsGrow | server.js:506-513 | each attempted change adds its event at the end |
| Server.ProposalNeverPlans | server.js:482-539 | a proposal's events start with `validating_patches` and its count, and contain no `planning_started` |
| Server.EditNeverPlans | server.js:343-539 | the editing phase writes some event, and no `planning_started` |
| Server.PlanningStartedIffComplex | server.js:286-293 | the reply is never empty, and opens with `planning_started` exactly when the joined messages are complex |
| Server.PlanningNeverLater | server.js:270-550 | no event after the first is `planning_started` |
| Server.PlanFailureStops | server.js:315-330 | a planning output that does not parse ends the reply with `planning_started` and one error carrying "Planning failed: " and the first 200 characters; the files are unchanged |
| Server.ParseFailureStops | server.js:363-385 | editing output that is not JSON, or has no `changes` array, ends the reply with a single error after the streamed text, with the prefix and the first 200 characters, or the missing-array message; nothing is validated or written |
| Server.ChatEdit | server.js:287-340 | when planning lets the request through, the editing phase's events follow the planning events |
| Server.ChatProposal | server.js:346-387 | a proposal's events follow the streamed text |
| Server.ProposalRejected | server.js:482-500 | an invalid change gives `validating_patches` then `validation_failed` with every collected error, and changes no file |
| Server.InvalidProposalStops | server.js:482-500 | the same for the whole reply |
| Server.ProposalAccepted | server.js:482-539 | with every change valid, the apply loop runs and its summary closes the reply |
| Server.SummaryOfRun | server.js:523-539 | `done` with "Applied N changes successfully" exactly when every attempted change succeeded, N being the count; otherwise `patch_failed` naming the one failed change, the last attempted |
| Server.ValidProposalApplied | server.js:482-539 | a valid proposal is applied in order: `applying_patch` before each attempted change, stopping after the first failure, then the summary |
| Server.OnlyLastFailed | server.js:534-537 | when only the last result failed, `patch_failed` lists `path: error` for that result |
| Server.AllSucceededNoLines | server.js:534-537 | successful results give no failure line |
| Server.DeleteThenModifyLosesFile | server.js:393-539 | a delete then a modify of the same file both pass validation, which looks at the files before the request; the delete goes through, the modify fails to read the file, and the deleted file stays deleted |
| Server.ProposalStage | server.js:482-539 | the method's events and files are `ProposalPhase`'s |
| Server.EditStage | server.js:343-539 | the method's events and files are `EditPhase`'s |
| Server.HandleChat | server.js:270-550 | the handler's events and files are `Chat`'s |
| Server.Chat | server.js:270-550 | only a parsed proposal can change the files: a failed plan, or an editing output that is not JSON, is `null` or has no `changes` array, leaves them as they were |

## Left out

- The OpenAI client, the agent definitions, prompt texts and the streaming runs are network calls. Their outputs are inputs: the planning text and whether it parsed, the editing deltas, and what parsing gave. This includes the edit prompt that lists the planned files.
- `JSON.parse` and `JSON.stringify` are not modelled. A parse result is a datatype, and a parsed plan is carried as the text `plan_created` prints.
- The outer `catch` of the handler is modelled only for output that parses to JSON `null`, where reading `changes` throws. Other runtime exceptions (malformed change records, a `messages` that is not an array) are not.
- Change records are well-formed: `path` is a string, and `diff` and `content` are absent or strings. An operation other than the three known ones is `Unknown(name)`.
- Directories are not modelled. `mkdir` is a no-op, and a write always succeeds. Injected I/O failures, such as permission errors or a failing `writeFile`, are not modelled: only missing files fail.
- The `catch` in the library's `validateChange`, and the per-entry `catch` of `rollback` beyond a missing file, are modelled as never firing. No other I/O error exists in the model.
- SHA-256 is modelled as a digest holding the content. Collisions are not modelled.
- `Date.now()` is one `now` argument per call. When `recordRead` or `recordModify` meets a session that does not exist yet, the source reads the clock twice: once for the new session's `startTime` in `getSession` (lib/file-state-manager.ts:20) and again for the entry (:43 or :56). The model uses the one `now` for both, so such a session's `startTime` equals its first entry's time.
- `toLowerCase` lower-cases ASCII letters only. `substring(0, 200)` counts characters of the model's string, not UTF-16 code units.
- The regular expressions of `parseDiffSuggestion` are written out by hand for their patterns only. This covers the lazy fence match, and `FILE:\s*(.+)` with JavaScript's white-space and line-terminator classes.
- `ModelRouter.GetModelConfig`: `costPerToken` is an exact decimal rather than a floating-point number, and no property is stated about it.
- The workspace directory is assumed absolute, so `path.resolve` never consults the process's working directory.
- `getAllSessions` is a debugging listing whose order is Map insertion order. Maps here are unordered, so it has no counterpart.
- `executePlanPhase` and `executeEditPhase` only wrap agent runs. The workflow takes their parsed results as inputs.
- Concurrency between requests and async interleaving are not modelled: each request and each call runs sequentially.
- Out of scope, as I/O or interface code outside the patch pipeline:
  - the other endpoints (`/api/save-files`, `/api/list-workspace-files`);
  - the `read_file` and `list_files` agent tools;
  - the terminal, WebSocket and Pyodide worker;
  - the React pages;
  - the Supabase actions.
