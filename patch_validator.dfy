/**
 * lib/patch-validator.ts: path safety, staleness detection by checksum, and
 * the per-operation checks a change must pass before it is applied.
 */
module Validator {
  import opened Wrappers
  import opened Strings
  import opened Schema
  import opened Paths
  import Disk

  /* ---------------- Messages ---------------- */

  /** The start of the message for a path that resolves outside the workspace. */
  const TraversalDetected: string := "Path traversal detected: "

  /** The start of the message for a change whose path is not safe. */
  const UnsafePath: string := "Unsafe path: "

  /** The start of the message for a modify of a missing file. */
  const ModifyMissing: string := "Cannot modify non-existent file: "

  /** The start of the message for a modify without a diff. */
  const ModifyNoDiff: string := "Modify operation requires diff: "

  /** The start of the message for a modify of a file changed since it was read. */
  const FileChanged: string := "File has changed since last read: "

  /** The start of the message for a create of an existing file. */
  const CreateExisting: string := "Cannot create existing file: "

  /** The start of the message for a create without content. */
  const CreateNoContent: string := "Create operation requires content: "

  /** The start of the message for a delete of a missing file. */
  const DeleteMissing: string := "Cannot delete non-existent file: "

  /** The start of the message for an operation it does not know. */
  const UnknownOperation: string := "Unknown operation: "

  /* ---------------- Paths ---------------- */

  /** `normalizePath(p)`; the thrown "Path traversal detected" error becomes a `Failure`. */
  function NormalizePath(ws: string, p: string): (r: Result<string>)
    ensures r.Failure? <==> !StartsWith(Resolve(ws, Normalize(p)), ws)
    ensures r.Failure? ==> r.error == TraversalDetected + p
    ensures r.Success? ==> r.value == Relative(ws, Resolve(ws, Normalize(p)))
  {
    var resolved := Resolve(ws, Normalize(p));
    if !StartsWith(resolved, ws) then Failure(TraversalDetected + p)
    else Success(Relative(ws, resolved))
  }

  /** `isPathSafe(p)`: `normalizePath` does not throw, that is, the resolved path lies under the workspace. */
  function IsPathSafe(ws: string, p: string): (safe: bool)
    ensures safe <==> StartsWith(Resolve(ws, Normalize(p)), ws)
  {
    NormalizePath(ws, p).Success?
  }

  /** A relative path with no ".." segment is always safe. */
  lemma RelativePathsWithoutParentAreSafe(ws: string, p: string)
    requires IsResolvedDirectory(ws)
    requires !IsAbsolute(p) && ".." !in Split(p, '/')
    ensures IsPathSafe(ws, p)
  {
    RelativeWithoutParentStaysInside(ws, p);
  }

  /** The parent directory of a workspace other than the root is refused. */
  lemma ParentDirectoryRejected(ws: string)
    requires IsResolvedDirectory(ws) && ws != "/"
    ensures NormalizePath(ws, "..") == Failure("Path traversal detected: ..")
  {
    NormalizeParent();
    ResolveParent(ws);
  }

  /**
   * The containment test is a string prefix test, so a sibling directory
   * whose name extends the workspace's name is accepted, and `normalizePath`
   * hands back a path that climbs out of the workspace.
   */
  lemma SiblingDirectoryAccepted(parent: seq<string>, name: string, suffix: string, f: string)
    requires AllNames(parent + [name]) && suffix != "" && '/' !in suffix && IsName(f)
    ensures var ws := Render(parent + [name]);
      var p := "../" + (name + suffix) + "/" + f;
      NormalizePath(ws, p) == Success(p)
      && Resolve(ws, Normalize(p)) == Render(parent + [name + suffix, f])
      && !StartsWith(Resolve(ws, Normalize(p)), ws + "/")
  {
    var w := parent + [name];
    var ws := Render(w);
    var sibling := name + suffix;
    var p := "../" + sibling + "/" + f;
    AbsoluteSegmentsOfRender(w);
    assert IsName(name) by {
      assert w[|w| - 1] == name;
    }
    assert IsName(sibling) by {
      assert sibling[..|name|] == name;
    }
    ClimbIsNormal(sibling, f);
    var t := parent + [sibling, f];
    var resolved := Render(t);
    SiblingResolves(parent, name, sibling, f);
    SiblingRelative(parent, name, sibling, f);
    SiblingSharesPrefix(parent, name, suffix, f);
  }

  /** The sibling's path starts with the workspace's text, but not with the workspace followed by "/". */
  lemma SiblingSharesPrefix(parent: seq<string>, name: string, suffix: string, f: string)
    requires name != "" && suffix != "" && '/' !in suffix
    ensures var ws := Render(parent + [name]);
      var resolved := Render(parent + [name + suffix, f]);
      StartsWith(resolved, ws) && !StartsWith(resolved, ws + "/")
  {
    var ws := Render(parent + [name]);
    var sibling := name + suffix;
    var t := parent + [sibling, f];
    var resolved := Render(t);
    assert StartsWith(resolved, ws + suffix) by {
      assert t == (parent + [sibling]) + [f];
      RenderExtends(parent + [sibling], [f]);
      RenderExtendLast(parent, name, suffix);
    }
    assert resolved[..|ws|] == (ws + suffix)[..|ws|] == ws;
    assert resolved[|ws|] == (ws + suffix)[|ws|] == suffix[0];
    assert suffix[0] in suffix;
  }

  lemma SiblingResolves(parent: seq<string>, name: string, sibling: string, f: string)
    requires AllNames(parent + [name]) && IsName(sibling) && IsName(f)
    ensures Resolve(Render(parent + [name]), "../" + sibling + "/" + f) == Render(parent + [sibling, f])
  {
    var w := parent + [name];
    var ws := Render(w);
    var p := "../" + sibling + "/" + f;
    AbsoluteSegmentsOfRender(w);
    ClimbIsNormal(sibling, f);
    ResolveRelative(ws, p);
    assert NormalizeSegments(false, w, ["..", sibling, f]) == NormalizeSegments(false, parent, [sibling, f]) by {
      assert IsName(w[|w| - 1]);
      assert StepSegment(false, w, "..") == parent;
    }
    NormalizeWithoutParent(false, parent, [sibling, f]);
    NamesOfNames([sibling, f]);
  }

  lemma SiblingRelative(parent: seq<string>, name: string, sibling: string, f: string)
    requires AllNames(parent + [name]) && IsName(sibling) && IsName(f) && name != sibling
    ensures Relative(Render(parent + [name]), Render(parent + [sibling, f])) == "../" + sibling + "/" + f
  {
    var w := parent + [name];
    var t := parent + [sibling, f];
    AbsoluteSegmentsOfRender(w);
    assert AllNames(t) by {
      AllNamesAppend(parent, [name]);
      AllNamesAppend(parent, [sibling, f]);
    }
    AbsoluteSegmentsOfRender(t);
    assert t == parent + [sibling] + [f];
    CommonPrefixDiverges(parent, name, sibling, [f]);
    assert seq(|w| - |parent|, _ => "..") + t[|parent|..] == ["..", sibling, f];
    ClimbIsNormal(sibling, f);
  }

  /** "../s/f" for names s and f is already normal. */
  lemma ClimbIsNormal(sibling: string, f: string)
    requires IsName(sibling) && IsName(f)
    ensures var p := "../" + sibling + "/" + f;
      Split(p, '/') == ["..", sibling, f] && Join(["..", sibling, f], "/") == p && Normalize(p) == p
  {
    var p := "../" + sibling + "/" + f;
    var segs := ["..", sibling, f];
    assert Split(p, '/') == segs by {
      assert p == ".." + ['/'] + (sibling + ['/'] + f);
      SplitNoSeparator(f, '/');
      SplitAfterPiece(sibling, '/', f);
      SplitAfterPiece("..", '/', sibling + ['/'] + f);
    }
    assert Join(segs, "/") == p by {
      JoinSplit(p, '/');
    }
    assert AllNames([sibling, f]);
    assert StepSegment(true, [], "..") == [".."];
    NormalizeWithoutParent(true, [".."], [sibling, f]);
    NamesOfNames([sibling, f]);
    assert NormalizeSegments(true, [], segs) == segs;
    assert p[|p| - 1] == f[|f| - 1] && f[|f| - 1] in f;
  }

  /* ---------------- Staleness ---------------- */

  /** `recordFileRead(p, content)` at time `now`, keyed by the path exactly as given. */
  function RecordRead(states: map<string, FileState>, p: string, content: string, now: int): (r: map<string, FileState>)
    ensures p in r && r[p].checksum == Checksum(content) && r[p].lastRead == now
    ensures forall q :: q != p ==> (q in r <==> q in states) && (q in states ==> r[q] == states[q])
  {
    states[p := FileState(p, Checksum(content), now)]
  }

  /** `hasFileChanged(p)`: recorded, and now unreadable or with a different checksum. */
  predicate Changed(ws: string, states: map<string, FileState>, files: map<string, string>, p: string)
  {
    var full := JoinPath(ws, p);
    p in states && (full !in files || Checksum(files[full]) != states[p].checksum)
  }

  /** A file read and left alone has not changed. */
  lemma ReadThenUnchanged(ws: string, states: map<string, FileState>, files: map<string, string>, p: string, now: int)
    requires JoinPath(ws, p) in files
    ensures !Changed(ws, RecordRead(states, p, files[JoinPath(ws, p)], now), files, p)
  {
  }

  /** A file whose text differs from what was read, or that has gone, has changed. */
  lemma EditAfterReadDetected(ws: string, states: map<string, FileState>, files: map<string, string>, p: string, read: string, now: int)
    requires JoinPath(ws, p) !in files || files[JoinPath(ws, p)] != read
    ensures Changed(ws, RecordRead(states, p, read, now), files, p)
  {
    if JoinPath(ws, p) in files {
      ChecksumInjective(files[JoinPath(ws, p)], read);
    }
  }

  /** A file never read is never reported as changed. */
  lemma UnreadNeverChanged(ws: string, states: map<string, FileState>, files: map<string, string>, p: string)
    requires p !in states
    ensures !Changed(ws, states, files, p)
  {
  }

  /* ---------------- Validation ---------------- */

  /**
   * The errors of a change, by operation, once its path is known to be safe:
   * `present` says whether the file exists, `stale` whether it has changed
   * since it was read.
   */
  function OperationErrors(c: Change, present: bool, stale: bool): seq<string>
  {
    var none: seq<string> := [];
    match c.operation
    case Modify =>
      var missing := if !present then none + [ModifyMissing + c.path] else none;
      var undiffed := if !Provided(c.diff) then missing + [ModifyNoDiff + c.path] else missing;
      if stale then undiffed + [FileChanged + c.path] else undiffed
    case Create =>
      var existing := if present then none + [CreateExisting + c.path] else none;
      if !Provided(c.content) then existing + [CreateNoContent + c.path] else existing
    case Delete =>
      if !present then none + [DeleteMissing + c.path] else none
    case Unknown(name) =>
      none + [UnknownOperation + name]
  }

  /** `validateChange(change)`. */
  function ChangeValidation(ws: string, states: map<string, FileState>, files: map<string, string>, c: Change): (r: ValidationResult)
    ensures r.valid <==> |r.errors| == 0
    ensures !IsPathSafe(ws, c.path) ==> r.errors == [UnsafePath + c.path]
  {
    if !IsPathSafe(ws, c.path) then ValidationResult(false, [UnsafePath + c.path])
    else
      var n := NormalizePath(ws, c.path).value;
      var errors := OperationErrors(c, JoinPath(ws, n) in files, Changed(ws, states, files, n));
      ValidationResult(|errors| == 0, errors)
  }

  /** A change is valid exactly when its path is safe and its operation's own conditions hold. */
  lemma ChangeValidIff(ws: string, states: map<string, FileState>, files: map<string, string>, c: Change)
    ensures ChangeValidation(ws, states, files, c).valid <==> (IsPathSafe(ws, c.path) &&
      var n := NormalizePath(ws, c.path).value;
      var present := JoinPath(ws, n) in files;
      match c.operation
      case Modify => present && Provided(c.diff) && !Changed(ws, states, files, n)
      case Create => !present && Provided(c.content)
      case Delete => present
      case Unknown(_) => false)
  {
  }

  /** A modify of a missing file, without a diff, that had been read, draws all three errors in order. */
  lemma ModifyReportsEveryProblem(ws: string, states: map<string, FileState>, files: map<string, string>, c: Change)
    requires c.operation.Modify? && !Provided(c.diff) && IsPathSafe(ws, c.path)
    requires var n := NormalizePath(ws, c.path).value; JoinPath(ws, n) !in files && n in states
    ensures ChangeValidation(ws, states, files, c).errors == [
      ModifyMissing + c.path,
      ModifyNoDiff + c.path,
      FileChanged + c.path]
  {
  }

  /** A safe change whose operation is none of the three draws exactly one error, naming the operation. */
  lemma UnknownOperationOneError(ws: string, states: map<string, FileState>, files: map<string, string>, c: Change)
    requires c.operation.Unknown? && IsPathSafe(ws, c.path)
    ensures ChangeValidation(ws, states, files, c) == ValidationResult(false, [UnknownOperation + c.operation.name])
  {
  }

  /**
   * Reads are recorded under the path as given but looked up under its
   * normalised form: a file read as "./a" that has changed since is
   * reported as changed under "./a", yet a modify of "./a" passes the
   * staleness check.
   */
  lemma StaleCheckMissesUnnormalizedKey(ws: string, a: string, files: map<string, string>, read: string, diff: string, now: int)
    requires IsResolvedDirectory(ws) && IsName(a) && diff != ""
    requires var key := Render(AbsoluteSegments(ws) + [a]); key in files && files[key] != read
    ensures var states := RecordRead(map[], "./" + a, read, now);
      Changed(ws, states, files, "./" + a)
      && ChangeValidation(ws, states, files, Change("./" + a, Modify, Some(diff), None)).valid
  {
    var key := Render(AbsoluteSegments(ws) + [a]);
    var states := RecordRead(map[], "./" + a, read, now);
    DotNameNormalizes(ws, a);
    JoinDotName(ws, a);
    ChecksumInjective(files[key], read);
    assert Changed(ws, states, files, "./" + a);
    ChangeValidIff(ws, states, files, Change("./" + a, Modify, Some(diff), None));
    assert a !in states by {
      assert |a| != |"./" + a|;
    }
  }

  /** "./a" for a name `a` is safe and normalises to "a". */
  lemma DotNameNormalizes(ws: string, a: string)
    requires IsResolvedDirectory(ws) && IsName(a)
    ensures NormalizePath(ws, "./" + a) == Success(a)
  {
    var w := AbsoluteSegments(ws);
    NormalizeDotName(a);
    ResolveName(ws, a);
    ResolvedDirectoryShape(ws);
    RenderExtends(w, [a]);
    RelativeToDescendant(ws, [a]);
  }

  /** The result of `validateChange` for each change, in order. Its ensures only unfolds the definition element by element, for the solver; the lemmas about it carry the meaning. */
  function Verdicts(ws: string, states: map<string, FileState>, files: map<string, string>, changes: seq<Change>): (r: seq<ValidationResult>)
    ensures |r| == |changes|
    ensures forall i :: 0 <= i < |changes| ==> r[i] == ChangeValidation(ws, states, files, changes[i])
  {
    seq(|changes|, i requires 0 <= i < |changes| => ChangeValidation(ws, states, files, changes[i]))
  }

  /** The loop of `validateProposal` over the results: the errors of every invalid one, in order. */
  function CollectValidations(results: seq<ValidationResult>): (r: ValidationResult)
    ensures r.valid <==> |r.errors| == 0
    decreases |results|
  {
    if results == [] then ValidationResult(true, [])
    else
      var prior := CollectValidations(results[..|results| - 1]);
      var v := results[|results| - 1];
      var errors := if v.valid then prior.errors else prior.errors + v.errors;
      ValidationResult(|errors| == 0, errors)
  }

  /** When every result is valid exactly when it has no errors, the collection is valid exactly when every result is. */
  lemma {:induction false} CollectValidIff(results: seq<ValidationResult>)
    requires forall i :: 0 <= i < |results| ==> (results[i].valid <==> |results[i].errors| == 0)
    ensures CollectValidations(results).valid <==> forall i :: 0 <= i < |results| ==> results[i].valid
    decreases |results|
  {
    if results != [] {
      var prior := results[..|results| - 1];
      assert forall i :: 0 <= i < |prior| ==> prior[i] == results[i];
      CollectValidIff(prior);
    }
  }

  /** `validateProposal(changes)`: the errors of every invalid change, in order. */
  function ProposalValidation(ws: string, states: map<string, FileState>, files: map<string, string>, changes: seq<Change>): ValidationResult
  {
    CollectValidations(Verdicts(ws, states, files, changes))
  }

  /** A proposal is valid exactly when it has no errors, and exactly when each of its changes is valid. */
  lemma ProposalValidIff(ws: string, states: map<string, FileState>, files: map<string, string>, changes: seq<Change>)
    ensures var r := ProposalValidation(ws, states, files, changes);
      (r.valid <==> |r.errors| == 0)
      && (r.valid <==> forall i :: 0 <= i < |changes| ==> ChangeValidation(ws, states, files, changes[i]).valid)
  {
    CollectValidIff(Verdicts(ws, states, files, changes));
  }

  /** A valid proposal touches only safe paths. */
  lemma ValidProposalPathsAreSafe(ws: string, states: map<string, FileState>, files: map<string, string>, changes: seq<Change>)
    requires ProposalValidation(ws, states, files, changes).valid
    ensures forall i :: 0 <= i < |changes| ==> IsPathSafe(ws, changes[i].path)
  {
    ProposalValidIff(ws, states, files, changes);
    forall i | 0 <= i < |changes|
      ensures IsPathSafe(ws, changes[i].path)
    {
      assert ChangeValidation(ws, states, files, changes[i]).valid;
    }
  }

  /* ---------------- The class ---------------- */

  class PatchValidator {
    const workspaceDir: string
    const fs: Disk.FileSystem
    var fileStates: map<string, FileState>

    constructor (workspaceDir: string, fs: Disk.FileSystem)
      ensures this.workspaceDir == workspaceDir && this.fs == fs && fileStates == map[]
    {
      this.workspaceDir := workspaceDir;
      this.fs := fs;
      fileStates := map[];
    }

    /** `recordFileRead(p, content)`, with `Date.now()` passed in. */
    method RecordFileRead(p: string, content: string, now: int)
      modifies this
      ensures fileStates == RecordRead(old(fileStates), p, content, now)
    {
      fileStates := fileStates[p := FileState(p, Checksum(content), now)];
    }

    /** `hasFileChanged(p)`. */
    method HasFileChanged(p: string) returns (changed: bool)
      ensures changed == Changed(workspaceDir, fileStates, fs.files, p)
    {
      if p !in fileStates {
        return false;
      }
      var state := fileStates[p];
      var current := fs.ReadFile(JoinPath(workspaceDir, p));
      if current.Failure? {
        return true;
      }
      changed := Checksum(current.value) != state.checksum;
    }

    /** `validateChange(change)`. */
    method ValidateChange(change: Change) returns (r: ValidationResult)
      ensures r == ChangeValidation(workspaceDir, fileStates, fs.files, change)
    {
      var errors: seq<string> := [];
      var normalized := NormalizePath(workspaceDir, change.path);
      if normalized.Failure? {
        errors := errors + [UnsafePath + change.path];
        return ValidationResult(false, errors);
      }
      var fullPath := JoinPath(workspaceDir, normalized.value);
      var fileExists := fs.Exists(fullPath);
      match change.operation {
        case Modify =>
          if !fileExists {
            errors := errors + [ModifyMissing + change.path];
          }
          if !Provided(change.diff) {
            errors := errors + [ModifyNoDiff + change.path];
          }
          var stale := HasFileChanged(normalized.value);
          if stale {
            errors := errors + [FileChanged + change.path];
          }
          assert errors == OperationErrors(change, fileExists, stale);
        case Create =>
          if fileExists {
            errors := errors + [CreateExisting + change.path];
          }
          if !Provided(change.content) {
            errors := errors + [CreateNoContent + change.path];
          }
        case Delete =>
          if !fileExists {
            errors := errors + [DeleteMissing + change.path];
          }
        case Unknown(name) =>
          errors := errors + [UnknownOperation + name];
      }
      return ValidationResult(|errors| == 0, errors);
    }

    /** `validateProposal(changes)`. */
    method ValidateProposal(changes: seq<Change>) returns (r: ValidationResult)
      ensures r == ProposalValidation(workspaceDir, fileStates, fs.files, changes)
    {
      ghost var verdicts := Verdicts(workspaceDir, fileStates, fs.files, changes);
      var allErrors: seq<string> := [];
      for i := 0 to |changes|
        invariant allErrors == CollectValidations(verdicts[..i]).errors
      {
        assert verdicts[..i + 1][..i] == verdicts[..i];
        var result := ValidateChange(changes[i]);
        if !result.valid {
          allErrors := allErrors + result.errors;
        }
      }
      assert verdicts[..|changes|] == verdicts;
      return ValidationResult(|allErrors| == 0, allErrors);
    }
  }
}
