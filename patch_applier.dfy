/**
 * lib/patch-applier.ts: the sequential unified-diff walk, and the
 * `PatchApplier` class that applies changes in order, keeps a backup of
 * what each applied change replaced, and can roll the backups back.
 */
module Applier {
  import opened Wrappers
  import opened Strings
  import opened Schema
  import Paths
  import Disk

  /* ---------------- applyUnifiedDiff ---------------- */

  /** The lines emitted so far and the position reached in the original lines. */
  datatype Cursor = Cursor(out: seq<string>, index: nat)

  /** A diff line the walk ignores: a hunk header, or one starting with none of '+', '-', ' '. */
  predicate Inert(line: string)
  {
    StartsWith(line, "@@") || !(StartsWith(line, "+") || StartsWith(line, "-") || StartsWith(line, " "))
  }

  /** What one diff line does: '+' emits its rest, '-' skips an original line, ' ' copies one if any is left. */
  function DiffStep(original: seq<string>, c: Cursor, line: string): Cursor
  {
    if StartsWith(line, "@@") then c
    else if StartsWith(line, "+") then Cursor(c.out + [line[1..]], c.index)
    else if StartsWith(line, "-") then Cursor(c.out, c.index + 1)
    else if StartsWith(line, " ") then
      if c.index < |original| then Cursor(c.out + [original[c.index]], c.index + 1) else c
    else c
  }

  /** The cursor after walking the diff lines from `start`, first line first. */
  function DiffWalk(original: seq<string>, start: Cursor, lines: seq<string>): Cursor
    decreases |lines|
  {
    if lines == [] then start
    else DiffStep(original, DiffWalk(original, start, lines[..|lines| - 1]), lines[|lines| - 1])
  }

  /** The original lines the walk has not consumed, appended at the end. */
  function Remaining(original: seq<string>, index: nat): seq<string>
  {
    if index < |original| then original[index..] else []
  }

  lemma RemainingStep(original: seq<string>, index: nat)
    requires index < |original|
    ensures Remaining(original, index) == [original[index]] + Remaining(original, index + 1)
  {
  }

  /** The lines `applyUnifiedDiff` joins into its result. */
  function PatchedLines(original: seq<string>, diffLines: seq<string>): seq<string>
  {
    var c := DiffWalk(original, Cursor([], 0), diffLines);
    c.out + Remaining(original, c.index)
  }

  /** `applyUnifiedDiff(original, diff)`; an empty diff returns the original text exactly. */
  function UnifiedPatch(original: string, diff: string): (r: string)
    ensures diff == "" ==> r == original
  {
    var lines := Split(original, '\n');
    EmptyDiffKeepsLines(lines);
    JoinSplit(original, '\n');
    Join(PatchedLines(lines, Split(diff, '\n')), "\n")
  }

  /** Walking two diffs in a row is walking their concatenation. */
  lemma {:induction false} DiffWalkAppend(original: seq<string>, start: Cursor, a: seq<string>, b: seq<string>)
    ensures DiffWalk(original, start, a + b) == DiffWalk(original, DiffWalk(original, start, a), b)
    decreases |b|
  {
    if b == [] {
      assert a + b == a;
    } else {
      assert (a + b)[..|a + b| - 1] == a + b[..|b| - 1];
      DiffWalkAppend(original, start, a, b[..|b| - 1]);
    }
  }

  /** An ignored line can be removed from anywhere in a diff without changing the result. */
  lemma InertLineHasNoEffect(original: seq<string>, a: seq<string>, line: string, b: seq<string>)
    requires Inert(line)
    ensures PatchedLines(original, a + [line] + b) == PatchedLines(original, a + b)
  {
    var start := Cursor([], 0);
    DiffWalkAppend(original, start, a + [line], b);
    assert (a + [line])[..|a + [line]| - 1] == a;
    assert DiffWalk(original, start, a + [line]) == DiffWalk(original, start, a);
    DiffWalkAppend(original, start, a, b);
  }

  /** The empty diff splits into one empty line, which the walk ignores. */
  lemma EmptyDiffKeepsLines(lines: seq<string>)
    ensures PatchedLines(lines, Split("", '\n')) == lines
  {
    assert Split("", '\n') == [""];
    assert DiffWalk(lines, Cursor([], 0), [""]) == Cursor([], 0);
    assert lines[0..] == lines;
  }

  /** A diff of context and ignored lines only reproduces the original lines. */
  lemma {:induction false} ContextWalkCopies(original: seq<string>, lines: seq<string>)
    requires forall i :: 0 <= i < |lines| ==> !StartsWith(lines[i], "+") && !StartsWith(lines[i], "-")
    ensures var c := DiffWalk(original, Cursor([], 0), lines);
      c.index <= |original| && c.out == original[..c.index]
    decreases |lines|
  {
    if lines != [] {
      ContextWalkCopies(original, lines[..|lines| - 1]);
      var c := DiffWalk(original, Cursor([], 0), lines[..|lines| - 1]);
      if c.index < |original| {
        assert original[..c.index + 1] == original[..c.index] + [original[c.index]];
      }
    }
  }

  lemma ContextOnlyKeepsLines(original: seq<string>, lines: seq<string>)
    requires forall i :: 0 <= i < |lines| ==> !StartsWith(lines[i], "+") && !StartsWith(lines[i], "-")
    ensures PatchedLines(original, lines) == original
  {
    ContextWalkCopies(original, lines);
    var c := DiffWalk(original, Cursor([], 0), lines);
    if c.index < |original| {
      assert original[..c.index] + original[c.index..] == original;
    }
  }

  /** The '+' payloads of some diff lines, in order. */
  function Additions(lines: seq<string>): seq<string>
    decreases |lines|
  {
    if lines == [] then []
    else
      var last := lines[|lines| - 1];
      Additions(lines[..|lines| - 1]) + (if StartsWith(last, "+") then [last[1..]] else [])
  }

  /** With only '+' and ignored lines, the additions come first and the whole original follows. */
  lemma {:induction false} AdditionsWalk(original: seq<string>, lines: seq<string>)
    requires forall i :: 0 <= i < |lines| ==> StartsWith(lines[i], "+") || Inert(lines[i])
    ensures DiffWalk(original, Cursor([], 0), lines) == Cursor(Additions(lines), 0)
    decreases |lines|
  {
    if lines != [] {
      var prefix := lines[..|lines| - 1];
      var last := lines[|lines| - 1];
      assert forall i :: 0 <= i < |prefix| ==> prefix[i] == lines[i];
      AdditionsWalk(original, prefix);
      assert DiffWalk(original, Cursor([], 0), lines) == DiffStep(original, Cursor(Additions(prefix), 0), last);
      assert Additions(lines) == Additions(prefix) + (if StartsWith(last, "+") then [last[1..]] else []);
      if StartsWith(last, "+") {
        StartsWithHead(last, "+");
        StartsWithHead(last, "@@");
        assert !StartsWith(last, "@@");
      } else {
        assert Inert(lines[|lines| - 1]);
      }
    }
  }

  lemma AdditionsOnly(original: seq<string>, lines: seq<string>)
    requires forall i :: 0 <= i < |lines| ==> StartsWith(lines[i], "+") || Inert(lines[i])
    ensures PatchedLines(original, lines) == Additions(lines) + original
  {
    AdditionsWalk(original, lines);
    if |original| == 0 {
      assert Remaining(original, 0) == [] == original;
    } else {
      assert original[0..] == original;
    }
  }

  /** k '-' lines drop the first k original lines, and everything once k overruns the original. */
  lemma {:induction false} DeletionsWalk(original: seq<string>, lines: seq<string>)
    requires forall i :: 0 <= i < |lines| ==> StartsWith(lines[i], "-")
    ensures DiffWalk(original, Cursor([], 0), lines) == Cursor([], |lines|)
    decreases |lines|
  {
    if lines != [] {
      DeletionsWalk(original, lines[..|lines| - 1]);
      assert !StartsWith(lines[|lines| - 1], "@@") && !StartsWith(lines[|lines| - 1], "+");
    }
  }

  lemma DeletionsOnly(original: seq<string>, lines: seq<string>)
    requires forall i :: 0 <= i < |lines| ==> StartsWith(lines[i], "-")
    ensures PatchedLines(original, lines) == Remaining(original, |lines|)
  {
    DeletionsWalk(original, lines);
  }

  /** Where an output line of the walk comes from: an original line, or the payload of a '+' line. */
  datatype Source = FromOriginal(line: nat) | FromDiff(line: nat)

  /** The sources of the lines the walk emits, in emission order. */
  ghost function WalkSources(original: seq<string>, lines: seq<string>): seq<Source>
    decreases |lines|
  {
    if lines == [] then []
    else
      var prefix := lines[..|lines| - 1];
      var line := lines[|lines| - 1];
      var c := DiffWalk(original, Cursor([], 0), prefix);
      var s := WalkSources(original, prefix);
      if StartsWith(line, "@@") then s
      else if StartsWith(line, "+") then s + [FromDiff(|lines| - 1)]
      else if StartsWith(line, "-") then s
      else if StartsWith(line, " ") && c.index < |original| then s + [FromOriginal(c.index)]
      else s
  }

  /** The sources of every line `applyUnifiedDiff` returns. */
  ghost function PatchSources(original: seq<string>, lines: seq<string>): seq<Source>
  {
    var c := DiffWalk(original, Cursor([], 0), lines);
    WalkSources(original, lines)
      + seq(|Remaining(original, c.index)|, k requires 0 <= k < |Remaining(original, c.index)| => FromOriginal(c.index + k))
  }

  /** The text a source stands for. */
  ghost predicate Denotes(original: seq<string>, lines: seq<string>, s: Source, text: string)
  {
    match s
    case FromOriginal(i) => i < |original| && original[i] == text
    case FromDiff(j) => j < |lines| && StartsWith(lines[j], "+") && lines[j][1..] == text
  }

  /** Original lines appear in original order, each at most once; '+' payloads appear in diff order. */
  ghost predicate Ordered(sources: seq<Source>)
  {
    forall a, b :: 0 <= a < b < |sources| ==>
      (sources[a].FromOriginal? && sources[b].FromOriginal? ==> sources[a].line < sources[b].line)
      && (sources[a].FromDiff? && sources[b].FromDiff? ==> sources[a].line < sources[b].line)
  }

  lemma {:induction false} WalkSourcesDenote(original: seq<string>, lines: seq<string>)
    ensures var c := DiffWalk(original, Cursor([], 0), lines);
      var s := WalkSources(original, lines);
      |s| == |c.out| && forall k :: 0 <= k < |s| ==> Denotes(original, lines, s[k], c.out[k])
    decreases |lines|
  {
    if lines != [] {
      var prefix := lines[..|lines| - 1];
      WalkSourcesDenote(original, prefix);
      var s := WalkSources(original, prefix);
      var c := DiffWalk(original, Cursor([], 0), prefix);
      forall k | 0 <= k < |s|
        ensures Denotes(original, lines, s[k], c.out[k])
      {
        assert Denotes(original, prefix, s[k], c.out[k]);
        if s[k].FromDiff? {
          assert lines[s[k].line] == prefix[s[k].line];
        }
      }
    }
  }

  lemma {:induction false} WalkSourcesOrdered(original: seq<string>, lines: seq<string>)
    ensures var c := DiffWalk(original, Cursor([], 0), lines);
      var s := WalkSources(original, lines);
      Ordered(s)
      && (forall k :: 0 <= k < |s| && s[k].FromOriginal? ==> s[k].line < c.index)
      && (forall k :: 0 <= k < |s| && s[k].FromDiff? ==> s[k].line < |lines|)
    decreases |lines|
  {
    if lines != [] {
      var prefix := lines[..|lines| - 1];
      WalkSourcesOrdered(original, prefix);
      var c0 := DiffWalk(original, Cursor([], 0), prefix);
      var s0 := WalkSources(original, prefix);
      var line := lines[|lines| - 1];
      assert DiffWalk(original, Cursor([], 0), lines) == DiffStep(original, c0, line);
      if StartsWith(line, "@@") {
      } else if StartsWith(line, "+") {
        AppendOrdered(s0, FromDiff(|lines| - 1));
      } else if StartsWith(line, "-") {
      } else if StartsWith(line, " ") && c0.index < |original| {
        AppendOrdered(s0, FromOriginal(c0.index));
      }
    }
  }

  /** A source later than every source of its kind keeps a sequence ordered. */
  lemma AppendOrdered(s: seq<Source>, x: Source)
    requires Ordered(s)
    requires forall k :: 0 <= k < |s| && s[k].FromOriginal? == x.FromOriginal? ==> s[k].line < x.line
    ensures Ordered(s + [x])
  {
    var t := s + [x];
    forall a, b | 0 <= a < b < |t|
      ensures (t[a].FromOriginal? && t[b].FromOriginal? ==> t[a].line < t[b].line)
        && (t[a].FromDiff? && t[b].FromDiff? ==> t[a].line < t[b].line)
    {
      if b < |s| {
        assert t[a] == s[a] && t[b] == s[b];
      } else {
        assert t[a] == s[a] && t[b] == x;
      }
    }
  }

  /** Every '+' line of the diff contributes its payload to the output. */
  lemma {:induction false} WalkSourcesComplete(original: seq<string>, lines: seq<string>)
    ensures forall j :: 0 <= j < |lines| && StartsWith(lines[j], "+") ==> FromDiff(j) in WalkSources(original, lines)
    decreases |lines|
  {
    if lines != [] {
      var prefix := lines[..|lines| - 1];
      WalkSourcesComplete(original, prefix);
      forall j | 0 <= j < |lines| - 1 && StartsWith(lines[j], "+")
        ensures FromDiff(j) in WalkSources(original, lines)
      {
        assert lines[j] == prefix[j];
      }
      var last := lines[|lines| - 1];
      if StartsWith(last, "+") {
        StartsWithHead(last, "+");
        StartsWithHead(last, "@@");
        assert FromDiff(|lines| - 1) in WalkSources(original, lines);
      }
    }
  }

  /**
   * Every returned line is an original line or a '+' payload; original lines
   * keep their order and appear at most once, payloads keep diff order, and
   * every payload appears.
   */
  lemma Provenance(original: seq<string>, lines: seq<string>)
    ensures var out := PatchedLines(original, lines);
      var s := PatchSources(original, lines);
      |s| == |out|
      && (forall k :: 0 <= k < |s| ==> Denotes(original, lines, s[k], out[k]))
      && Ordered(s)
      && (forall j :: 0 <= j < |lines| && StartsWith(lines[j], "+") ==> FromDiff(j) in s)
  {
    SourcesDenote(original, lines);
    SourcesOrdered(original, lines);
    WalkSourcesComplete(original, lines);
    var w := WalkSources(original, lines);
    var s := PatchSources(original, lines);
    assert forall k :: 0 <= k < |w| ==> s[k] == w[k];
  }

  /** Each source denotes the output line at its position. */
  lemma SourcesDenote(original: seq<string>, lines: seq<string>)
    ensures var out := PatchedLines(original, lines);
      var s := PatchSources(original, lines);
      |s| == |out| && forall k :: 0 <= k < |s| ==> Denotes(original, lines, s[k], out[k])
  {
    var c := DiffWalk(original, Cursor([], 0), lines);
    var w := WalkSources(original, lines);
    var rest := Remaining(original, c.index);
    var tail := seq(|rest|, k requires 0 <= k < |rest| => FromOriginal(c.index + k));
    WalkSourcesDenote(original, lines);
    var s := w + tail;
    var out := c.out + rest;
    assert s == PatchSources(original, lines);
    forall k | 0 <= k < |s|
      ensures Denotes(original, lines, s[k], out[k])
    {
      if k >= |w| {
        assert s[k] == FromOriginal(c.index + (k - |w|));
        assert out[k] == rest[k - |w|];
      } else {
        assert s[k] == w[k] && out[k] == c.out[k];
      }
    }
  }

  /** The sources of each kind appear in increasing line order. */
  lemma SourcesOrdered(original: seq<string>, lines: seq<string>)
    ensures Ordered(PatchSources(original, lines))
  {
    var c := DiffWalk(original, Cursor([], 0), lines);
    var w := WalkSources(original, lines);
    var rest := Remaining(original, c.index);
    var tail := seq(|rest|, k requires 0 <= k < |rest| => FromOriginal(c.index + k));
    WalkSourcesDenote(original, lines);
    WalkSourcesOrdered(original, lines);
    var s := w + tail;
    assert s == PatchSources(original, lines);
    forall a, b | 0 <= a < b < |s|
      ensures (s[a].FromOriginal? && s[b].FromOriginal? ==> s[a].line < s[b].line)
           && (s[a].FromDiff? && s[b].FromDiff? ==> s[a].line < s[b].line)
    {
      if b >= |w| && a < |w| {
        assert s[a] == w[a];
      } else if b < |w| {
        assert s[a] == w[a] && s[b] == w[b];
      }
    }
  }

  /* ---------------- Backups, apply and rollback ---------------- */

  /** An `appliedChanges` entry: the change's path and the text it replaced, '' for "did not exist". */
  datatype Backup = Backup(path: string, backup: string)

  /** The result of one change, with the files and the backup history afterwards. */
  datatype Applied = Applied(result: ApplyResult, files: map<string, string>, history: seq<Backup>)

  /** The file `fs` touches for a change path: `path.join(workspaceDir, p)`. */
  function FullPath(ws: string, p: string): string
  {
    Paths.JoinPath(ws, p)
  }

  /** `applyChange(change)`: its result, the files and the history afterwards. */
  function ChangeStep(ws: string, files: map<string, string>, history: seq<Backup>, c: Change): (r: Applied)
    ensures r.result.path == c.path
    ensures r.result.success <==> r.result.error.None?
    ensures r.result.success <==>
      match c.operation
      case Modify => FullPath(ws, c.path) in files && Provided(c.diff)
      case Create => Provided(c.content)
      case Delete => FullPath(ws, c.path) in files
      case Unknown(_) => false
    ensures forall k :: k != FullPath(ws, c.path) ==>
      (k in r.files <==> k in files) && (k in files ==> r.files[k] == files[k])
    ensures r.history == history || (c.operation.Create? && r.history == history + [Backup(c.path, "")])
      || (FullPath(ws, c.path) in files && r.history == history + [Backup(c.path, files[FullPath(ws, c.path)])])
    ensures !r.result.success ==> r.files == files
    ensures |history| <= |r.history| && r.history[..|history|] == history
    // What a success writes at the change's own file.
    ensures r.result.success && c.operation.Modify? ==>
      r.files == files[FullPath(ws, c.path) := UnifiedPatch(files[FullPath(ws, c.path)], c.diff.value)]
    ensures r.result.success && c.operation.Create? ==> r.files == files[FullPath(ws, c.path) := c.content.value]
    ensures r.result.success && c.operation.Delete? ==> r.files == files - {FullPath(ws, c.path)}
    // The backup each case records: a modify or delete backs up an existing file, even when the
    // modify then fails for want of a diff; a create backs up '' only when it goes ahead.
    ensures c.operation.Modify? || c.operation.Delete? ==>
      r.history == if FullPath(ws, c.path) in files then history + [Backup(c.path, files[FullPath(ws, c.path)])]
        else history
    ensures c.operation.Create? ==>
      r.history == if Provided(c.content) then history + [Backup(c.path, "")] else history
    ensures c.operation.Unknown? ==> r.history == history
  {
    var key := FullPath(ws, c.path);
    match c.operation
    case Modify =>
      if key !in files then Applied(Failed(c.path, Disk.NotFound("open", key)), files, history)
      else
        var h := history + [Backup(c.path, files[key])];
        if !Provided(c.diff) then Applied(Failed(c.path, "Diff required for modify operation"), files, h)
        else Applied(Succeeded(c.path), files[key := UnifiedPatch(files[key], c.diff.value)], h)
    case Create =>
      if !Provided(c.content) then Applied(Failed(c.path, "Content required for create operation"), files, history)
      else Applied(Succeeded(c.path), files[key := c.content.value], history + [Backup(c.path, "")])
    case Delete =>
      if key !in files then Applied(Failed(c.path, Disk.NotFound("open", key)), files, history)
      else Applied(Succeeded(c.path), files - {key}, history + [Backup(c.path, files[key])])
    case Unknown(name) =>
      Applied(Failed(c.path, "Unknown operation: " + name), files, history)
  }

  /** `rollback()` on the files: the history undone newest first; '' deletes, anything else is written back. */
  function Undo(ws: string, files: map<string, string>, history: seq<Backup>): map<string, string>
    decreases |history|
  {
    if history == [] then files
    else Undo(ws, UndoEntry(ws, files, history[|history| - 1]), history[..|history| - 1])
  }

  /** No entry of `history` names the file `key`. */
  predicate Untouched(ws: string, history: seq<Backup>, key: string)
  {
    forall k :: 0 <= k < |history| ==> FullPath(ws, history[k].path) != key
  }

  /** One rollback entry: '' deletes the file, anything else is written back. */
  function UndoEntry(ws: string, files: map<string, string>, entry: Backup): map<string, string>
  {
    var key := FullPath(ws, entry.path);
    if entry.backup == "" then files - {key} else files[key := entry.backup]
  }

  /** Rollback touches only the files its entries name. */
  lemma {:induction false} UndoFrame(ws: string, files: map<string, string>, history: seq<Backup>, key: string)
    requires Untouched(ws, history, key)
    ensures var r := Undo(ws, files, history);
      (key in r <==> key in files) && (key in r ==> r[key] == files[key])
    decreases |history|
  {
    if history != [] {
      var n := |history| - 1;
      assert FullPath(ws, history[n].path) != key;
      UndoFrame(ws, UndoEntry(ws, files, history[n]), history[..n], key);
    }
  }

  /** Undoing the first `i` entries is undoing entry `i - 1` and then the ones before it. */
  lemma UndoPrefix(ws: string, files: map<string, string>, history: seq<Backup>, i: nat)
    requires 0 < i <= |history|
    ensures Undo(ws, files, history[..i]) == Undo(ws, UndoEntry(ws, files, history[i - 1]), history[..i - 1])
  {
    assert history[..i][..i - 1] == history[..i - 1];
  }

  /** Undoing a concatenated history undoes the newer part first. */
  lemma {:induction false} UndoAppend(ws: string, files: map<string, string>, a: seq<Backup>, b: seq<Backup>)
    ensures Undo(ws, files, a + b) == Undo(ws, Undo(ws, files, b), a)
    decreases |b|
  {
    if b == [] {
      assert a + b == a;
    } else {
      var next := UndoEntry(ws, files, b[|b| - 1]);
      assert (a + b)[..|a + b| - 1] == a + b[..|b| - 1];
      UndoAppend(ws, next, a, b[..|b| - 1]);
    }
  }

  /** The results of `applyChanges`, with the files and the history afterwards. */
  datatype Batch = Batch(results: seq<ApplyResult>, files: map<string, string>, history: seq<Backup>)

  predicate AllSucceeded(results: seq<ApplyResult>)
  {
    forall k :: 0 <= k < |results| ==> results[k].success
  }

  /** The batch ended on a failed change. */
  predicate Stopped(results: seq<ApplyResult>)
  {
    |results| > 0 && !results[|results| - 1].success
  }

  /** One change applied to the files and the history: `applyChange` of a fixed workspace as a value. */
  type Stepper = (map<string, string>, seq<Backup>, Change) -> Applied

  /** The steps of the workspace `ws`. Its ensures only unfolds the definition element by element, for the solver; the lemmas about it carry the meaning. */
  function ChangeSteps(ws: string): (step: Stepper)
    ensures forall f, h, c :: step(f, h, c) == ChangeStep(ws, f, h, c)
  {
    (f, h, c) => ChangeStep(ws, f, h, c)
  }

  /** A step reports on the change's own path and only adds to the history. */
  ghost predicate Stepwise(step: Stepper)
  {
    forall f, h, c :: step(f, h, c).result.path == c.path
      && |h| <= |step(f, h, c).history| && step(f, h, c).history[..|h|] == h
  }

  lemma ChangeStepsStepwise(ws: string)
    ensures Stepwise(ChangeSteps(ws))
  {
  }

  /**
   * `applyChanges(changes)` with `step` for `applyChange`: in order, stopping at
   * the first failure and rolling the whole history back.
   */
  function Batched(ws: string, step: Stepper, files: map<string, string>, history: seq<Backup>, changes: seq<Change>): (r: Batch)
    ensures |r.results| <= |changes|
    ensures forall k :: 0 <= k < |r.results| - 1 ==> r.results[k].success
    ensures !Stopped(r.results) ==> |r.results| == |changes|
    ensures Stopped(r.results) ==> r.history == []
    decreases |changes|
  {
    if changes == [] then Batch([], files, history)
    else
      var a := step(files, history, changes[0]);
      if !a.result.success then Batch([a.result], Undo(ws, a.files, a.history), [])
      else
        var rest := Batched(ws, step, a.files, a.history, changes[1..]);
        ConsShifts(a.result, rest.results);
        Batch([a.result] + rest.results, rest.files, rest.history)
  }

  /** Behind a new head, every element moves up one place. */
  lemma ConsShifts<T>(x: T, s: seq<T>)
    ensures forall k :: 0 <= k < |s| ==> ([x] + s)[k + 1] == s[k]
  {
  }

  /**
   * `applyChanges(changes)` on the workspace `ws`: the changes are tried in
   * order and every one before the last attempted succeeded; either all were
   * attempted, or the batch stopped at a failure and the history was emptied.
   */
  function ApplyAll(ws: string, files: map<string, string>, history: seq<Backup>, changes: seq<Change>): (r: Batch)
    ensures |r.results| <= |changes|
    ensures forall k :: 0 <= k < |r.results| - 1 ==> r.results[k].success
    ensures !Stopped(r.results) ==> |r.results| == |changes|
    ensures Stopped(r.results) ==> r.history == []
  {
    Batched(ws, ChangeSteps(ws), files, history, changes)
  }

  /** Result `k` of a batch is about change `k`. */
  lemma {:induction false} BatchedPaths(ws: string, step: Stepper, files: map<string, string>, history: seq<Backup>, changes: seq<Change>)
    requires Stepwise(step)
    ensures var r := Batched(ws, step, files, history, changes);
      forall k :: 0 <= k < |r.results| ==> r.results[k].path == changes[k].path
    decreases |changes|
  {
    if changes != [] {
      var a := step(files, history, changes[0]);
      if a.result.success {
        BatchedPaths(ws, step, a.files, a.history, changes[1..]);
        var rest := Batched(ws, step, a.files, a.history, changes[1..]);
        ConsShifts(a.result, rest.results);
      }
    }
  }

  /** A batch that does not stop only adds to the history. */
  lemma {:induction false} BatchedHistory(ws: string, step: Stepper, files: map<string, string>, history: seq<Backup>, changes: seq<Change>)
    requires Stepwise(step)
    ensures var r := Batched(ws, step, files, history, changes);
      !Stopped(r.results) ==> |history| <= |r.history| && r.history[..|history|] == history
    decreases |changes|
  {
    if changes != [] {
      var a := step(files, history, changes[0]);
      if a.result.success {
        BatchedHistory(ws, step, a.files, a.history, changes[1..]);
        var rest := Batched(ws, step, a.files, a.history, changes[1..]);
        if !Stopped(rest.results) {
          assert rest.history[..|a.history|][..|history|] == history;
        }
      }
    }
  }

  /** The same for the workspace's own steps. */
  lemma ApplyAllResults(ws: string, files: map<string, string>, history: seq<Backup>, changes: seq<Change>)
    ensures var r := ApplyAll(ws, files, history, changes);
      (forall k :: 0 <= k < |r.results| ==> r.results[k].path == changes[k].path)
      && (!Stopped(r.results) ==> |history| <= |r.history| && r.history[..|history|] == history)
  {
    ChangeStepsStepwise(ws);
    BatchedPaths(ws, ChangeSteps(ws), files, history, changes);
    BatchedHistory(ws, ChangeSteps(ws), files, history, changes);
  }

  lemma ConcatAssociative<T>(a: seq<T>, b: seq<T>, c: seq<T>)
    ensures (a + b) + c == a + (b + c)
  {
  }

  /** The first step of a batch. */
  lemma StepUnfolds(ws: string, files: map<string, string>, history: seq<Backup>, changes: seq<Change>)
    requires changes != []
    ensures var a := ChangeStep(ws, files, history, changes[0]);
      var b := ApplyAll(ws, files, history, changes);
      if !a.result.success then b == Batch([a.result], Undo(ws, a.files, a.history), [])
      else
        var rest := ApplyAll(ws, a.files, a.history, changes[1..]);
        b == Batch([a.result] + rest.results, rest.files, rest.history)
  {
  }

  /**
   * A change whose backup will undo it: a created file did not exist, and a
   * modified or deleted file was not empty (an empty backup reads as "did
   * not exist").
   */
  predicate BackupFaithful(ws: string, files: map<string, string>, c: Change)
  {
    var key := FullPath(ws, c.path);
    match c.operation
    case Create => Provided(c.content) ==> key !in files
    case Modify => key in files ==> files[key] != ""
    case Delete => key in files ==> files[key] != ""
    case Unknown(_) => true
  }

  /** After each change, undoing the whole history still leads back to the same files. */
  lemma StepKeepsUndo(ws: string, files: map<string, string>, history: seq<Backup>, c: Change)
    requires BackupFaithful(ws, files, c)
    ensures var a := ChangeStep(ws, files, history, c);
      Undo(ws, a.files, a.history) == Undo(ws, files, history)
  {
    var a := ChangeStep(ws, files, history, c);
    var key := FullPath(ws, c.path);
    if a.history != history {
      var entry := a.history[|a.history| - 1];
      assert a.history[..|a.history| - 1] == history;
      assert entry.path == c.path;
      assert UndoEntry(ws, a.files, entry) == files;
    }
  }

  /** Every change of a run is backup-faithful in the state it is applied to. */
  predicate FaithfulRun(ws: string, files: map<string, string>, history: seq<Backup>, changes: seq<Change>)
    decreases |changes|
  {
    changes == [] ||
    (BackupFaithful(ws, files, changes[0]) &&
     var a := ChangeStep(ws, files, history, changes[0]);
     (a.result.success ==> FaithfulRun(ws, a.files, a.history, changes[1..])))
  }

  /**
   * Rollback restores the files of the last commit: after a failed batch the
   * files are what undoing the prior history gives, and after a successful
   * one, undoing the new history still gives them.
   */
  lemma {:induction false} ApplyAllRestores(ws: string, files: map<string, string>, history: seq<Backup>, changes: seq<Change>)
    requires FaithfulRun(ws, files, history, changes)
    ensures var b := ApplyAll(ws, files, history, changes);
      Undo(ws, b.files, b.history) == Undo(ws, files, history)
    decreases |changes|
  {
    if changes != [] {
      StepKeepsUndo(ws, files, history, changes[0]);
      var a := ChangeStep(ws, files, history, changes[0]);
      if a.result.success {
        ApplyAllRestores(ws, a.files, a.history, changes[1..]);
      }
    }
  }

  /** From a committed state, a failed batch leaves every file as it was. */
  lemma AllOrNothing(ws: string, files: map<string, string>, changes: seq<Change>)
    requires FaithfulRun(ws, files, [], changes)
    ensures var b := ApplyAll(ws, files, [], changes);
      Stopped(b.results) ==> b.files == files && b.history == []
  {
    ApplyAllRestores(ws, files, [], changes);
  }

  /** A rollback after two uncommitted batches also reverts the first one. */
  lemma RollbackRevertsEarlierBatches(ws: string, files: map<string, string>, first: seq<Change>, second: seq<Change>)
    requires FaithfulRun(ws, files, [], first)
    requires var b := ApplyAll(ws, files, [], first); FaithfulRun(ws, b.files, b.history, second)
    ensures var b := ApplyAll(ws, files, [], first);
      var b2 := ApplyAll(ws, b.files, b.history, second);
      Undo(ws, b2.files, b2.history) == files
  {
    var b := ApplyAll(ws, files, [], first);
    ApplyAllRestores(ws, files, [], first);
    ApplyAllRestores(ws, b.files, b.history, second);
  }

  /** An empty file that is modified gets the '' backup, so a rollback deletes it. */
  lemma EmptyFileLostOnRollback(ws: string, files: map<string, string>, c: Change)
    requires c.operation.Modify? || c.operation.Delete?
    requires FullPath(ws, c.path) in files && files[FullPath(ws, c.path)] == ""
    ensures var a := ChangeStep(ws, files, [], c);
      FullPath(ws, c.path) !in Undo(ws, a.files, a.history)
  {
    var a := ChangeStep(ws, files, [], c);
    assert a.history == [Backup(c.path, "")];
    assert a.history[..0] == [];
  }

  /** A create that is rolled back leaves no file, and so does a create followed by a delete. */
  lemma CreateRollbackAndDelete(ws: string, files: map<string, string>, p: string, content: string)
    requires FullPath(ws, p) !in files && content != ""
    ensures var a := ChangeStep(ws, files, [], Change(p, Create, None, Some(content)));
      Undo(ws, a.files, a.history) == files
      && FullPath(ws, p) !in ChangeStep(ws, a.files, a.history, Change(p, Delete, None, None)).files
  {
    StepKeepsUndo(ws, files, [], Change(p, Create, None, Some(content)));
  }

  /* ---------------- The class ---------------- */

  class PatchApplier {
    const workspaceDir: string
    const fs: Disk.FileSystem
    var appliedChanges: seq<Backup>

    constructor (workspaceDir: string, fs: Disk.FileSystem)
      ensures this.workspaceDir == workspaceDir && this.fs == fs && appliedChanges == []
    {
      this.workspaceDir := workspaceDir;
      this.fs := fs;
      appliedChanges := [];
    }

    /** `applyUnifiedDiff(original, diff)`. */
    method ApplyUnifiedDiff(original: string, diff: string) returns (r: string)
      ensures r == UnifiedPatch(original, diff)
    {
      var originalLines := Split(original, '\n');
      var result: seq<string> := [];
      var diffLines := Split(diff, '\n');
      var originalIndex: nat := 0;
      for i := 0 to |diffLines|
        invariant DiffWalk(originalLines, Cursor([], 0), diffLines[..i]) == Cursor(result, originalIndex)
      {
        assert diffLines[..i + 1][..i] == diffLines[..i];
        var line := diffLines[i];
        if StartsWith(line, "@@") {
          continue;
        } else if StartsWith(line, "+") {
          result := result + [line[1..]];
        } else if StartsWith(line, "-") {
          originalIndex := originalIndex + 1;
        } else if StartsWith(line, " ") {
          if originalIndex < |originalLines| {
            result := result + [originalLines[originalIndex]];
            originalIndex := originalIndex + 1;
          }
        }
      }
      assert diffLines[..|diffLines|] == diffLines;
      while originalIndex < |originalLines|
        invariant result + Remaining(originalLines, originalIndex) == PatchedLines(originalLines, diffLines)
      {
        RemainingStep(originalLines, originalIndex);
        ConcatAssociative(result, [originalLines[originalIndex]], Remaining(originalLines, originalIndex + 1));
        result := result + [originalLines[originalIndex]];
        originalIndex := originalIndex + 1;
      }
      assert result + [] == result;
      r := Join(result, "\n");
    }

    /** `applyChange(change)`: never throws; every failure comes back as a result. */
    method ApplyChange(change: Change) returns (result: ApplyResult)
      modifies this, fs
      ensures ChangeStep(workspaceDir, old(fs.files), old(appliedChanges), change)
        == Applied(result, fs.files, appliedChanges)
    {
      var fullPath := FullPath(workspaceDir, change.path);
      match change.operation {
        case Modify =>
          var original := fs.ReadFile(fullPath);
          if original.Failure? {
            return Failed(change.path, original.error);
          }
          appliedChanges := appliedChanges + [Backup(change.path, original.value)];
          if !Provided(change.diff) {
            return Failed(change.path, "Diff required for modify operation");
          }
          var modified := ApplyUnifiedDiff(original.value, change.diff.value);
          fs.WriteFile(fullPath, modified);
        case Create =>
          // `mkdir(dirname(fullPath), { recursive: true })` has nothing to do without directories.
          if !Provided(change.content) {
            return Failed(change.path, "Content required for create operation");
          }
          fs.WriteFile(fullPath, change.content.value);
          appliedChanges := appliedChanges + [Backup(change.path, "")];
        case Delete =>
          var original := fs.ReadFile(fullPath);
          if original.Failure? {
            return Failed(change.path, original.error);
          }
          appliedChanges := appliedChanges + [Backup(change.path, original.value)];
          var error := fs.Unlink(fullPath);
        case Unknown(name) =>
          return Failed(change.path, "Unknown operation: " + name);
      }
      return Succeeded(change.path);
    }

    /** `applyChanges(changes)`. */
    method ApplyChanges(changes: seq<Change>) returns (results: seq<ApplyResult>)
      modifies this, fs
      ensures ApplyAll(workspaceDir, old(fs.files), old(appliedChanges), changes)
        == Batch(results, fs.files, appliedChanges)
    {
      ghost var total := ApplyAll(workspaceDir, fs.files, appliedChanges, changes);
      results := [];
      var i := 0;
      while i < |changes|
        invariant 0 <= i <= |changes|
        invariant var rest := ApplyAll(workspaceDir, fs.files, appliedChanges, changes[i..]);
          results + rest.results == total.results && rest.files == total.files && rest.history == total.history
      {
        ghost var before := fs.files;
        ghost var history := appliedChanges;
        ghost var rest := ApplyAll(workspaceDir, before, history, changes[i..]);
        var result := ApplyChange(changes[i]);
        assert changes[i..][0] == changes[i];
        assert changes[i..][1..] == changes[i + 1..];
        StepUnfolds(workspaceDir, before, history, changes[i..]);
        ghost var done := results;
        results := results + [result];
        if !result.success {
          assert rest == Batch([result], Undo(workspaceDir, fs.files, appliedChanges), []);
          Rollback();
          return;
        }
        ghost var next := ApplyAll(workspaceDir, fs.files, appliedChanges, changes[i + 1..]);
        assert rest == Batch([result] + next.results, next.files, next.history);
        ConcatAssociative(done, [result], next.results);
        i := i + 1;
      }
    }

    /** `rollback()`: newest entry first; per-entry failures are swallowed; the history ends empty. */
    method Rollback()
      modifies this, fs
      ensures fs.files == Undo(workspaceDir, old(fs.files), old(appliedChanges))
      ensures appliedChanges == []
    {
      var i := |appliedChanges|;
      assert appliedChanges[..i] == appliedChanges;
      while i > 0
        invariant 0 <= i <= |appliedChanges|
        invariant appliedChanges == old(appliedChanges)
        invariant Undo(workspaceDir, fs.files, appliedChanges[..i]) == Undo(workspaceDir, old(fs.files), old(appliedChanges))
      {
        UndoPrefix(workspaceDir, fs.files, appliedChanges, i);
        i := i - 1;
        var entry := appliedChanges[i];
        var fullPath := FullPath(workspaceDir, entry.path);
        ghost var before := fs.files;
        if entry.backup == "" {
          var error := fs.Unlink(fullPath);
        } else {
          fs.WriteFile(fullPath, entry.backup);
        }
        assert fs.files == UndoEntry(workspaceDir, before, entry);
      }
      appliedChanges := [];
    }

    /** `clearBackups()`: commit; the files are left alone. */
    method ClearBackups()
      modifies this
      ensures appliedChanges == []
    {
      appliedChanges := [];
    }
  }
}
