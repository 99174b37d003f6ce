/**
 * lib/diff-parser.ts: the ```diff-suggestion blocks a model may write in
 * markdown, parsed into numbered add/remove/context lines, and the merge of
 * accepted lines into a file by trimmed text matching.
 */
module DiffParser {
  import opened Wrappers
  import opened Strings

  datatype LineKind = Add | Remove | Context

  /** A `DiffLine`; the two optional numbers are present according to the kind. */
  datatype DiffLine = DiffLine(kind: LineKind, content: string, originalLineNumber: Option<nat>, newLineNumber: Option<nat>)

  datatype FileDiff = FileDiff(filename: string, changes: seq<DiffLine>)

  /* ---------------- Finding the blocks ---------------- */

  /** The text that opens a block. */
  const Opener: string := "```diff-suggestion\n"

  /** The text that closes a block. */
  const Fence: string := "```"

  /** The first occurrence of `sub` in `s` at or after `from`. */
  function IndexOf(s: string, sub: string, from: nat): (r: Option<nat>)
    ensures r.Some? ==> from <= r.value && r.value + |sub| <= |s|
    decreases |s| - from
  {
    if from + |sub| > |s| then None
    else if OccursAt(s, sub, from) then Some(from)
    else IndexOf(s, sub, from + 1)
  }

  /** The search finds the first occurrence at or after `from`, or reports that there is none. */
  lemma {:induction false} IndexOfFinds(s: string, sub: string, from: nat)
    ensures var r := IndexOf(s, sub, from);
      (r.Some? ==> OccursAt(s, sub, r.value) && forall t :: from <= t < r.value ==> !OccursAt(s, sub, t))
      && (r.None? ==> forall t :: from <= t ==> !OccursAt(s, sub, t))
    decreases |s| - from
  {
    if from + |sub| <= |s| && !OccursAt(s, sub, from) {
      IndexOfFinds(s, sub, from + 1);
    }
  }

  /** A block as the lazy pattern matches it: the opener, a body without a fence, the fence. */
  predicate IsBlock(b: string, open: string)
  {
    |open| + |Fence| <= |b| && StartsWith(b, open) && b[|b| - |Fence|..] == Fence
    && forall t :: |open| <= t < |b| - |Fence| ==> !OccursAt(b, Fence, t)
  }

  /**
   * The matches of the lazy pattern `open([\s\S]*?)```` with the `g` flag,
   * left to right from position `from`; the search is written for any
   * opener so that proofs about it do not unfold the literal.
   */
  function Blocks(s: string, open: string, from: nat): seq<string>
    decreases |s| - from
  {
    match IndexOf(s, open, from)
    case None => []
    case Some(i) =>
      match IndexOf(s, Fence, i + |open|)
      case None => []
      case Some(j) => [s[i..j + |Fence|]] + Blocks(s, open, j + |Fence|)
  }

  /** `markdown.match(/```diff-suggestion\n([\s\S]*?)```/g)`, with no match as the empty list. */
  function FenceBlocks(s: string): seq<string>
  {
    Blocks(s, Opener, 0)
  }

  /** Each of `blocks` is a block for `open` and occurs in `s`. */
  predicate FoundIn(blocks: seq<string>, s: string, open: string)
  {
    forall k :: 0 <= k < |blocks| ==> IsBlock(blocks[k], open) && Contains(s, blocks[k])
  }

  /** One step of the search: the first block, then the matches after it. */
  lemma BlocksStep(s: string, open: string, from: nat, i: nat, j: nat)
    requires IndexOf(s, open, from) == Some(i) && IndexOf(s, Fence, i + |open|) == Some(j)
    ensures Blocks(s, open, from) == [s[i..j + |Fence|]] + Blocks(s, open, j + |Fence|)
  {
  }

  /** A block found in the text, followed by blocks found in it, are all found in it. */
  lemma FoundInCons(s: string, open: string, i: nat, j: nat, rest: seq<string>)
    requires i <= j + |Fence| <= |s| && IsBlock(s[i..j + |Fence|], open)
    requires FoundIn(rest, s, open)
    ensures FoundIn([s[i..j + |Fence|]] + rest, s, open)
  {
    var block := s[i..j + |Fence|];
    var blocks := [block] + rest;
    assert OccursAt(s, block, i);
    forall k | 0 <= k < |blocks|
      ensures IsBlock(blocks[k], open) && Contains(s, blocks[k])
    {
      if k > 0 {
        assert blocks[k] == rest[k - 1];
      }
    }
  }

  /** Every match is a block as the lazy pattern defines it, and occurs in the markdown. */
  lemma {:induction false} BlocksAreBlocks(s: string, open: string, from: nat)
    ensures FoundIn(Blocks(s, open, from), s, open)
    decreases |s| - from
  {
    match IndexOf(s, open, from)
    case None =>
    case Some(i) =>
      match IndexOf(s, Fence, i + |open|)
      case None =>
      case Some(j) =>
        BlocksAreBlocks(s, open, j + |Fence|);
        FirstBlock(s, open, from, i, j);
        BlocksStep(s, open, from, i, j);
        FoundInCons(s, open, i, j, Blocks(s, open, j + |Fence|));
  }

  /** The text from the opener the search finds to the first fence after it is a block. */
  lemma FirstBlock(s: string, open: string, from: nat, i: nat, j: nat)
    requires IndexOf(s, open, from) == Some(i) && IndexOf(s, Fence, i + |open|) == Some(j)
    ensures i <= j + |Fence| <= |s| && IsBlock(s[i..j + |Fence|], open)
  {
    IndexOfFinds(s, open, from);
    IndexOfFinds(s, Fence, i + |open|);
    BlockFound(s, open, i, j);
  }

  /** Every diff-suggestion block found is a block and occurs in the markdown. */
  lemma FenceBlocksAreBlocks(s: string)
    ensures FoundIn(FenceBlocks(s), s, Opener)
  {
    BlocksAreBlocks(s, Opener, 0);
  }

  lemma BlockFound(s: string, open: string, i: nat, j: nat)
    requires OccursAt(s, open, i) && i + |open| <= j && OccursAt(s, Fence, j)
    requires forall t :: i + |open| <= t < j ==> !OccursAt(s, Fence, t)
    ensures IsBlock(s[i..j + |Fence|], open)
  {
    var b := s[i..j + |Fence|];
    assert b[..|open|] == s[i..i + |open|];
    assert b[|b| - |Fence|..] == s[j..j + |Fence|];
    forall t | |open| <= t < |b| - |Fence|
      ensures !OccursAt(b, Fence, t)
    {
      if OccursAt(b, Fence, t) {
        assert b[t..t + |Fence|] == s[i + t..i + t + |Fence|];
        assert OccursAt(s, Fence, i + t);
      }
    }
  }

  /** Markdown without an opener has no blocks. */
  lemma NoOpenerNoBlocks(s: string, open: string)
    requires !Contains(s, open)
    ensures Blocks(s, open, 0) == []
  {
    IndexOfFinds(s, open, 0);
    match IndexOf(s, open, 0)
    case None =>
    case Some(i) =>
      assert false;
  }

  /** A message that is exactly one block yields that block. */
  lemma SingleBlock(open: string, body: string)
    requires forall t :: 0 <= t ==> !OccursAt(body, Fence, t)
    requires |body| == 0 || body[|body| - 1] != '`'
    ensures Blocks(open + body + Fence, open, 0) == [open + body + Fence]
  {
    var s := open + body + Fence;
    var j := |open| + |body|;
    assert IndexOf(s, open, 0) == Some(0) by {
      assert s[0..|open|] == open;
      assert OccursAt(s, open, 0);
    }
    assert IndexOf(s, Fence, |open|) == Some(j) by {
      FenceAfterBody(open, body);
    }
    BlocksStep(s, open, 0, 0, j);
    assert Blocks(s, open, |s|) == [] by {
      assert IndexOf(s, Fence, |s|) == None;
    }
    assert s[0..j + |Fence|] == s;
  }

  /** A markdown message that is exactly one diff-suggestion block yields that block. */
  lemma SingleFenceBlock(body: string)
    requires forall t :: 0 <= t ==> !OccursAt(body, Fence, t)
    requires |body| == 0 || body[|body| - 1] != '`'
    ensures FenceBlocks(Opener + body + Fence) == [Opener + body + Fence]
  {
    SingleBlock(Opener, body);
  }

  /** The first fence after the opener of a block built from a fence-free body is the closing one. */
  lemma FenceAfterBody(open: string, body: string)
    requires forall t :: 0 <= t ==> !OccursAt(body, Fence, t)
    requires |body| == 0 || body[|body| - 1] != '`'
    ensures IndexOf(open + body + Fence, Fence, |open|) == Some(|open| + |body|)
  {
    FenceFrom(open, body, |open|);
  }

  /** The search for a fence from anywhere in the body stops at the closing fence. */
  lemma {:induction false} FenceFrom(open: string, body: string, from: nat)
    requires forall t :: 0 <= t ==> !OccursAt(body, Fence, t)
    requires |body| == 0 || body[|body| - 1] != '`'
    requires |open| <= from <= |open| + |body|
    ensures IndexOf(open + body + Fence, Fence, from) == Some(|open| + |body|)
    decreases |open| + |body| - from
  {
    var s := open + body + Fence;
    if from == |open| + |body| {
      assert s[from..from + |Fence|] == Fence;
    } else {
      BodyHasNoFence(open, body, from - |open|);
      FenceFrom(open, body, from + 1);
    }
  }

  /** Inside a block built from a fence-free body no fence starts before the closing one. */
  lemma BodyHasNoFence(open: string, body: string, u: nat)
    requires forall t :: 0 <= t ==> !OccursAt(body, Fence, t)
    requires |body| == 0 || body[|body| - 1] != '`'
    requires u < |body|
    ensures !OccursAt(open + body + Fence, Fence, |open| + u)
  {
    var s := open + body + Fence;
    var t := |open| + u;
    if u + |Fence| <= |body| {
      assert body[u..u + |Fence|] == s[t..t + |Fence|];
      assert !OccursAt(body, Fence, u);
    } else if t + |Fence| <= |s| {
      var k := |body| - 1 - u;
      assert s[t..t + |Fence|][k] == s[t + k] == body[|body| - 1];
      assert Fence[k] == '`';
      assert s[t..t + |Fence|] != Fence;
    }
  }

  /** `block.split('\n').slice(1, -1)`: the lines between the opener and the fence line. */
  function BlockLines(block: string): seq<string>
  {
    var parts := Split(block, '\n');
    if |parts| <= 2 then [] else parts[1..|parts| - 1]
  }

  /* ---------------- The file name ---------------- */

  /** The characters `.` does not match. */
  predicate IsTerminator(c: char)
  {
    c == '\n' || c == '\r' || c == '\U{2028}' || c == '\U{2029}'
  }

  /** The end of the longest run of white space from `k`. */
  function SpaceRun(s: string, k: nat): (m: nat)
    requires k <= |s|
    ensures k <= m <= |s|
    ensures forall t :: k <= t < m ==> IsSpace(s[t])
    ensures m < |s| ==> !IsSpace(s[m])
    decreases |s| - k
  {
    if k < |s| && IsSpace(s[k]) then SpaceRun(s, k + 1) else k
  }

  /** The first line terminator at or after `k`, or the end. */
  function LineEnd(s: string, k: nat): (e: nat)
    requires k <= |s|
    ensures k <= e <= |s|
    ensures forall t :: k <= t < e ==> !IsTerminator(s[t])
    ensures e < |s| ==> IsTerminator(s[e])
    decreases |s| - k
  {
    if k < |s| && !IsTerminator(s[k]) then LineEnd(s, k + 1) else k
  }

  /** The last position at or after `k` holding a character `.` matches. */
  function LastNonTerminator(s: string, k: nat): (r: Option<nat>)
    requires k <= |s|
    ensures r.Some? ==> k <= r.value < |s| && !IsTerminator(s[r.value])
    ensures r.Some? ==> forall t :: r.value < t < |s| ==> IsTerminator(s[t])
    ensures r.None? ==> forall t :: k <= t < |s| ==> IsTerminator(s[t])
    decreases |s| - k
  {
    if k == |s| then None
    else
      match LastNonTerminator(s, k + 1)
      case Some(t) => Some(t)
      case None => if IsTerminator(s[k]) then None else Some(k)
  }

  /**
   * The group of `/FILE:\s*(.+)/` matched from position `i`: the greedy
   * white-space run is given back one character at a time until `.+` can
   * match.
   */
  function GroupAt(line: string, i: nat): (r: Option<string>)
    requires OccursAt(line, "FILE:", i)
    ensures r.Some? ==> |r.value| > 0
  {
    var k := i + 5;
    var m := SpaceRun(line, k);
    if m < |line| then
      assert !IsTerminator(line[m]);
      Some(line[m..LineEnd(line, m)])
    else
      match LastNonTerminator(line, k)
      case None => None
      case Some(t) => Some(line[t..t + 1])
  }

  /** The group of the leftmost match of `/FILE:\s*(.+)/` at or after `from`. */
  function FileMatch(line: string, from: nat): Option<string>
    decreases |line| - from
  {
    if from + 5 > |line| then None
    else if OccursAt(line, "FILE:", from) && GroupAt(line, from).Some? then GroupAt(line, from)
    else FileMatch(line, from + 1)
  }

  /** The block's file name: the trimmed group found in its first line, else "unknown"; it is trimmed either way. */
  function FileName(lines: seq<string>): (name: string)
    ensures Trim(name) == name
  {
    if |lines| == 0 then UnknownTrimmed(); "unknown"
    else
      match FileMatch(lines[0], 0)
      case None => UnknownTrimmed(); "unknown"
      case Some(g) => TrimIdempotent(g); Trim(g)
  }

  lemma UnknownTrimmed()
    ensures Trim("unknown") == "unknown"
  {
    TrimUnspaced("unknown");
  }

  /** The usual header names its file. */
  lemma HeaderNamesFile(name: string)
    requires name != [] && !IsSpace(name[0]) && !IsSpace(name[|name| - 1])
    requires forall t :: 0 <= t < |name| ==> !IsTerminator(name[t])
    ensures FileName(["FILE: " + name]) == name
  {
    var line := "FILE: " + name;
    assert OccursAt(line, "FILE:", 0);
    assert line[5] == ' ' && line[6] == name[0];
    assert SpaceRun(line, 6) == 6;
    assert SpaceRun(line, 5) == 6;
    forall t | 6 <= t < |line|
      ensures !IsTerminator(line[t])
    {
      assert line[t] == name[t - 6];
    }
    assert LineEnd(line, 6) == |line|;
    assert line[6..] == name;
    TrimUnspaced(name);
  }

  /** A first line with no "FILE:" gives the name "unknown". */
  lemma {:induction false} NoHeaderUnknown(line: string, from: nat)
    requires forall t :: from <= t ==> !OccursAt(line, "FILE:", t)
    ensures FileMatch(line, from) == None
    decreases |line| - from
  {
    if from + 5 <= |line| {
      NoHeaderUnknown(line, from + 1);
    }
  }

  /** The search passes over positions where "FILE:" does not occur. */
  lemma {:induction false} FileMatchSkips(line: string, from: nat, at: nat)
    requires from <= at && at + 5 <= |line|
    requires forall t :: from <= t < at ==> !OccursAt(line, "FILE:", t)
    ensures FileMatch(line, from) == FileMatch(line, at)
    decreases at - from
  {
    if from < at {
      FileMatchSkips(line, from + 1, at);
    }
  }

  /** Dropping leading white space does not change what `trimStart` gives. */
  lemma {:induction false} TrimStartPast(s: string, d: nat)
    requires d <= |s| && forall t :: 0 <= t < d ==> IsSpace(s[t])
    ensures TrimStart(s[d..]) == TrimStart(s)
    decreases d
  {
    if d > 0 {
      assert s[1..][d - 1..] == s[d..];
      TrimStartPast(s[1..], d - 1);
    }
  }

  /**
   * The first line names its file: when "FILE:" first occurs after `pre`
   * and is followed by one line holding some non-space character, the name
   * is that line trimmed, whatever lines follow.
   */
  lemma HeaderNamesFileAfter(pre: string, rest: string, more: seq<string>)
    requires forall t :: 0 <= t < |pre| ==> !OccursAt(pre + "FILE:" + rest, "FILE:", t)
    requires forall t :: 0 <= t < |rest| ==> !IsTerminator(rest[t])
    requires exists t :: 0 <= t < |rest| && !IsSpace(rest[t])
    ensures FileName([pre + "FILE:" + rest] + more) == Trim(rest)
  {
    var line := pre + "FILE:" + rest;
    assert ([line] + more)[0] == line;
    assert line[|pre|..|pre| + 5] == "FILE:";
    assert line[|pre| + 5..] == rest;
    FileMatchSkips(line, 0, |pre|);
    GroupTrims(line, |pre|, rest);
  }

  /** The group after "FILE:" at `i`, trimmed, is the rest of the line trimmed. */
  lemma GroupTrims(line: string, i: nat, rest: string)
    requires OccursAt(line, "FILE:", i) && line[i + 5..] == rest
    requires forall t :: 0 <= t < |rest| ==> !IsTerminator(rest[t])
    requires exists t :: 0 <= t < |rest| && !IsSpace(rest[t])
    ensures GroupAt(line, i).Some? && Trim(GroupAt(line, i).value) == Trim(rest)
  {
    var m := SpaceRun(line, i + 5);
    RunInRest(line, i + 5, rest);
    GroupToEnd(line, i);
    TrimStartPast(rest, m - (i + 5));
    assert Trim(rest[m - (i + 5)..]) == TrimEnd(TrimStart(rest[m - (i + 5)..]));
  }

  /** When the white space after "FILE:" stops on a line that runs to the end, the group is the rest from there. */
  lemma GroupToEnd(line: string, i: nat)
    requires OccursAt(line, "FILE:", i)
    requires SpaceRun(line, i + 5) < |line| && LineEnd(line, SpaceRun(line, i + 5)) == |line|
    ensures GroupAt(line, i) == Some(line[SpaceRun(line, i + 5)..])
  {
    var m := SpaceRun(line, i + 5);
    SliceToEnd(line, m, LineEnd(line, m));
  }

  lemma SliceToEnd(s: string, m: nat, e: nat)
    requires m <= e == |s|
    ensures s[m..e] == s[m..]
  {
  }

  /**
   * When the text from `k` on is one line with a non-space character, the
   * white-space run from `k` stops inside it and the line runs to the end.
   */
  lemma RunInRest(line: string, k: nat, rest: string)
    requires k <= |line| && line[k..] == rest
    requires forall t :: 0 <= t < |rest| ==> !IsTerminator(rest[t])
    requires exists t :: 0 <= t < |rest| && !IsSpace(rest[t])
    ensures var m := SpaceRun(line, k);
      m < |line| && LineEnd(line, m) == |line| && line[m..] == rest[m - k..]
      && forall t :: 0 <= t < m - k ==> IsSpace(rest[t])
  {
    var m := SpaceRun(line, k);
    var w :| 0 <= w < |rest| && !IsSpace(rest[w]);
    assert line[k + w] == rest[w];
    assert m <= k + w < |line|;
    forall t | m <= t < |line|
      ensures !IsTerminator(line[t])
    {
      assert line[t] == rest[t - k];
    }
    forall t | 0 <= t < m - k
      ensures IsSpace(rest[t])
    {
      assert rest[t] == line[k + t];
    }
  }

  /* ---------------- Numbering the lines ---------------- */

  /** `line.slice(n)`. */
  function Drop(s: string, n: nat): (r: string)
    ensures |r| == if |s| <= n then 0 else |s| - n
  {
    if |s| <= n then "" else s[n..]
  }

  /** The changes so far and the next original and new line numbers. */
  datatype Numbering = Numbering(changes: seq<DiffLine>, originalLine: nat, newLine: nat)

  /** One body line: empty and "---" lines are skipped, then '+', '-' and ' ' lines become changes. */
  function NumberStep(n: Numbering, line: string): Numbering
  {
    if line == "" || StartsWith(line, "---") then n
    else if StartsWith(line, "+") then
      Numbering(n.changes + [DiffLine(Add, Drop(line, 2), None, Some(n.newLine))], n.originalLine, n.newLine + 1)
    else if StartsWith(line, "-") then
      Numbering(n.changes + [DiffLine(Remove, Drop(line, 2), Some(n.originalLine), None)], n.originalLine + 1, n.newLine)
    else if StartsWith(line, " ") then
      Numbering(n.changes + [DiffLine(Context, Drop(line, 2), Some(n.originalLine), Some(n.newLine))], n.originalLine + 1, n.newLine + 1)
    else n
  }

  /** The body lines numbered first to last, both counters starting at 1. */
  function Numbered(lines: seq<string>): Numbering
    decreases |lines|
  {
    if lines == [] then Numbering([], 1, 1)
    else NumberStep(Numbered(lines[..|lines| - 1]), lines[|lines| - 1])
  }

  /** One mapped block: its file name and its numbered changes from the second line on, as its lines describe. */
  function BlockDiff(block: string): (d: FileDiff)
    ensures Describes(block, d)
  {
    var lines := BlockLines(block);
    if |lines| == 0 then FileDiff(FileName(lines), [])
    else
      ChangesAreChangeLines(lines[1..]);
      NumberingCounts(lines[1..]);
      FileDiff(FileName(lines), Numbered(lines[1..]).changes)
  }

  /** `parseDiffSuggestion(markdown)`. */
  function ParseDiffSuggestion(markdown: string): (r: seq<FileDiff>)
    ensures |r| == |FenceBlocks(markdown)|
    ensures forall k :: 0 <= k < |r| ==> r[k] == BlockDiff(FenceBlocks(markdown)[k])
  {
    var blocks := FenceBlocks(markdown);
    if |blocks| == 0 then []
    else seq(|blocks|, k requires 0 <= k < |blocks| => BlockDiff(blocks[k]))
  }

  /**
   * A step skips its line or appends one change numbered by the counters,
   * advancing the original counter unless it is an add and the new counter
   * unless it is a remove.
   */
  ghost predicate Advances(n: Numbering, r: Numbering)
  {
    || r == n
    || exists c: DiffLine ::
         && r.changes == n.changes + [c]
         && c.originalLineNumber == (if c.kind == Add then None else Some(n.originalLine))
         && c.newLineNumber == (if c.kind == Remove then None else Some(n.newLine))
         && r.originalLine == n.originalLine + (if c.kind == Add then 0 else 1)
         && r.newLine == n.newLine + (if c.kind == Remove then 0 else 1)
  }

  /** Each numbering step is an advance. */
  lemma NumberStepAdvances(n: Numbering, line: string)
    ensures Advances(n, NumberStep(n, line))
  {
    var r := NumberStep(n, line);
    if r != n {
      assert r.changes == n.changes + [r.changes[|r.changes| - 1]];
    }
  }

  /** Markdown without a diff-suggestion opener yields no file diffs. */
  lemma ParseNoOpener(markdown: string)
    requires !Contains(markdown, Opener)
    ensures ParseDiffSuggestion(markdown) == []
  {
    NoOpenerNoBlocks(markdown, Opener);
  }

  /** How many changes take an original line (removes and context). */
  function OriginalCount(cs: seq<DiffLine>): nat
    decreases |cs|
  {
    if cs == [] then 0
    else OriginalCount(cs[..|cs| - 1]) + (if cs[|cs| - 1].kind == Add then 0 else 1)
  }

  /** How many changes take a new line (adds and context). */
  function NewCount(cs: seq<DiffLine>): nat
    decreases |cs|
  {
    if cs == [] then 0
    else NewCount(cs[..|cs| - 1]) + (if cs[|cs| - 1].kind == Remove then 0 else 1)
  }

  /** The numbers a change carries, given the changes before it. */
  predicate WellNumbered(before: seq<DiffLine>, c: DiffLine)
  {
    (c.originalLineNumber == if c.kind == Add then None else Some(1 + OriginalCount(before)))
    && (c.newLineNumber == if c.kind == Remove then None else Some(1 + NewCount(before)))
  }

  /**
   * Every change is numbered by the changes before it: an original line
   * number counts the removes and context lines so far, a new line number
   * the adds and context lines, each from 1.
   */
  lemma {:induction false} NumberingCounts(lines: seq<string>)
    ensures var n := Numbered(lines);
      n.originalLine == 1 + OriginalCount(n.changes) && n.newLine == 1 + NewCount(n.changes)
      && forall k :: 0 <= k < |n.changes| ==> WellNumbered(n.changes[..k], n.changes[k])
    decreases |lines|
  {
    if lines != [] {
      var prior := Numbered(lines[..|lines| - 1]);
      NumberingCounts(lines[..|lines| - 1]);
      var n := Numbered(lines);
      NumberStepAdvances(prior, lines[|lines| - 1]);
      if n != prior {
        var c := n.changes[|n.changes| - 1];
        assert n.changes == prior.changes + [c];
        assert WellNumbered(prior.changes, c);
        CountsExtend(prior.changes, c);
      }
    }
  }

  /** Appending a change numbered by the changes before it keeps every change so numbered. */
  lemma CountsExtend(before: seq<DiffLine>, c: DiffLine)
    requires forall k :: 0 <= k < |before| ==> WellNumbered(before[..k], before[k])
    requires WellNumbered(before, c)
    ensures var cs := before + [c];
      OriginalCount(cs) == OriginalCount(before) + (if c.kind == Add then 0 else 1)
      && NewCount(cs) == NewCount(before) + (if c.kind == Remove then 0 else 1)
      && forall k :: 0 <= k < |cs| ==> WellNumbered(cs[..k], cs[k])
  {
    var cs := before + [c];
    assert cs[..|cs| - 1] == before;
    forall k | 0 <= k < |cs|
      ensures WellNumbered(cs[..k], cs[k])
    {
      if k < |before| {
        assert cs[..k] == before[..k];
      }
    }
  }

  /** A body line that the loop turns into a change. */
  predicate IsChangeLine(line: string)
  {
    line != "" && !StartsWith(line, "---") && (StartsWith(line, "+") || StartsWith(line, "-") || StartsWith(line, " "))
  }

  /** The kind a change line gets, by its first character. */
  function KindOf(line: string): LineKind
    requires IsChangeLine(line)
  {
    if StartsWith(line, "+") then Add else if StartsWith(line, "-") then Remove else Context
  }

  /** The change lines among some body lines, in order. */
  function ChangeLines(lines: seq<string>): (r: seq<string>)
    ensures forall k :: 0 <= k < |r| ==> IsChangeLine(r[k])
    decreases |lines|
  {
    if lines == [] then []
    else ChangeLines(lines[..|lines| - 1]) + (if IsChangeLine(lines[|lines| - 1]) then [lines[|lines| - 1]] else [])
  }

  /** Exactly the change lines become changes, in order, with their kind and their text after two characters. */
  lemma {:induction false} ChangesAreChangeLines(lines: seq<string>)
    ensures var cs := Numbered(lines).changes;
      var kept := ChangeLines(lines);
      |cs| == |kept| && forall k :: 0 <= k < |cs| ==> cs[k].kind == KindOf(kept[k]) && cs[k].content == Drop(kept[k], 2)
    decreases |lines|
  {
    if lines != [] {
      ChangesAreChangeLines(lines[..|lines| - 1]);
      var line := lines[|lines| - 1];
      StartsWithHead(line, "+");
      StartsWithHead(line, " ");
      StartsWithHead(line, "---");
    }
  }
  /**
   * `d` is what a block's lines say: the file name of the first line and,
   * from the second line on, one change per change line in order, with its
   * kind, its text after two characters and the line numbers the changes
   * before it give.
   */
  predicate Describes(block: string, d: FileDiff)
  {
    var lines := BlockLines(block);
    && d.filename == FileName(lines)
    && (|lines| == 0 ==> d.changes == [])
    && (|lines| > 0 ==>
          var kept := ChangeLines(lines[1..]);
          && |d.changes| == |kept|
          && (forall k :: 0 <= k < |kept| ==> d.changes[k].kind == KindOf(kept[k]) && d.changes[k].content == Drop(kept[k], 2))
          && (forall k :: 0 <= k < |d.changes| ==> WellNumbered(d.changes[..k], d.changes[k])))
  }

  /**
   * `parseDiffSuggestion` gives one file diff per diff-suggestion block of
   * the markdown, in order; each block occurs in the markdown, opens with
   * the opener and ends at the first fence after it, and its diff is
   * described by its lines.
   */
  lemma ParsedBlocks(markdown: string)
    ensures var blocks := FenceBlocks(markdown);
      var r := ParseDiffSuggestion(markdown);
      && |r| == |blocks|
      && FoundIn(blocks, markdown, Opener)
      && forall k :: 0 <= k < |r| ==> Describes(blocks[k], r[k])
  {
    FenceBlocksAreBlocks(markdown);
  }


  /* ---------------- Applying accepted lines ---------------- */

  /** Where the search for `text` among the trimmed original lines from `from` stops: the match, or the end. */
  function FindLine(original: seq<string>, from: nat, text: string): (j: nat)
    requires from <= |original|
    ensures from <= j <= |original|
    ensures j < |original| ==> Trim(original[j]) == text
    ensures forall t :: from <= t < j ==> Trim(original[t]) != text
    decreases |original| - from
  {
    if from == |original| || Trim(original[from]) == text then from
    else FindLine(original, from + 1, text)
  }

  /** The lines merged so far and the position reached in the original. */
  datatype Merge = Merge(out: seq<string>, index: nat)

  /**
   * One accepted change: a context line copies the next matching original
   * line, a remove skips it, and either drops the unmatched lines it passes;
   * an add emits its text.
   */
  function MergeStep(original: seq<string>, m: Merge, c: DiffLine): (r: Merge)
    requires m.index <= |original|
    ensures r.index <= |original|
  {
    match c.kind
    case Add => Merge(m.out + [c.content], m.index)
    case Context =>
      var j := FindLine(original, m.index, Trim(c.content));
      if j < |original| then Merge(m.out + [original[j]], j + 1) else Merge(m.out, j)
    case Remove =>
      var j := FindLine(original, m.index, Trim(c.content));
      if j < |original| then Merge(m.out, j + 1) else Merge(m.out, j)
  }

  function MergeFrom(original: seq<string>, start: Merge, changes: seq<DiffLine>): (r: Merge)
    requires start.index <= |original|
    ensures r.index <= |original|
    decreases |changes|
  {
    if changes == [] then start
    else MergeStep(original, MergeFrom(original, start, changes[..|changes| - 1]), changes[|changes| - 1])
  }

  /** The lines `applyDiffChanges` joins: the merge, then the original lines after where it stopped. */
  function MergedLines(original: seq<string>, changes: seq<DiffLine>): seq<string>
  {
    var m := MergeFrom(original, Merge([], 0), changes);
    m.out + original[m.index..]
  }

  /** `applyDiffChanges(originalContent, acceptedChanges)`; no accepted changes return the content unchanged. */
  function DiffMerge(content: string, changes: seq<DiffLine>): (s: string)
    ensures changes == [] ==> s == content
  {
    var lines := Split(content, '\n');
    NoChangesKeepLines(lines);
    JoinSplit(content, '\n');
    Join(MergedLines(lines, changes), "\n")
  }

  lemma {:induction false} MergeFromAppend(original: seq<string>, start: Merge, a: seq<DiffLine>, b: seq<DiffLine>)
    requires start.index <= |original|
    ensures MergeFrom(original, start, a + b) == MergeFrom(original, MergeFrom(original, start, a), b)
    decreases |b|
  {
    if b == [] {
      assert a + b == a;
    } else {
      assert (a + b)[..|a + b| - 1] == a + b[..|b| - 1];
      MergeFromAppend(original, start, a, b[..|b| - 1]);
    }
  }

  /** No accepted changes leave the lines as they were. */
  lemma NoChangesKeepLines(lines: seq<string>)
    ensures MergedLines(lines, []) == lines
  {
    assert MergeFrom(lines, Merge([], 0), []) == Merge([], 0);
    assert lines[0..] == lines;
  }

  /** The texts of the adds among some changes, in order. */
  function AddedTexts(changes: seq<DiffLine>): seq<string>
    decreases |changes|
  {
    if changes == [] then []
    else AddedTexts(changes[..|changes| - 1]) + (if changes[|changes| - 1].kind == Add then [changes[|changes| - 1].content] else [])
  }

  /** Once the original is used up, only adds contribute. */
  lemma {:induction false} MergeAtEnd(original: seq<string>, out: seq<string>, changes: seq<DiffLine>)
    ensures MergeFrom(original, Merge(out, |original|), changes) == Merge(out + AddedTexts(changes), |original|)
    decreases |changes|
  {
    if changes == [] {
      assert out + [] == out;
    } else {
      MergeAtEnd(original, out, changes[..|changes| - 1]);
    }
  }

  /**
   * A context or remove line that matches no original line uses up the
   * whole original: everything not yet merged is lost and only later adds
   * appear.
   */
  lemma UnmatchedLineDropsRest(original: seq<string>, c: DiffLine, rest: seq<DiffLine>)
    requires c.kind != Add
    requires forall t :: 0 <= t < |original| ==> Trim(original[t]) != Trim(c.content)
    ensures MergedLines(original, [c] + rest) == AddedTexts(rest)
  {
    var start := Merge([], 0);
    MergeFromAppend(original, start, [c], rest);
    assert [c][..0] == [];
    assert MergeFrom(original, start, [c]) == Merge([], |original|);
    MergeAtEnd(original, [], rest);
  }

  /** A remove matching the first original line deletes exactly that line. */
  lemma MatchingRemoveDeletesLine(original: seq<string>, c: DiffLine)
    requires c.kind == Remove && |original| > 0 && Trim(original[0]) == Trim(c.content)
    ensures MergedLines(original, [c]) == original[1..]
  {
    assert [c][..0] == [];
    assert FindLine(original, 0, Trim(c.content)) == 0;
    assert MergeStep(original, Merge([], 0), c) == Merge([], 1);
    assert MergeFrom(original, Merge([], 0), [c]) == Merge([], 1);
  }

  /** Context lines that match the original line by line reproduce the original. */
  lemma {:induction false} MatchingContextKeepsLines(original: seq<string>, changes: seq<DiffLine>)
    requires |changes| <= |original|
    requires forall k :: 0 <= k < |changes| ==> changes[k].kind == Context && Trim(changes[k].content) == Trim(original[k])
    ensures MergeFrom(original, Merge([], 0), changes) == Merge(original[..|changes|], |changes|)
    decreases |changes|
  {
    if changes != [] {
      var n := |changes| - 1;
      var prefix := changes[..n];
      assert MergeFrom(original, Merge([], 0), prefix) == Merge(original[..n], n) by {
        assert forall k :: 0 <= k < n ==> prefix[k] == changes[k];
        MatchingContextKeepsLines(original, prefix);
      }
      var c := changes[n];
      ContextMatchesNext(original, original[..n], n, c);
      assert original[..n + 1] == original[..n] + [original[n]];
    }
  }

  /** A context line matching the next original line copies it. */
  lemma ContextMatchesNext(original: seq<string>, out: seq<string>, n: nat, c: DiffLine)
    requires n < |original| && c.kind == Context && Trim(c.content) == Trim(original[n])
    ensures MergeStep(original, Merge(out, n), c) == Merge(out + [original[n]], n + 1)
  {
    assert FindLine(original, n, Trim(c.content)) == n;
  }

  lemma MatchingContextReproduces(content: string, changes: seq<DiffLine>)
    requires |changes| <= |Split(content, '\n')|
    requires forall k :: 0 <= k < |changes| ==> changes[k].kind == Context && Trim(changes[k].content) == Trim(Split(content, '\n')[k])
    ensures DiffMerge(content, changes) == content
  {
    var lines := Split(content, '\n');
    MatchingContextMerged(lines, changes);
    JoinSplit(content, '\n');
  }

  /** The line-level form: the merged lines are the original lines. */
  lemma MatchingContextMerged(original: seq<string>, changes: seq<DiffLine>)
    requires |changes| <= |original|
    requires forall k :: 0 <= k < |changes| ==> changes[k].kind == Context && Trim(changes[k].content) == Trim(original[k])
    ensures MergedLines(original, changes) == original
  {
    var m := MergeFrom(original, Merge([], 0), changes);
    MatchingContextKeepsLines(original, changes);
    assert m.out == original[..|changes|] && m.index == |changes|;
    assert MergedLines(original, changes) == m.out + original[m.index..];
    assert original[..|changes|] + original[|changes|..] == original;
  }

  /* ---------------- Where each merged line comes from ---------------- */

  /**
   * The origin of one merged line: the original line `line` copied by the
   * context change `change`, the text of the add `change`, or the original line
   * `line` appended after the merge stopped.
   */
  datatype Origin = Copied(line: nat, change: nat) | Inserted(change: nat) | Kept(line: nat)

  /** `text` is the line `o` names. */
  predicate Denotes(original: seq<string>, changes: seq<DiffLine>, o: Origin, text: string)
  {
    match o
    case Copied(j, i) =>
      j < |original| && i < |changes| && changes[i].kind == Context
      && Trim(changes[i].content) == Trim(original[j]) && text == original[j]
    case Inserted(i) => i < |changes| && changes[i].kind == Add && text == changes[i].content
    case Kept(j) => j < |original| && text == original[j]
  }

  /**
   * Original lines appear in increasing position, so each at most once, and
   * each change yields at most one line, in the order of the changes.
   */
  predicate InOrder(s: seq<Origin>)
  {
    forall k, l :: 0 <= k < l < |s| ==>
      (!s[k].Inserted? && !s[l].Inserted? ==> s[k].line < s[l].line)
      && (!s[k].Kept? && !s[l].Kept? ==> s[k].change < s[l].change)
  }

  /** The origins of the lines the changes emit, change by change. */
  function MergeOrigins(original: seq<string>, changes: seq<DiffLine>): seq<Origin>
    decreases |changes|
  {
    if changes == [] then []
    else
      var n := |changes| - 1;
      MergeOrigins(original, changes[..n]) + StepOrigin(original, n, MergeFrom(original, Merge([], 0), changes[..n]), changes[n])
  }

  /** The origins of all of `MergedLines`: the changes' lines, then every original line from where the merge stopped. */
  function MergedOrigins(original: seq<string>, changes: seq<DiffLine>): seq<Origin>
  {
    var m := MergeFrom(original, Merge([], 0), changes);
    MergeOrigins(original, changes) + seq(|original| - m.index, t requires 0 <= t => Kept(m.index + t))
  }

  /** The lines of `out` whose origin is an add, in order. */
  function InsertedLines(out: seq<string>, s: seq<Origin>): seq<string>
    requires |out| == |s|
    decreases |s|
  {
    if s == [] then []
    else InsertedLines(out[..|out| - 1], s[..|s| - 1]) + (if s[|s| - 1].Inserted? then [out[|out| - 1]] else [])
  }

  /** `s` gives the origins of the merge `m` of `changes`. */
  predicate MergeFits(original: seq<string>, changes: seq<DiffLine>, m: Merge, s: seq<Origin>)
  {
    && |s| == |m.out|
    && (forall k :: 0 <= k < |s| ==>
          !s[k].Kept? && s[k].change < |changes| && Denotes(original, changes, s[k], m.out[k])
          && (s[k].Copied? ==> s[k].line < m.index))
    && InOrder(s)
    && (forall i :: 0 <= i < |changes| && changes[i].kind == Add ==> Inserted(i) in s)
    && InsertedLines(m.out, s) == AddedTexts(changes)
  }

  /** The origins fit the merge of any changes. */
  lemma {:induction false} MergeOriginsFit(original: seq<string>, changes: seq<DiffLine>)
    ensures MergeFits(original, changes, MergeFrom(original, Merge([], 0), changes), MergeOrigins(original, changes))
    decreases |changes|
  {
    if changes != [] {
      MergeOriginsFit(original, changes[..|changes| - 1]);
      OriginStep(original, changes);
    }
  }

  /** One more change keeps the origins fitting. */
  lemma OriginStep(original: seq<string>, changes: seq<DiffLine>)
    requires changes != []
    requires var prefix := changes[..|changes| - 1];
      MergeFits(original, prefix, MergeFrom(original, Merge([], 0), prefix), MergeOrigins(original, prefix))
    ensures MergeFits(original, changes, MergeFrom(original, Merge([], 0), changes), MergeOrigins(original, changes))
  {
    var prefix := changes[..|changes| - 1];
    ExtendFits(original, changes, MergeFrom(original, Merge([], 0), prefix), MergeOrigins(original, prefix));
  }

  /** The origin, if any, of the line one change adds to the merge `m`. */
  function StepOrigin(original: seq<string>, n: nat, m: Merge, c: DiffLine): seq<Origin>
    requires m.index <= |original|
  {
    var j := FindLine(original, m.index, Trim(c.content));
    if c.kind == Add then [Inserted(n)] else if c.kind == Context && j < |original| then [Copied(j, n)] else []
  }

  /** The merge `m` of all changes but the last, with origins `s0`, extended by the last change. */
  lemma ExtendFits(original: seq<string>, changes: seq<DiffLine>, m: Merge, s0: seq<Origin>)
    requires changes != [] && m.index <= |original|
    requires MergeFits(original, changes[..|changes| - 1], m, s0)
    ensures var n := |changes| - 1;
      MergeFits(original, changes, MergeStep(original, m, changes[n]), s0 + StepOrigin(original, n, m, changes[n]))
  {
    ExtendDenotes(original, changes, m, s0);
    ExtendOrder(original, changes, m, s0);
    ExtendComplete(original, changes, m, s0);
    ExtendInserted(original, changes, m, s0);
  }

  lemma ExtendComplete(original: seq<string>, changes: seq<DiffLine>, m: Merge, s0: seq<Origin>)
    requires changes != [] && m.index <= |original|
    requires var prefix := changes[..|changes| - 1];
      forall i :: 0 <= i < |prefix| && prefix[i].kind == Add ==> Inserted(i) in s0
    ensures var n := |changes| - 1;
      forall i :: 0 <= i < |changes| && changes[i].kind == Add ==> Inserted(i) in s0 + StepOrigin(original, n, m, changes[n])
  {
    var n := |changes| - 1;
    var prefix := changes[..n];
    var s := s0 + StepOrigin(original, n, m, changes[n]);
    forall i | 0 <= i < |changes| && changes[i].kind == Add
      ensures Inserted(i) in s
    {
      if i < n {
        assert prefix[i] == changes[i];
        assert Inserted(i) in s0;
      } else {
        assert s[|s| - 1] == Inserted(i);
      }
    }
  }

  lemma ExtendInserted(original: seq<string>, changes: seq<DiffLine>, m: Merge, s0: seq<Origin>)
    requires changes != [] && m.index <= |original|
    requires |s0| == |m.out| && InsertedLines(m.out, s0) == AddedTexts(changes[..|changes| - 1])
    ensures var n := |changes| - 1;
      var r := MergeStep(original, m, changes[n]);
      var s := s0 + StepOrigin(original, n, m, changes[n]);
      |s| == |r.out| && InsertedLines(r.out, s) == AddedTexts(changes)
  {
    var n := |changes| - 1;
    var r := MergeStep(original, m, changes[n]);
    var tail := StepOrigin(original, n, m, changes[n]);
    var s := s0 + tail;
    assert r.out == m.out + (if |tail| == 1 then [r.out[|r.out| - 1]] else []);
    if |tail| == 1 {
      assert s[..|s| - 1] == s0 && r.out[..|r.out| - 1] == m.out;
    } else {
      assert s == s0 && r.out == m.out;
    }
  }

  lemma ExtendDenotes(original: seq<string>, changes: seq<DiffLine>, m: Merge, s0: seq<Origin>)
    requires changes != [] && m.index <= |original|
    requires MergeFits(original, changes[..|changes| - 1], m, s0)
    ensures var n := |changes| - 1;
      var r := MergeStep(original, m, changes[n]);
      var s := s0 + StepOrigin(original, n, m, changes[n]);
      |s| == |r.out| && m.index <= r.index
      && forall k :: 0 <= k < |s| ==>
           !s[k].Kept? && s[k].change < |changes| && Denotes(original, changes, s[k], r.out[k])
           && (s[k].Copied? ==> s[k].line < r.index)
  {
    var n := |changes| - 1;
    var prefix := changes[..n];
    var r := MergeStep(original, m, changes[n]);
    var s := s0 + StepOrigin(original, n, m, changes[n]);
    forall k | 0 <= k < |s|
      ensures !s[k].Kept? && s[k].change < |changes| && Denotes(original, changes, s[k], r.out[k])
      ensures s[k].Copied? ==> s[k].line < r.index
    {
      if k < |s0| {
        assert s[k] == s0[k] && r.out[k] == m.out[k];
        assert Denotes(original, prefix, s0[k], m.out[k]);
        assert changes[s0[k].change] == prefix[s0[k].change];
      }
    }
  }

  lemma ExtendOrder(original: seq<string>, changes: seq<DiffLine>, m: Merge, s0: seq<Origin>)
    requires changes != [] && m.index <= |original|
    requires MergeFits(original, changes[..|changes| - 1], m, s0)
    ensures var n := |changes| - 1;
      InOrder(s0 + StepOrigin(original, n, m, changes[n]))
  {
    var n := |changes| - 1;
    var tail := StepOrigin(original, n, m, changes[n]);
    var s := s0 + tail;
    forall k, l | 0 <= k < l < |s|
      ensures !s[k].Inserted? && !s[l].Inserted? ==> s[k].line < s[l].line
      ensures !s[k].Kept? && !s[l].Kept? ==> s[k].change < s[l].change
    {
      if l < |s0| {
        assert s[k] == s0[k] && s[l] == s0[l];
      } else {
        assert s[k] == s0[k] && s[l] == tail[0];
      }
    }
  }

  /** Appending lines none of whose origins is an add leaves the inserted lines as they were. */
  lemma {:induction false} InsertedLinesKept(out: seq<string>, s: seq<Origin>, more: seq<string>, ks: seq<Origin>)
    requires |out| == |s| && |more| == |ks|
    requires forall t :: 0 <= t < |ks| ==> !ks[t].Inserted?
    ensures InsertedLines(out + more, s + ks) == InsertedLines(out, s)
    decreases |ks|
  {
    if ks != [] {
      var n := |ks| - 1;
      assert (out + more)[..|out + more| - 1] == out + more[..n];
      assert (s + ks)[..|s + ks| - 1] == s + ks[..n];
      InsertedLinesKept(out, s, more[..n], ks[..n]);
    } else {
      assert out + more == out && s + ks == s;
    }
  }

  /**
   * Where every line of `applyDiffChanges`'s result comes from: each is the
   * text of an add, an original line copied by a context change whose
   * trimmed text it matches, or an original line at or after where the merge
   * stopped; original lines keep their order and appear at most once, so an
   * original line the searches passed over is dropped; every add appears,
   * and the add lines read in order are exactly the adds' texts.
   */
  lemma MergeProvenance(original: seq<string>, changes: seq<DiffLine>)
    ensures var out := MergedLines(original, changes);
      var s := MergedOrigins(original, changes);
      var stop := MergeFrom(original, Merge([], 0), changes).index;
      && |s| == |out|
      && (forall k :: 0 <= k < |s| ==> Denotes(original, changes, s[k], out[k]))
      && (forall k :: 0 <= k < |s| ==> (s[k].Copied? ==> s[k].line < stop) && (s[k].Kept? ==> stop <= s[k].line))
      && InOrder(s)
      && (forall i :: 0 <= i < |changes| && changes[i].kind == Add ==> Inserted(i) in s)
      && (forall j :: stop <= j < |original| ==> Kept(j) in s)
      && InsertedLines(out, s) == AddedTexts(changes)
  {
    var m := MergeFrom(original, Merge([], 0), changes);
    var s0 := MergeOrigins(original, changes);
    MergeOriginsFit(original, changes);
    var ks := seq(|original| - m.index, t requires 0 <= t => Kept(m.index + t));
    assert MergedOrigins(original, changes) == s0 + ks;
    assert MergedLines(original, changes) == m.out + original[m.index..];
    RemainderDenotes(original, changes, m, s0, ks);
    RemainderOrder(original, changes, m, s0, ks);
    RemainderComplete(original, changes, m, s0, ks);
    InsertedLinesKept(m.out, s0, original[m.index..], ks);
  }

  /** With the remainder appended, every add and every original line from where the merge stopped has its origin. */
  lemma RemainderComplete(original: seq<string>, changes: seq<DiffLine>, m: Merge, s0: seq<Origin>, ks: seq<Origin>)
    requires m.index <= |original|
    requires forall i :: 0 <= i < |changes| && changes[i].kind == Add ==> Inserted(i) in s0
    requires ks == seq(|original| - m.index, t requires 0 <= t => Kept(m.index + t))
    ensures forall i :: 0 <= i < |changes| && changes[i].kind == Add ==> Inserted(i) in s0 + ks
    ensures forall j :: m.index <= j < |original| ==> Kept(j) in s0 + ks
  {
    forall j | m.index <= j < |original|
      ensures Kept(j) in s0 + ks
    {
      assert ks[j - m.index] == Kept(j);
      assert Kept(j) in ks;
    }
  }

  /** The origins of the remainder name the lines after where the merge stopped. */
  lemma RemainderDenotes(original: seq<string>, changes: seq<DiffLine>, m: Merge, s0: seq<Origin>, ks: seq<Origin>)
    requires m.index <= |original| && MergeFits(original, changes, m, s0)
    requires ks == seq(|original| - m.index, t requires 0 <= t => Kept(m.index + t))
    ensures var s := s0 + ks;
      var out := m.out + original[m.index..];
      |s| == |out|
      && (forall k :: 0 <= k < |s| ==> Denotes(original, changes, s[k], out[k]))
      && (forall k :: 0 <= k < |s| ==> (s[k].Copied? ==> s[k].line < m.index) && (s[k].Kept? ==> m.index <= s[k].line))
  {
    var s := s0 + ks;
    var out := m.out + original[m.index..];
    forall k | 0 <= k < |s|
      ensures Denotes(original, changes, s[k], out[k])
      ensures s[k].Copied? ==> s[k].line < m.index
      ensures s[k].Kept? ==> m.index <= s[k].line
    {
      if k < |s0| {
        assert s[k] == s0[k] && out[k] == m.out[k];
      } else {
        assert s[k] == Kept(m.index + k - |s0|) && out[k] == original[m.index + k - |s0|];
      }
    }
  }

  /** The remainder's origins follow the merge's in order. */
  lemma RemainderOrder(original: seq<string>, changes: seq<DiffLine>, m: Merge, s0: seq<Origin>, ks: seq<Origin>)
    requires m.index <= |original| && MergeFits(original, changes, m, s0)
    requires ks == seq(|original| - m.index, t requires 0 <= t => Kept(m.index + t))
    ensures InOrder(s0 + ks)
  {
    var s := s0 + ks;
    forall k, l | 0 <= k < l < |s|
      ensures !s[k].Inserted? && !s[l].Inserted? ==> s[k].line < s[l].line
      ensures !s[k].Kept? && !s[l].Kept? ==> s[k].change < s[l].change
    {
      if l < |s0| {
        assert s[k] == s0[k] && s[l] == s0[l];
      } else if k < |s0| {
        assert s[k] == s0[k] && s[l] == ks[l - |s0|];
      } else {
        assert s[k] == ks[k - |s0|] && s[l] == ks[l - |s0|];
      }
    }
  }

  /* ---------------- The loops ---------------- */

  /** A search for a context or remove line that stops at a match at `j`. */
  lemma SearchMatched(original: seq<string>, m: Merge, c: DiffLine, j: nat)
    requires m.index <= j < |original| && c.kind != Add && Trim(original[j]) == Trim(c.content)
    requires FindLine(original, m.index, Trim(c.content)) == FindLine(original, j, Trim(c.content))
    ensures MergeStep(original, m, c) == Merge(m.out + (if c.kind == Context then [original[j]] else []), j + 1)
  {
    assert FindLine(original, j, Trim(c.content)) == j;
  }

  /** A search for a context or remove line that reaches the end of the original. */
  lemma SearchMissed(original: seq<string>, m: Merge, c: DiffLine)
    requires m.index <= |original| && c.kind != Add
    requires FindLine(original, m.index, Trim(c.content)) == FindLine(original, |original|, Trim(c.content))
    ensures MergeStep(original, m, c) == Merge(m.out, |original|)
  {
  }

  /** One block: the file name and the numbering loop from the second line on. */
  method ParseBlock(block: string) returns (r: FileDiff)
    ensures r == BlockDiff(block)
  {
    var lines := BlockLines(block);
    var filename := FileName(lines);
    var changes: seq<DiffLine> := [];
    var originalLineNum: nat := 1;
    var newLineNum: nat := 1;
    if |lines| == 0 {
      return FileDiff(filename, changes);
    }
    for i := 1 to |lines|
      invariant Numbered(lines[1..i]) == Numbering(changes, originalLineNum, newLineNum)
    {
      assert lines[1..i + 1][..i - 1] == lines[1..i];
      var line := lines[i];
      if line == "" || StartsWith(line, "---") {
        continue;
      }
      if StartsWith(line, "+") {
        changes := changes + [DiffLine(Add, Drop(line, 2), None, Some(newLineNum))];
        newLineNum := newLineNum + 1;
      } else if StartsWith(line, "-") {
        changes := changes + [DiffLine(Remove, Drop(line, 2), Some(originalLineNum), None)];
        originalLineNum := originalLineNum + 1;
      } else if StartsWith(line, " ") {
        changes := changes + [DiffLine(Context, Drop(line, 2), Some(originalLineNum), Some(newLineNum))];
        originalLineNum := originalLineNum + 1;
        newLineNum := newLineNum + 1;
      }
    }
    assert lines[1..|lines|] == lines[1..];
    r := FileDiff(filename, changes);
  }

  /** `parseDiffSuggestion(markdown)`: every block mapped. */
  method ParseDiffSuggestions(markdown: string) returns (r: seq<FileDiff>)
    ensures r == ParseDiffSuggestion(markdown)
  {
    var blocks := FenceBlocks(markdown);
    if |blocks| == 0 {
      return [];
    }
    r := [];
    for k := 0 to |blocks|
      invariant |r| == k && forall t :: 0 <= t < k ==> r[t] == BlockDiff(blocks[t])
    {
      var d := ParseBlock(blocks[k]);
      r := r + [d];
    }
  }

  /** `applyDiffChanges(originalContent, acceptedChanges)`. */
  method ApplyDiffChanges(originalContent: string, acceptedChanges: seq<DiffLine>) returns (s: string)
    ensures s == DiffMerge(originalContent, acceptedChanges)
  {
    var originalLines := Split(originalContent, '\n');
    var result: seq<string> := [];
    var originalIndex: nat := 0;
    var i := 0;
    while i < |acceptedChanges|
      invariant 0 <= i <= |acceptedChanges| && originalIndex <= |originalLines|
      invariant MergeFrom(originalLines, Merge([], 0), acceptedChanges[..i]) == Merge(result, originalIndex)
    {
      assert acceptedChanges[..i + 1][..i] == acceptedChanges[..i];
      result, originalIndex := MergeChange(originalLines, result, originalIndex, acceptedChanges[i]);
      i := i + 1;
    }
    assert acceptedChanges[..i] == acceptedChanges;
    while originalIndex < |originalLines|
      invariant originalIndex <= |originalLines|
      invariant result + originalLines[originalIndex..] == MergedLines(originalLines, acceptedChanges)
    {
      assert originalLines[originalIndex..] == [originalLines[originalIndex]] + originalLines[originalIndex + 1..];
      result := result + [originalLines[originalIndex]];
      originalIndex := originalIndex + 1;
    }
    assert originalLines[originalIndex..] == [];
    assert result == MergedLines(originalLines, acceptedChanges);
    s := Join(result, "\n");
  }

  /**
   * The body of `applyDiffChanges`'s loop for one accepted change: an add
   * emits its text; a context or remove line searches forward for its
   * trimmed text, copying the match for context and skipping it for remove.
   */
  method MergeChange(originalLines: seq<string>, result: seq<string>, originalIndex: nat, change: DiffLine)
    returns (out: seq<string>, index: nat)
    requires originalIndex <= |originalLines|
    ensures Merge(out, index) == MergeStep(originalLines, Merge(result, originalIndex), change)
  {
    out, index := result, originalIndex;
    if change.kind == Context || change.kind == Remove {
      var text := Trim(change.content);
      ghost var matched := false;
      while index < |originalLines|
        invariant originalIndex <= index <= |originalLines| && out == result
        invariant FindLine(originalLines, originalIndex, text) == FindLine(originalLines, index, text)
      {
        if Trim(originalLines[index]) == text {
          SearchMatched(originalLines, Merge(result, originalIndex), change, index);
          if change.kind == Context {
            out := out + [originalLines[index]];
          }
          index := index + 1;
          matched := true;
          break;
        }
        index := index + 1;
      }
      if !matched {
        SearchMissed(originalLines, Merge(result, originalIndex), change);
      }
    } else {
      out := out + [change.content];
    }
  }
}
