/**
 * POSIX path handling from Node's `path` module, on '/'-separated segments:
 * `normalize`, `resolve`, `join` and `relative`. The workspace directory is
 * an absolute path, so `resolve` never consults the process's working
 * directory.
 */
module Paths {
  import opened Strings

  predicate IsAbsolute(p: string)
  {
    |p| > 0 && p[0] == '/'
  }

  /** A segment that names a directory entry, as opposed to "", "." or "..". */
  predicate IsName(seg: string)
  {
    seg != "" && seg != "." && seg != ".." && '/' !in seg
  }

  /**
   * One step of segment normalisation: "" and "." are dropped, ".." removes
   * the previous name, and where there is none it is kept for a relative
   * path (allowAboveRoot) and dropped at the root of an absolute one.
   */
  function StepSegment(allowAboveRoot: bool, acc: seq<string>, seg: string): seq<string>
  {
    if seg == "" || seg == "." then acc
    else if seg == ".." then
      if |acc| > 0 && acc[|acc| - 1] != ".." then acc[..|acc| - 1]
      else if allowAboveRoot then acc + [".."]
      else acc
    else acc + [seg]
  }

  function NormalizeSegments(allowAboveRoot: bool, acc: seq<string>, segs: seq<string>): seq<string>
    decreases |segs|
  {
    if segs == [] then acc
    else NormalizeSegments(allowAboveRoot, StepSegment(allowAboveRoot, acc, segs[0]), segs[1..])
  }

  /** Normalising a concatenation is normalising the second part from where the first left off. */
  lemma {:induction false} NormalizeSegmentsAppend(b: bool, acc: seq<string>, x: seq<string>, y: seq<string>)
    ensures NormalizeSegments(b, acc, x + y) == NormalizeSegments(b, NormalizeSegments(b, acc, x), y)
    decreases |x|
  {
    if x == [] {
      assert x + y == y;
    } else {
      assert (x + y)[0] == x[0] && (x + y)[1..] == x[1..] + y;
      NormalizeSegmentsAppend(b, StepSegment(b, acc, x[0]), x[1..], y);
    }
  }

  /** The names among some segments, in order. */
  function Names(segs: seq<string>): seq<string>
  {
    if segs == [] then []
    else (if segs[0] == "" || segs[0] == "." then [] else [segs[0]]) + Names(segs[1..])
  }

  /** Without "..", normalisation only drops the empty and "." segments. */
  lemma {:induction false} NormalizeWithoutParent(b: bool, acc: seq<string>, segs: seq<string>)
    requires ".." !in segs
    ensures NormalizeSegments(b, acc, segs) == acc + Names(segs)
    decreases |segs|
  {
    if segs != [] {
      var seg := segs[0];
      assert segs == [seg] + segs[1..];
      var head := if seg == "" || seg == "." then [] else [seg];
      assert StepSegment(b, acc, seg) == acc + head;
      assert Names(segs) == head + Names(segs[1..]);
      NormalizeWithoutParent(b, acc + head, segs[1..]);
      assert (acc + head) + Names(segs[1..]) == acc + (head + Names(segs[1..]));
    }
  }

  /** `path.normalize(p)`. */
  function Normalize(p: string): string
  {
    if p == "" then "."
    else
      var absolute := p[0] == '/';
      Finish(absolute, p[|p| - 1] == '/', Join(NormalizeSegments(!absolute, [], Split(p, '/')), "/"))
  }

  /** The last part of `normalize`: put back the leading and trailing separators around the body. */
  function Finish(absolute: bool, trailing: bool, body: string): string
  {
    if body == "" then (if absolute then "/" else if trailing then "./" else ".")
    else
      var withSlash := if trailing then body + "/" else body;
      if absolute then "/" + withSlash else withSlash
  }

  /** The names of an absolute path once resolved. */
  function AbsoluteSegments(p: string): seq<string>
  {
    NormalizeSegments(false, [], Split(p, '/'))
  }

  /** An absolute path from its names: "/" for none. */
  function Render(segs: seq<string>): string
  {
    "/" + Join(segs, "/")
  }

  /** `path.resolve(ws, p)`: normalised, absolute, no trailing separator. */
  function Resolve(ws: string, p: string): string
  {
    if IsAbsolute(p) then Render(AbsoluteSegments(p))
    else Render(NormalizeSegments(false, [], Split(ws, '/') + Split(p, '/')))
  }

  /** `path.join(a, b)`: the non-empty arguments joined by "/", then normalised. */
  function JoinPath(a: string, b: string): string
  {
    var joined := if a == "" then b else if b == "" then a else a + "/" + b;
    if joined == "" then "." else Normalize(joined)
  }

  function CommonPrefixLength(a: seq<string>, b: seq<string>): (k: nat)
    ensures k <= |a| && k <= |b| && a[..k] == b[..k]
    ensures k < |a| && k < |b| ==> a[k] != b[k]
    decreases |a|
  {
    if a == [] || b == [] || a[0] != b[0] then 0
    else
      var k := CommonPrefixLength(a[1..], b[1..]);
      assert a[..k + 1] == [a[0]] + a[1..][..k];
      assert b[..k + 1] == [b[0]] + b[1..][..k];
      k + 1
  }

  /** `path.relative(from, to)` for absolute arguments: up to the common directory, then down. */
  function Relative(from: string, to: string): string
  {
    var f := AbsoluteSegments(from);
    var t := AbsoluteSegments(to);
    var k := CommonPrefixLength(f, t);
    Join(seq(|f| - k, _ => "..") + t[k..], "/")
  }

  /** A directory that is already in resolved form. */
  predicate IsResolvedDirectory(ws: string)
  {
    ws == Render(AbsoluteSegments(ws))
  }

  lemma {:induction false} NamesAreNames(segs: seq<string>)
    requires forall i :: 0 <= i < |segs| ==> '/' !in segs[i] && segs[i] != ".."
    ensures forall i :: 0 <= i < |Names(segs)| ==> IsName(Names(segs)[i])
    decreases |segs|
  {
    if segs != [] {
      NamesAreNames(segs[1..]);
    }
  }

  lemma JoinStartsWithFirst(parts: seq<string>, sep: string)
    requires |parts| >= 1 && |parts[0]| >= 1
    ensures |Join(parts, sep)| >= 1 && Join(parts, sep)[0] == parts[0][0]
  {
  }

  /** The normal form of a relative path without "..": its names, and possibly "." or a trailing "". */
  lemma NormalizeRelativeShape(p: string)
    requires p != "" && p[0] != '/' && ".." !in Split(p, '/')
    ensures Normalize(p) == NormalizedFrom(Names(Split(p, '/')), p[|p| - 1] == '/')
  {
    var segs := Split(p, '/');
    NormalizeWithoutParent(true, [], segs);
    assert NormalizeSegments(true, [], segs) == Names(segs);
    assert (p[0] == '/') == false;
  }

  /** What `normalize` builds from the names of a relative path and whether it ended in "/". */
  function NormalizedFrom(n: seq<string>, trailing: bool): string
  {
    Finish(false, trailing, Join(n, "/"))
  }

  lemma {:induction false} SplitNormalizedFrom(n: seq<string>, trailing: bool, w: seq<string>)
    requires forall i :: 0 <= i < |n| ==> IsName(n[i])
    ensures NormalizeSegments(false, w, Split(NormalizedFrom(n, trailing), '/')) == w + n
    ensures !IsAbsolute(NormalizedFrom(n, trailing))
  {
    if n == [] {
      var pieces := if trailing then [".", ""] else ["."];
      assert Join(pieces, "/") == NormalizedFrom(n, trailing);
      SplitJoin(pieces, '/');
      NormalizeWithoutParent(false, w, pieces);
      assert Names(pieces) == [];
    } else {
      JoinStartsWithFirst(n, "/");
      var pieces := if trailing then n + [""] else n;
      if trailing {
        JoinAppend(n, [""], "/");
      }
      assert Join(pieces, "/") == NormalizedFrom(n, trailing);
      assert forall i :: 0 <= i < |pieces| ==> '/' !in pieces[i];
      SplitJoin(pieces, '/');
      NamesOfNames(n);
      NamesAppendEmpty(n);
      assert ".." !in pieces;
      NormalizeWithoutParent(false, w, pieces);
    }
  }

  lemma {:induction false} NamesOfNames(n: seq<string>)
    requires forall i :: 0 <= i < |n| ==> IsName(n[i])
    ensures Names(n) == n
    decreases |n|
  {
    if n != [] {
      NamesOfNames(n[1..]);
    }
  }

  lemma {:induction false} NamesAppendEmpty(n: seq<string>)
    ensures Names(n + [""]) == Names(n)
    decreases |n|
  {
    if n == [] {
      assert Names([""]) == [] + Names([]);
    } else {
      assert (n + [""])[1..] == n[1..] + [""];
      NamesAppendEmpty(n[1..]);
    }
  }

  lemma RenderExtends(w: seq<string>, n: seq<string>)
    ensures StartsWith(Render(w + n), Render(w))
  {
    if w != [] && n != [] {
      JoinAppend(w, n, "/");
      assert Render(w + n) == Render(w) + "/" + Join(n, "/");
    } else if w == [] {
      assert Render(w) == "/";
    } else {
      assert w + n == w;
    }
  }

  /**
   * A relative path with no ".." segment resolves inside the workspace:
   * `path.resolve(ws, path.normalize(p))` starts with `ws`.
   */
  lemma RelativeWithoutParentStaysInside(ws: string, p: string)
    requires IsResolvedDirectory(ws)
    requires !IsAbsolute(p) && ".." !in Split(p, '/')
    ensures StartsWith(Resolve(ws, Normalize(p)), ws)
  {
    var w := AbsoluteSegments(ws);
    if p == "" {
      assert Normalize(p) == ".";
      SplitNoSeparator(".", '/');
      NormalizeSegmentsAppend(false, [], Split(ws, '/'), ["."]);
      assert Resolve(ws, Normalize(p)) == Render(w);
    } else {
      var n := Names(Split(p, '/'));
      NormalizeRelativeShape(p);
      NamesAreNames(Split(p, '/'));
      SplitNormalizedFrom(n, p[|p| - 1] == '/', w);
      NormalizeSegmentsAppend(false, [], Split(ws, '/'), Split(Normalize(p), '/'));
      assert Resolve(ws, Normalize(p)) == Render(w + Names(Split(p, '/')));
      RenderExtends(w, Names(Split(p, '/')));
    }
  }

  /* ---------------- Paths made of names ---------------- */

  /** Splitting at a separator placed between two texts splits each of them. */
  lemma {:induction false} SplitConcat(x: string, sep: char, y: string)
    ensures Split(x + [sep] + y, sep) == Split(x, sep) + Split(y, sep)
    decreases |x|
  {
    if |x| == 0 {
      SplitAfterPiece(x, sep, y);
    } else {
      var s := x + [sep] + y;
      assert s[0] == x[0] && s[1..] == x[1..] + [sep] + y;
      SplitConcat(x[1..], sep, y);
    }
  }

  /** Resolution without a parent segment yields names only. */
  lemma {:induction false} NormalizeAbsoluteNames(acc: seq<string>, segs: seq<string>)
    requires forall i :: 0 <= i < |acc| ==> IsName(acc[i])
    requires forall i :: 0 <= i < |segs| ==> '/' !in segs[i]
    ensures forall i :: 0 <= i < |NormalizeSegments(false, acc, segs)| ==> IsName(NormalizeSegments(false, acc, segs)[i])
    decreases |segs|
  {
    if segs != [] {
      NormalizeAbsoluteNames(StepSegment(false, acc, segs[0]), segs[1..]);
    }
  }

  lemma AbsoluteSegmentsAreNames(p: string)
    ensures forall i :: 0 <= i < |AbsoluteSegments(p)| ==> IsName(AbsoluteSegments(p)[i])
  {
    NormalizeAbsoluteNames([], Split(p, '/'));
  }

  predicate AllNames(v: seq<string>)
  {
    forall i :: 0 <= i < |v| ==> IsName(v[i])
  }

  lemma AllNamesAppend(a: seq<string>, b: seq<string>)
    ensures AllNames(a + b) <==> AllNames(a) && AllNames(b)
  {
    if AllNames(a + b) {
      forall i | 0 <= i < |a| ensures IsName(a[i]) { assert (a + b)[i] == a[i]; }
      forall i | 0 <= i < |b| ensures IsName(b[i]) { assert (a + b)[|a| + i] == b[i]; }
    }
  }

  /** Rendering names and resolving them again gives the names back. */
  lemma AbsoluteSegmentsOfRender(v: seq<string>)
    requires AllNames(v)
    ensures AbsoluteSegments(Render(v)) == v
  {
    if v == [] {
      SplitJoin(["", ""], '/');
      assert Join(["", ""], "/") == "/";
    } else {
      var pieces := [""] + v;
      assert pieces[1..] == v;
      assert Join(pieces, "/") == Render(v);
      SplitJoin(pieces, '/');
      NormalizeWithoutParent(false, [], pieces);
      NamesOfNames(v);
      assert Names(pieces) == Names(v);
    }
  }

  /** A resolved directory has the form `Render(w)` for names `w`. */
  lemma ResolvedDirectoryShape(ws: string)
    requires IsResolvedDirectory(ws)
    ensures AllNames(AbsoluteSegments(ws)) && ws == Render(AbsoluteSegments(ws))
    ensures Split(ws, '/') == (if AbsoluteSegments(ws) == [] then ["", ""] else [""] + AbsoluteSegments(ws))
  {
    var w := AbsoluteSegments(ws);
    AbsoluteSegmentsAreNames(ws);
    if w == [] {
      SplitJoin(["", ""], '/');
      assert Join(["", ""], "/") == "/";
    } else {
      var pieces := [""] + w;
      assert pieces[1..] == w;
      assert Join(pieces, "/") == ws;
      SplitJoin(pieces, '/');
    }
  }

  lemma CommonPrefixOfExtension(a: seq<string>, b: seq<string>)
    ensures CommonPrefixLength(a, a + b) == |a|
  {
    assert (a + b)[..|a|] == a[..|a|];
    CommonPrefixUnique(a, a + b, |a|);
  }

  /** Relative to a directory, a path below it is the names under it. */
  lemma RelativeToDescendant(ws: string, tail: seq<string>)
    requires IsResolvedDirectory(ws) && AllNames(tail)
    ensures Relative(ws, Render(AbsoluteSegments(ws) + tail)) == Join(tail, "/")
  {
    var w := AbsoluteSegments(ws);
    ResolvedDirectoryShape(ws);
    assert AllNames(w + tail);
    AbsoluteSegmentsOfRender(w + tail);
    CommonPrefixOfExtension(w, tail);
    assert (w + tail)[|w|..] == tail;
    assert seq(|w| - |w|, _ => "..") + tail == tail;
  }

  /** Resolving a single name inside a directory appends it. */
  lemma ResolveName(ws: string, a: string)
    requires IsResolvedDirectory(ws) && IsName(a)
    ensures Resolve(ws, a) == Render(AbsoluteSegments(ws) + [a])
  {
    SplitNoSeparator(a, '/');
    NormalizeSegmentsAppend(false, [], Split(ws, '/'), [a]);
    AbsoluteSegmentsAreNames(ws);
  }

  /** An absolute path without a trailing separator normalises to its resolved form, unless that is the root. */
  lemma NormalizeAbsolute(q: string)
    requires IsAbsolute(q) && q[|q| - 1] != '/'
    requires AbsoluteSegments(q) != [] && AllNames(AbsoluteSegments(q))
    ensures Normalize(q) == Render(AbsoluteSegments(q))
  {
    var v := AbsoluteSegments(q);
    JoinStartsWithFirst(v, "/");
    assert Join(v, "/") != "";
  }

  /** `path.join(ws, p)` for a `p` whose segments resolve, below `ws`, to the names `tail`. */
  lemma JoinPathBelow(ws: string, p: string, tail: seq<string>)
    requires IsResolvedDirectory(ws) && p != ""
    requires NormalizeSegments(false, AbsoluteSegments(ws), Split(p, '/')) == AbsoluteSegments(ws) + tail
    requires p[|p| - 1] != '/' && tail != [] && AllNames(tail)
    ensures JoinPath(ws, p) == Render(AbsoluteSegments(ws) + tail)
  {
    var w := AbsoluteSegments(ws);
    var joined := ws + "/" + p;
    assert ws != "" && AllNames(w) by {
      ResolvedDirectoryShape(ws);
    }
    assert JoinPath(ws, p) == Normalize(joined);
    assert Split(joined, '/') == Split(ws, '/') + Split(p, '/') by {
      assert joined == ws + ['/'] + p;
      SplitConcat(ws, '/', p);
    }
    assert AbsoluteSegments(joined) == w + tail by {
      NormalizeSegmentsAppend(false, [], Split(ws, '/'), Split(p, '/'));
    }
    assert IsAbsolute(joined) && joined[|joined| - 1] != '/' by {
      assert joined[0] == ws[0] == '/';
      assert joined[|joined| - 1] == p[|p| - 1];
    }
    assert AllNames(w + tail);
    NormalizeAbsolute(joined);
  }

  /** ".." is already normal. */
  lemma NormalizeParent()
    ensures Normalize("..") == ".."
  {
    SplitNoSeparator("..", '/');
    assert StepSegment(true, [], "..") == [".."];
    assert NormalizeSegments(true, [], [".."]) == [".."];
  }

  /** A relative path resolves by normalising its segments after the directory's names. */
  lemma ResolveRelative(ws: string, p: string)
    requires !IsAbsolute(p)
    ensures Resolve(ws, p) == Render(NormalizeSegments(false, AbsoluteSegments(ws), Split(p, '/')))
  {
    NormalizeSegmentsAppend(false, [], Split(ws, '/'), Split(p, '/'));
  }

  /** Resolving ".." in a directory other than the root drops its last name, so the result is shorter. */
  lemma ResolveParent(ws: string)
    requires IsResolvedDirectory(ws) && ws != "/"
    ensures var w := AbsoluteSegments(ws); w != [] && Resolve(ws, "..") == Render(w[..|w| - 1])
    ensures !StartsWith(Resolve(ws, ".."), ws)
  {
    var w := AbsoluteSegments(ws);
    ResolvedDirectoryShape(ws);
    assert w != [];
    SplitNoSeparator("..", '/');
    ResolveRelative(ws, "..");
    var up := w[..|w| - 1];
    assert IsName(w[|w| - 1]);
    assert StepSegment(false, w, "..") == up;
    assert w == up + [w[|w| - 1]];
    RenderDropLast(up, w[|w| - 1]);
  }

  /** "./" followed by a name normalises to the name. */
  lemma NormalizeDotName(a: string)
    requires IsName(a)
    ensures Normalize("./" + a) == a
    ensures Split("./" + a, '/') == [".", a]
  {
    SplitAfterPiece(".", '/', a);
    SplitNoSeparator(a, '/');
    assert "./" + a == "." + ['/'] + a;
    var p := "./" + a;
    assert p[|p| - 1] == a[|a| - 1];
    assert a[|a| - 1] in a;
    assert StepSegment(true, [], ".") == [];
    assert NormalizeSegments(true, [], [".", a]) == NormalizeSegments(true, [], [a]) == [a];
    assert Join([a], "/") == a;
  }

  /** `path.join` sends "a" and "./a" for a name `a` to the same file. */
  lemma JoinDotName(ws: string, a: string)
    requires IsResolvedDirectory(ws) && IsName(a)
    ensures var key := Render(AbsoluteSegments(ws) + [a]);
      JoinPath(ws, a) == key && JoinPath(ws, "./" + a) == key
  {
    var w := AbsoluteSegments(ws);
    assert a[|a| - 1] in a;
    assert JoinPath(ws, a) == Render(w + [a]) by {
      SplitNoSeparator(a, '/');
      JoinPathBelow(ws, a, [a]);
    }
    assert JoinPath(ws, "./" + a) == Render(w + [a]) by {
      NormalizeDotName(a);
      assert StepSegment(false, w, ".") == w;
      assert StepSegment(false, w, a) == w + [a];
      assert NormalizeSegments(false, w, [".", a]) == NormalizeSegments(false, w, [a]) == w + [a];
      assert ("./" + a)[|"./" + a| - 1] == a[|a| - 1];
      JoinPathBelow(ws, "./" + a, [a]);
    }
  }

  /** Extending the last name of a path extends its rendering by the same text. */
  lemma RenderExtendLast(v: seq<string>, x: string, y: string)
    requires x != ""
    ensures Render(v + [x + y]) == Render(v + [x]) + y
  {
    if v != [] {
      JoinAppend(v, [x + y], "/");
      JoinAppend(v, [x], "/");
    }
  }

  /** Dropping the last name shortens the rendering. */
  lemma RenderDropLast(v: seq<string>, x: string)
    requires x != ""
    ensures |Render(v)| < |Render(v + [x])|
  {
    if v != [] {
      JoinAppend(v, [x], "/");
    }
  }

  /** Two paths that agree up to `v` and then differ have `v` as their common part. */
  lemma CommonPrefixDiverges(v: seq<string>, x: string, y: string, rest: seq<string>)
    requires x != y
    ensures CommonPrefixLength(v + [x], v + [y] + rest) == |v|
  {
    var a, b := v + [x], v + [y] + rest;
    assert a[..|v|] == v == b[..|v|];
    CommonPrefixUnique(a, b, |v|);
  }

  /** The common prefix length is the one place where the two sequences stop agreeing. */
  lemma {:induction false} CommonPrefixUnique(a: seq<string>, b: seq<string>, k: nat)
    requires k <= |a| && k <= |b| && a[..k] == b[..k]
    requires k < |a| && k < |b| ==> a[k] != b[k]
    ensures CommonPrefixLength(a, b) == k
    decreases k
  {
    if k > 0 {
      assert a[..k][0] == a[0] && b[..k][0] == b[0];
      assert a[1..][..k - 1] == a[..k][1..] && b[1..][..k - 1] == b[..k][1..];
      CommonPrefixUnique(a[1..], b[1..], k - 1);
    }
  }
}
