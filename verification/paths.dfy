/** The POSIX flavour of Node's `path` module, restricted to the functions the adapter
    calls: `basename`, `dirname`, `normalize`, `resolve` and `relative`.
    Node's `normalizeString` walks the path character by character; here it is the
    equivalent fold over the `/`-separated segments, with a stack that skips empty and
    `.` segments and lets `..` pop the last segment unless that is itself `..`. */
module Paths {
  import opened JsStrings

  /** An absolute POSIX path; `process.cwd()` always returns one. */
  type AbsPath = s: string | |s| > 0 && s[0] == '/' witness "/"

  predicate IsAbsolute(p: string) {
    |p| > 0 && p[0] == '/'
  }

  /** `p` without its trailing `/` characters. */
  function TrimTrailingSlashes(p: string): (r: string)
    ensures |r| <= |p| && r == p[..|r|]
    ensures forall i :: |r| <= i < |p| ==> p[i] == '/'
    ensures r == [] || r[|r| - 1] != '/'
    decreases |p|
  {
    if |p| > 0 && p[|p| - 1] == '/' then TrimTrailingSlashes(p[..|p| - 1]) else p
  }

  /** The longest suffix of `t` that holds no `/`. */
  function AfterLastSlash(t: string): (r: string)
    ensures '/' !in r
    ensures |r| <= |t| && r == t[|t| - |r|..]
    ensures |r| == |t| || t[|t| - |r| - 1] == '/'
    decreases |t|
  {
    if |t| == 0 || t[|t| - 1] == '/' then "" else AfterLastSlash(t[..|t| - 1]) + [t[|t| - 1]]
  }

  /** `path.basename(p)`: the last segment, trailing slashes ignored; `""` for `""` and `"/"`. */
  function Basename(p: string): (r: string)
    ensures '/' !in r
    ensures var t := TrimTrailingSlashes(p);
      && |r| <= |t| && r == t[|t| - |r|..]
      && (|r| == |t| || t[|t| - |r| - 1] == '/')
  {
    AfterLastSlash(TrimTrailingSlashes(p))
  }

  /** The last segment of `dir + "/" + name` is `name`, whatever `dir` is. */
  lemma BasenameOfJoin(dir: string, name: string)
    requires name != "" && '/' !in name
    ensures Basename(dir + "/" + name) == name
  {
    var p := dir + "/" + name;
    assert TrimTrailingSlashes(p) == p;
    assert p[|p| - |name|..] == name;
    assert p[|p| - |name| - 1] == '/';
  }

  /** A single segment is its own basename. */
  lemma BasenameOfSegment(name: string)
    requires '/' !in name
    ensures Basename(name) == name
  {
    if name != [] {
      assert TrimTrailingSlashes(name) == name;
    }
  }

  /** The scan of Node's `dirname`: from index `i` down to 1, the index of the first `/`
      met after a non-slash character, or -1. */
  function DirEnd(p: string, i: int, matchedSlash: bool): (e: int)
    requires i < |p|
    ensures e == -1 || 1 <= e <= i
    decreases i
  {
    if i < 1 then -1
    else if p[i] == '/' then (if !matchedSlash then i else DirEnd(p, i - 1, true))
    else DirEnd(p, i - 1, false)
  }

  /** `path.dirname(p)`. */
  function Dirname(p: string): (r: string)
    ensures |r| > 0
    ensures r == "." || r == "/" || r == "//" || (|r| < |p| && r == p[..|r|])
    ensures |p| > 0 && p[0] == '/' ==> r[0] == '/'
  {
    if |p| == 0 then "."
    else
      var end := DirEnd(p, |p| - 1, true);
      if end == -1 then (if p[0] == '/' then "/" else ".")
      else if p[0] == '/' && end == 1 then "//"
      else p[..end]
  }

  /** Over a run of non-slash characters the scan reaches the slash before the run. */
  lemma {:induction false} DirEndOverSegment(p: string, k: int, i: int, matched: bool)
    requires 1 <= k <= i < |p| && p[k] == '/'
    requires forall j :: k < j <= i ==> p[j] != '/'
    requires !matched || i > k
    ensures DirEnd(p, i, matched) == k
    decreases i
  {
    if i > k {
      DirEndOverSegment(p, k, i - 1, false);
    }
  }

  /** Over a slash-free prefix the scan finds nothing. */
  lemma {:induction false} DirEndNoSlash(p: string, i: int, matched: bool)
    requires i < |p|
    requires forall j :: 1 <= j <= i ==> p[j] != '/'
    ensures DirEnd(p, i, matched) == -1
    decreases i
  {
    if i >= 1 {
      DirEndNoSlash(p, i - 1, false);
    }
  }

  /** The directory of `dir + "/" + name` is `dir`, when `dir` does not end in a slash. */
  lemma DirnameOfJoin(dir: string, name: string)
    requires dir != "" && dir[|dir| - 1] != '/'
    requires name != "" && '/' !in name
    ensures Dirname(dir + "/" + name) == dir
  {
    var p := dir + "/" + name;
    forall j | |dir| < j < |p|
      ensures p[j] != '/'
    {
      assert p[j] == name[j - |dir| - 1];
    }
    DirEndOverSegment(p, |dir|, |p| - 1, true);
    assert p[..|dir|] == dir;
  }

  /** A bare file name lives in `.`, and a file right under the root in `/`. */
  lemma DirnameOfSegment(name: string)
    requires name != "" && '/' !in name
    ensures Dirname(name) == "."
    ensures Dirname("/" + name) == "/"
  {
    DirEndNoSlash(name, |name| - 1, true);
    var p := "/" + name;
    forall j | 1 <= j <= |p| - 1
      ensures p[j] != '/'
    {
      assert p[j] == name[j - 1];
    }
    DirEndNoSlash(p, |p| - 1, true);
  }

  // ---------------------------------------------------------------------------
  // Segment normalisation (Node's `normalizeString`)

  /** One step of the segment stack. */
  function Step(stack: seq<string>, seg: string, allowAboveRoot: bool): seq<string> {
    if seg == "" || seg == "." then stack
    else if seg == ".." then
      if |stack| > 0 && stack[|stack| - 1] != ".." then stack[..|stack| - 1]
      else if allowAboveRoot then stack + [".."]
      else stack
    else stack + [seg]
  }

  /** A stack in normal form: no empty, `.` or slash-holding segment, every `..` before
      every other segment, and no `..` at all when climbing above the root is not allowed. */
  predicate Clean(stack: seq<string>, allowAboveRoot: bool) {
    && (forall i :: 0 <= i < |stack| ==> stack[i] != "" && stack[i] != "." && '/' !in stack[i])
    && (forall i, j :: 0 <= i < j < |stack| && stack[j] == ".." ==> stack[i] == "..")
    && (!allowAboveRoot ==> forall i :: 0 <= i < |stack| ==> stack[i] != "..")
  }

  predicate NoSlash(segs: seq<string>) {
    forall i :: 0 <= i < |segs| ==> '/' !in segs[i]
  }

  /** The stack after pushing every segment of `segs` in order. */
  function Fold(stack: seq<string>, segs: seq<string>, allowAboveRoot: bool): (r: seq<string>)
    ensures Clean(stack, allowAboveRoot) && NoSlash(segs) ==> Clean(r, allowAboveRoot)
    decreases |segs|
  {
    if |segs| == 0 then stack
    else Fold(Step(stack, segs[0], allowAboveRoot), segs[1..], allowAboveRoot)
  }

  /** Folding a concatenation is folding one part after the other. */
  lemma {:induction false} FoldAppend(stack: seq<string>, a: seq<string>, b: seq<string>, allow: bool)
    ensures Fold(stack, a + b, allow) == Fold(Fold(stack, a, allow), b, allow)
    decreases |a|
  {
    if |a| == 0 {
      assert a + b == b;
    } else {
      assert (a + b)[0] == a[0];
      assert (a + b)[1..] == a[1..] + b;
      FoldAppend(Step(stack, a[0], allow), a[1..], b, allow);
    }
  }

  /** Ordinary segments are pushed unchanged. */
  lemma {:induction false} FoldPlain(stack: seq<string>, segs: seq<string>, allow: bool)
    requires forall i :: 0 <= i < |segs| ==> segs[i] != "" && segs[i] != "." && segs[i] != ".."
    ensures Fold(stack, segs, allow) == stack + segs
    decreases |segs|
  {
    if |segs| > 0 {
      FoldPlain(stack + [segs[0]], segs[1..], allow);
      assert stack + [segs[0]] + segs[1..] == stack + segs;
    }
  }

  /** `n` copies of `s`. */
  function Repeat(s: string, n: nat): (r: seq<string>)
    ensures |r| == n && forall i :: 0 <= i < n ==> r[i] == s
  {
    seq(n, _ => s)
  }

  /** Each `..` pops one segment off a stack that holds no `..`. */
  lemma {:induction false} FoldDots(stack: seq<string>, n: nat, allow: bool)
    requires n <= |stack|
    requires forall i :: 0 <= i < |stack| ==> stack[i] != ".."
    ensures Fold(stack, Repeat("..", n), allow) == stack[..|stack| - n]
    decreases n
  {
    if n > 0 {
      var popped := stack[..|stack| - 1];
      assert Step(stack, "..", allow) == popped;
      assert Repeat("..", n)[1..] == Repeat("..", n - 1);
      FoldDots(popped, n - 1, allow);
      assert popped[..|popped| - (n - 1)] == stack[..|stack| - n];
    }
  }

  /** Node's `normalizeString(p, allowAboveRoot)`. */
  function NormalizeString(p: string, allowAboveRoot: bool): string {
    Join(Fold([], Split(p, '/'), allowAboveRoot), "/")
  }

  /** The normal-form segments of `p`, with nothing above the root. */
  function Segments(p: string): (r: seq<string>)
    ensures Clean(r, false)
  {
    Fold([], Split(p, '/'), false)
  }

  /** `path.normalize(p)`. */
  function Normalize(p: string): (r: string)
    ensures |r| > 0
    ensures |p| > 0 && p[0] == '/' ==> r[0] == '/'
    ensures |p| > 0 && p[|p| - 1] == '/' ==> r[|r| - 1] == '/'
  {
    if |p| == 0 then "."
    else
      var isAbsolute := p[0] == '/';
      var trailingSeparator := p[|p| - 1] == '/';
      var n := NormalizeString(p, !isAbsolute);
      if |n| == 0 then
        if isAbsolute then "/" else if trailingSeparator then "./" else "."
      else
        var n' := if trailingSeparator then n + "/" else n;
        if isAbsolute then "/" + n' else n'
  }

  // ---------------------------------------------------------------------------
  // resolve and relative

  /** The right-to-left walk of `path.resolve`: prepend each non-empty argument and stop
      at the first absolute one; the flag says whether one was met. */
  function Gather(args: seq<string>, acc: string): (r: (string, bool))
    ensures |args| > 0 && IsAbsolute(args[0]) ==> r.1
    decreases |args|
  {
    if |args| == 0 then (acc, false)
    else
      var p := args[|args| - 1];
      if p == "" then Gather(args[..|args| - 1], acc)
      else if p[0] == '/' then (p + "/" + acc, true)
      else Gather(args[..|args| - 1], p + "/" + acc)
  }

  /** What `Gather` prepends does not depend on the accumulated tail. */
  lemma {:induction false} GatherSuffix(args: seq<string>, acc: string)
    ensures Gather(args, acc).0 == Gather(args, "").0 + acc
    ensures Gather(args, acc).1 == Gather(args, "").1
    decreases |args|
  {
    if |args| > 0 {
      var p := args[|args| - 1];
      var init := args[..|args| - 1];
      if p == "" {
        GatherSuffix(init, acc);
      } else if p[0] != '/' {
        assert p + "/" + "" == p + "/";
        GatherSuffix(init, p + "/" + acc);
        GatherSuffix(init, p + "/");
        var g := Gather(init, "").0;
        assert g + (p + "/" + acc) == g + (p + "/") + acc;
      } else {
        assert p + "/" + "" == p + "/";
      }
    }
  }

  /** `path.resolve(...args)` with the given working directory. */
  function Resolve(cwd: AbsPath, args: seq<string>): (r: string)
    ensures IsAbsolute(r)
    ensures r == "/" + Join(Segments(Gather([cwd] + args, "").0), "/")
  {
    var (path, resolvedAbsolute) := Gather([cwd] + args, "");
    var n := NormalizeString(path, !resolvedAbsolute);
    if resolvedAbsolute then "/" + n else if |n| > 0 then n else "."
  }

  /** The segments of a resolved path. */
  function ResolveSegments(cwd: AbsPath, args: seq<string>): (r: seq<string>)
    ensures Clean(r, false)
    ensures Resolve(cwd, args) == "/" + Join(r, "/")
  {
    Segments(Gather([cwd] + args, "").0)
  }

  /** An absolute argument makes everything to its left irrelevant. */
  lemma ResolveAbsoluteArgument(cwd: AbsPath, base: string, p: string)
    requires IsAbsolute(p)
    ensures Resolve(cwd, [base, p]) == Resolve(cwd, [p])
  {
    assert [cwd] + [base, p] == [cwd, base, p];
    assert [cwd] + [p] == [cwd, p];
  }

  /** The length of the longest common prefix of `a` and `b`. */
  function CommonPrefix(a: seq<string>, b: seq<string>): (k: nat)
    ensures k <= |a| && k <= |b| && a[..k] == b[..k]
    ensures k == |a| || k == |b| || a[k] != b[k]
    decreases |a|
  {
    if |a| == 0 || |b| == 0 || a[0] != b[0] then 0
    else
      var k := CommonPrefix(a[1..], b[1..]);
      assert a[..k + 1] == [a[0]] + a[1..][..k];
      assert b[..k + 1] == [b[0]] + b[1..][..k];
      k + 1
  }

  /** The segments `relative` joins: one `..` per segment of `from` below the common
      ancestor, then the rest of `to`. */
  function RelativeSegments(cwd: AbsPath, from: string, to: string): seq<string> {
    var f := ResolveSegments(cwd, [from]);
    var t := ResolveSegments(cwd, [to]);
    var k := CommonPrefix(f, t);
    Repeat("..", |f| - k) + t[k..]
  }

  /** `path.relative(from, to)`. */
  function Relative(cwd: AbsPath, from: string, to: string): (r: string)
    ensures ResolveSegments(cwd, [from]) == ResolveSegments(cwd, [to]) ==> r == ""
  {
    if from == to then "" else Join(RelativeSegments(cwd, from, to), "/")
  }

  /** Resolving a relative path whose first segment is ordinary: the gathered string is
      the base's followed by the relative path. */
  lemma {:induction false} ResolveThrough(cwd: AbsPath, from: string, rel: seq<string>)
    requires |rel| > 0 && NoSlash(rel)
    requires forall i :: 0 <= i < |rel| ==> rel[i] != ""
    ensures ResolveSegments(cwd, [from, Join(rel, "/")])
         == Fold(ResolveSegments(cwd, [from]), rel, false)
  {
    var r := Join(rel, "/");
    JoinHead(rel);
    var args := [cwd] + [from, r];
    assert args[..|args| - 1] == [cwd] + [from];
    assert r + "/" + "" == r + "/";
    assert Gather(args, "") == Gather([cwd] + [from], r + "/");
    GatherSuffix([cwd] + [from], r + "/");
    var x := Gather([cwd] + [from], "").0;
    GatherEndsInSlash(cwd, from);
    var y := x[..|x| - 1];
    assert x == y + "/";
    assert x + (r + "/") == y + ['/'] + (r + ['/'] + "");
    SplitAround(y, r + ['/'] + "", '/');
    SplitAround(r, "", '/');
    SplitAround(y, "", '/');
    assert y + ['/'] + "" == x;
    SplitJoin(rel, '/');
    var sy := Split(y, '/');
    assert Split(x, '/') == sy + [""];
    assert Split(x + (r + "/"), '/') == sy + (rel + [""]);
    FoldAppend([], sy, [""], false);
    FoldAppend([], sy, rel + [""], false);
    FoldAppend(Fold([], sy, false), rel, [""], false);
  }

  /** The gathered path of `[cwd, from]` ends in `/`. */
  lemma GatherEndsInSlash(cwd: AbsPath, from: string)
    ensures var x := Gather([cwd] + [from], "").0; |x| > 0 && x[|x| - 1] == '/'
  {
    var args := [cwd] + [from];
    assert args[..1] == [cwd];
    assert [cwd][..0] == [];
  }

  /** The join of non-empty, slash-free segments starts with the first segment's first
      character, so it is a relative path. */
  lemma {:induction false} JoinHead(segs: seq<string>)
    requires |segs| > 0 && NoSlash(segs)
    requires forall i :: 0 <= i < |segs| ==> segs[i] != ""
    ensures var j := Join(segs, "/"); |j| > 0 && j[0] == segs[0][0] && j[0] != '/'
  {
    assert segs[0][0] in segs[0];
  }

  /** Resolving against `from` with an empty second argument resolves `from`. */
  lemma ResolveEmptyTail(cwd: AbsPath, from: string)
    ensures ResolveSegments(cwd, [from, ""]) == ResolveSegments(cwd, [from])
  {
    var args := [cwd] + [from, ""];
    assert args[..|args| - 1] == [cwd] + [from];
  }

  /** When `relative` is empty, `from` and `to` resolve to the same segments. */
  lemma RelativeEmpty(cwd: AbsPath, from: string, to: string)
    requires Relative(cwd, from, to) == ""
    ensures ResolveSegments(cwd, [from]) == ResolveSegments(cwd, [to])
  {
    if from != to {
      var f := ResolveSegments(cwd, [from]);
      var t := ResolveSegments(cwd, [to]);
      var k := CommonPrefix(f, t);
      var segs := RelativeSegments(cwd, from, to);
      if |segs| > 0 {
        JoinHead(segs);
      }
      assert |f| - k == 0 && |t| - k == 0;
      assert f == f[..k] && t == t[..k];
    }
  }

  /** When `relative` is not empty, folding its segments onto `from` gives `to`. */
  lemma RelativeFold(cwd: AbsPath, from: string, to: string)
    ensures Fold(ResolveSegments(cwd, [from]), RelativeSegments(cwd, from, to), false)
         == ResolveSegments(cwd, [to])
  {
    FoldToTarget(ResolveSegments(cwd, [from]), ResolveSegments(cwd, [to]));
  }

  /** Climbing from `f` to the common ancestor and descending to `t` gives `t`. */
  lemma FoldToTarget(f: seq<string>, t: seq<string>)
    requires Clean(f, false) && Clean(t, false)
    ensures var k := CommonPrefix(f, t);
      Fold(f, Repeat("..", |f| - k) + t[k..], false) == t
  {
    var k := CommonPrefix(f, t);
    CleanNoDots(f);
    CleanPlainSuffix(t, k);
    FoldClimb(f, |f| - k, t[k..]);
    SplitAtPrefix(f, t, k);
  }

  /** A clean stack with nothing above the root holds no `..`. */
  lemma CleanNoDots(s: seq<string>)
    requires Clean(s, false)
    ensures forall i :: 0 <= i < |s| ==> s[i] != ".."
  {
  }

  /** Every segment of a clean stack past position `k` is ordinary. */
  lemma CleanPlainSuffix(s: seq<string>, k: nat)
    requires k <= |s| && Clean(s, false)
    ensures forall i :: 0 <= i < |s| - k ==> s[k..][i] != "" && s[k..][i] != "." && s[k..][i] != ".."
  {
    assert forall i :: 0 <= i < |s| - k ==> s[k..][i] == s[k + i];
  }

  /** When `f` and `t` share their first `k` segments, what is left of `f` after
      climbing to depth `k`, followed by the rest of `t`, is `t`. */
  lemma SplitAtPrefix(f: seq<string>, t: seq<string>, k: nat)
    requires k <= |f| && k <= |t| && f[..k] == t[..k]
    ensures f[..|f| - (|f| - k)] + t[k..] == t
  {
    assert f[..|f| - (|f| - k)] == t[..k];
    assert t[..k] + t[k..] == t;
  }

  /** Climbing `n` segments out of a stack with no `..` and then pushing ordinary
      segments `d`. */
  lemma FoldClimb(f: seq<string>, n: nat, d: seq<string>)
    requires n <= |f|
    requires forall i :: 0 <= i < |f| ==> f[i] != ".."
    requires forall i :: 0 <= i < |d| ==> d[i] != "" && d[i] != "." && d[i] != ".."
    ensures Fold(f, Repeat("..", n) + d, false) == f[..|f| - n] + d
  {
    FoldAppend(f, Repeat("..", n), d, false);
    FoldDots(f, n, false);
    FoldPlain(f[..|f| - n], d, false);
  }

  /** `relative` is the inverse of `resolve`: resolving `relative(from, to)` against
      `from` lands on `to`. */
  lemma ResolveRelative(cwd: AbsPath, from: string, to: string)
    ensures Resolve(cwd, [from, Relative(cwd, from, to)]) == Resolve(cwd, [to])
  {
    var rel := Relative(cwd, from, to);
    if rel == "" {
      ResolveEmptyTail(cwd, from);
      RelativeEmpty(cwd, from, to);
    } else {
      var segs := RelativeSegments(cwd, from, to);
      assert rel == Join(segs, "/");
      assert |segs| > 0;
      ResolveThrough(cwd, from, segs);
      RelativeFold(cwd, from, to);
    }
    assert ResolveSegments(cwd, [from, rel]) == ResolveSegments(cwd, [to]);
  }

  /** The file name both plugins give the compiler: `relative(root, path)` with every
      `\` written `/`. On POSIX a relative path keeps its text unless a segment itself
      holds a backslash. */
  function RootRelative(root: AbsPath, path: string): (r: string)
    ensures '\\' !in r
    ensures |r| == |Relative(root, root, path)|
    ensures '\\' !in Relative(root, root, path) ==> r == Relative(root, root, path)
  {
    var rel := Relative(root, root, path);
    ReplaceCharRemoves(rel, '\\', '/');
    ReplaceCharKeeps(rel, '\\', '/');
    ReplaceChar(rel, '\\', '/')
  }
}
