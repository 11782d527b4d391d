/** Node's `path.posix` operations used by the UI loader: `join`, `normalize`, `dirname` and
    `basename`, following Node's algorithms over slash-separated segments. */
module PosixPath {
  import opened Text

  /** `s.split('/')`: the pieces between slashes, in order, empty pieces kept. */
  function Split(s: string): (segs: seq<string>)
    ensures |segs| >= 1
    ensures forall k :: 0 <= k < |segs| ==> '/' !in segs[k]
    decreases |s|
  {
    if '/' !in s then [s]
    else
      var i := IndexOf(s, '/');
      [s[..i]] + Split(s[i + 1..])
  }

  /** `segs.join('/')`. */
  function JoinSegments(segs: seq<string>): string
  {
    if |segs| == 0 then ""
    else if |segs| == 1 then segs[0]
    else segs[0] + "/" + JoinSegments(segs[1..])
  }

  /** The join starts with the first piece's first character and ends with the last piece's
      last character. */
  lemma {:induction false} JoinSegmentsEnds(segs: seq<string>)
    requires |segs| >= 1 && forall k :: 0 <= k < |segs| ==> segs[k] != ""
    ensures JoinSegments(segs) != ""
    ensures JoinSegments(segs)[0] == segs[0][0]
    ensures JoinSegments(segs)[|JoinSegments(segs)| - 1] == segs[|segs| - 1][|segs[|segs| - 1]| - 1]
    decreases |segs|
  {
    if |segs| > 1 {
      JoinSegmentsEnds(segs[1..]);
    }
  }

  /** Joining the pieces of a split gives the string back. */
  lemma {:induction false} JoinSplit(s: string)
    ensures JoinSegments(Split(s)) == s
    decreases |s|
  {
    if '/' in s {
      var i := IndexOf(s, '/');
      var rest := Split(s[i + 1..]);
      assert Split(s) == [s[..i]] + rest;
      assert Split(s)[1..] == rest;
      assert JoinSegments(Split(s)) == s[..i] + "/" + JoinSegments(rest);
      JoinSplit(s[i + 1..]);
      assert s == s[..i] + "/" + s[i + 1..];
    }
  }

  /** Splitting the join of slash-free pieces gives the pieces back. */
  lemma {:induction false} SplitJoin(segs: seq<string>)
    requires |segs| >= 1
    requires forall k :: 0 <= k < |segs| ==> '/' !in segs[k]
    ensures Split(JoinSegments(segs)) == segs
    decreases |segs|
  {
    if |segs| > 1 {
      var rest := JoinSegments(segs[1..]);
      var s := JoinSegments(segs);
      assert '/' !in segs[0];
      assert s == segs[0] + ['/'] + rest;
      assert '/' in s by {
        assert s[|segs[0]|] == '/';
      }
      IndexOfAfter(segs[0], '/', rest);
      var i := |segs[0]|;
      assert s[..i] == segs[0];
      assert s[i + 1..] == rest;
      assert Split(s) == [segs[0]] + Split(rest);
      SplitJoin(segs[1..]);
      assert segs == [segs[0]] + segs[1..];
    }
  }

  /** Joining two non-empty piece lists is joining their joins with a slash. */
  lemma {:induction false} JoinSegmentsAppend(xs: seq<string>, ys: seq<string>)
    requires |xs| >= 1 && |ys| >= 1
    ensures JoinSegments(xs + ys) == JoinSegments(xs) + "/" + JoinSegments(ys)
    decreases |xs|
  {
    if |xs| == 1 {
      assert (xs + ys)[1..] == ys;
    } else {
      assert (xs + ys)[1..] == xs[1..] + ys;
      JoinSegmentsAppend(xs[1..], ys);
    }
  }

  /** A segment that normalisation keeps: not empty, not `.`, and free of slashes. */
  predicate Kept(seg: string) {
    seg != "" && seg != "." && '/' !in seg
  }

  /** A segment naming a child directory or file: kept, and not `..` either. */
  predicate Plain(seg: string) {
    Kept(seg) && seg != ".."
  }

  /** Every segment is kept; without `allowAboveRoot`, none is `..`. */
  predicate AllKept(segs: seq<string>, allowAboveRoot: bool) {
    forall k :: 0 <= k < |segs| ==> Kept(segs[k]) && (!allowAboveRoot ==> segs[k] != "..")
  }

  /** One step of Node's `normalizeString`: empty and `.` segments vanish, `..` removes the
      previous segment unless that is itself `..` or there is none, in which case it is kept
      only when the path may climb above its root. */
  function Step(acc: seq<string>, seg: string, allowAboveRoot: bool): seq<string>
  {
    if seg == "" || seg == "." then acc
    else if seg == ".." then
      if |acc| > 0 && acc[|acc| - 1] != ".." then acc[..|acc| - 1]
      else if allowAboveRoot then acc + [".."]
      else acc
    else acc + [seg]
  }

  /** Node's `normalizeString` as a left fold of `Step` over the segments. */
  function ResolveFrom(acc: seq<string>, segs: seq<string>, allowAboveRoot: bool): (r: seq<string>)
    ensures AllKept(acc, allowAboveRoot) && (forall k :: 0 <= k < |segs| ==> '/' !in segs[k])
            ==> AllKept(r, allowAboveRoot)
    decreases |segs|
  {
    if |segs| == 0 then acc
    else ResolveFrom(Step(acc, segs[0], allowAboveRoot), segs[1..], allowAboveRoot)
  }

  /** Folding over two lists in turn is folding over their concatenation. */
  lemma {:induction false} ResolveFromAppend(acc: seq<string>, xs: seq<string>, ys: seq<string>, allowAboveRoot: bool)
    ensures ResolveFrom(acc, xs + ys, allowAboveRoot)
         == ResolveFrom(ResolveFrom(acc, xs, allowAboveRoot), ys, allowAboveRoot)
    decreases |xs|
  {
    if |xs| == 0 {
      assert xs + ys == ys;
    } else {
      assert (xs + ys)[1..] == xs[1..] + ys;
      ResolveFromAppend(Step(acc, xs[0], allowAboveRoot), xs[1..], ys, allowAboveRoot);
    }
  }

  /** Plain segments pass through the fold untouched. */
  lemma {:induction false} ResolveFromPlain(acc: seq<string>, segs: seq<string>, allowAboveRoot: bool)
    requires forall k :: 0 <= k < |segs| ==> Plain(segs[k])
    ensures ResolveFrom(acc, segs, allowAboveRoot) == acc + segs
    decreases |segs|
  {
    if |segs| > 0 {
      ResolveFromPlain(acc + [segs[0]], segs[1..], allowAboveRoot);
      assert acc + [segs[0]] + segs[1..] == acc + segs;
    }
  }

  /** `path.posix.normalize(p)`. */
  function Normalize(p: string): (r: string)
    ensures r != ""
    ensures |p| > 0 && p[|p| - 1] == '/' ==> r[|r| - 1] == '/'
    ensures (|p| > 0 && p[0] == '/') <==> r[0] == '/'
    ensures !(|r| >= 2 && r[0] == '/' && r[1] == '/')
  {
    if p == "" then "."
    else
      var absolute := p[0] == '/';
      var trailing := p[|p| - 1] == '/';
      var segs := ResolveFrom([], Split(p), !absolute);
      var body := JoinSegments(segs);
      assert |segs| > 0 ==> body != "" && body[0] != '/' by {
        if |segs| > 0 {
          JoinSegmentsEnds(segs);
        }
      }
      if body == "" then
        (if absolute then "/" else if trailing then "./" else ".")
      else
        var withTrailing := if trailing then body + "/" else body;
        if absolute then "/" + withTrailing else withTrailing
  }

  /** `path.posix.join(a, b)`: the non-empty arguments joined by a slash, then normalised. */
  function Join(a: string, b: string): (r: string)
    ensures r != ""
    ensures |b| > 0 && b[|b| - 1] == '/' ==> r[|r| - 1] == '/'
    ensures r[0] == '/' <==> (a != "" && a[0] == '/') || (a == "" && b != "" && b[0] == '/')
    ensures !(|r| >= 2 && r[0] == '/' && r[1] == '/')
  {
    var joined := if a == "" then b else if b == "" then a else a + "/" + b;
    if joined == "" then "." else Normalize(joined)
  }

  /** The string without its trailing slashes, all of them. */
  function TrimSlashes(p: string): (r: string)
    ensures StartsWith(p, r)
    ensures r == "" || r[|r| - 1] != '/'
    ensures forall k :: |r| <= k < |p| ==> p[k] == '/'
  {
    if |p| > 0 && p[|p| - 1] == '/' then TrimSlashes(p[..|p| - 1]) else p
  }

  /** `path.posix.basename(p)`: the last segment once trailing slashes are dropped. */
  function Basename(p: string): (r: string)
    ensures '/' !in r
  {
    var q := TrimSlashes(p);
    if q == "" then ""
    else
      var i := LastIndexOf(q, '/');
      assert forall k :: i + 1 <= k < |q| ==> q[k] != '/';
      q[i + 1..]
  }

  /** `path.posix.dirname(p)`: everything before the last slash that precedes the final segment;
      `.` for a bare name, `/` for a child of the root, and Node's special `//` case. */
  function Dirname(p: string): (r: string)
    ensures r != ""
  {
    if p == "" then "."
    else
      // trailing slashes are dropped, but never the first character
      var q := [p[0]] + TrimSlashes(p[1..]);
      var i := LastIndexOf(q[1..], '/');
      if i == -1 then (if p[0] == '/' then "/" else ".")
      else if p[0] == '/' && i == 0 then "//"
      else q[..i + 1]
  }

  /** A relative path of one or more plain segments: no empty piece, no `.` or `..`, and hence
      no slash at either end. */
  predicate Clean(p: string) {
    forall k :: 0 <= k < |Split(p)| ==> Plain(Split(p)[k])
  }

  /** A clean path is non-empty and neither starts nor ends with a slash. */
  lemma CleanShape(p: string)
    requires Clean(p)
    ensures p != "" && p[0] != '/' && p[|p| - 1] != '/'
  {
    var segs := Split(p);
    JoinSplit(p);
    assert Plain(segs[0]) && Plain(segs[|segs| - 1]);
    JoinSegmentsEnds(segs);
  }

  /** Normalisation leaves a clean path as it is. */
  lemma NormalizeClean(p: string)
    requires Clean(p)
    ensures Normalize(p) == p
  {
    CleanShape(p);
    ResolveFromPlain([], Split(p), true);
    assert [] + Split(p) == Split(p);
    JoinSplit(p);
  }

  /** Splitting `a/b` splits `a` and `b` and puts the pieces one after the other. */
  lemma SplitConcat(a: string, b: string)
    ensures Split(a + "/" + b) == Split(a) + Split(b)
  {
    var segs := Split(a) + Split(b);
    assert JoinSegments(segs) == a + "/" + b by {
      JoinSplit(a);
      JoinSplit(b);
      JoinSegmentsAppend(Split(a), Split(b));
    }
    assert forall k :: 0 <= k < |segs| ==> '/' !in segs[k] by {
      forall k | 0 <= k < |segs|
        ensures '/' !in segs[k]
      {
        if k >= |Split(a)| {
          assert segs[k] == Split(b)[k - |Split(a)|];
        }
      }
    }
    SplitJoin(segs);
  }

  /** Two clean paths joined by a slash make a clean path. */
  lemma CleanConcat(a: string, b: string)
    requires Clean(a) && Clean(b)
    ensures Clean(a + "/" + b)
  {
    var xs, ys := Split(a), Split(b);
    var segs := xs + ys;
    assert forall k :: 0 <= k < |segs| ==> Plain(segs[k]) by {
      forall k | 0 <= k < |segs|
        ensures Plain(segs[k])
      {
        if k < |xs| {
          assert segs[k] == xs[k];
        } else {
          assert segs[k] == ys[k - |xs|];
        }
      }
    }
    SplitConcat(a, b);
  }

  /** Joining two clean paths puts one slash between them, and the result is clean. */
  lemma JoinClean(a: string, b: string)
    requires Clean(a) && Clean(b)
    ensures Join(a, b) == a + "/" + b
    ensures Clean(a + "/" + b)
  {
    CleanShape(a);
    CleanShape(b);
    CleanConcat(a, b);
    NormalizeClean(a + "/" + b);
  }

  /** Joining a clean path with `.` gives the path back. */
  lemma JoinCurrentDir(a: string)
    requires Clean(a)
    ensures Join(a, ".") == a
  {
    CleanShape(a);
    JoinSplit(a);
    var segs := Split(a) + ["."];
    JoinSegmentsAppend(Split(a), ["."]);
    SplitJoin(segs);
    assert Split(a + "/" + ".") == segs;
    ResolveFromAppend([], Split(a), ["."], true);
    ResolveFromPlain([], Split(a), true);
    assert [] + Split(a) == Split(a);
    assert ResolveFrom(Split(a), ["."], true) == Split(a) by {
      assert ["."][1..] == [];
    }
  }

  /** Joining `.` with a clean path gives the path back, and so does joining "" with it. */
  lemma JoinFromCurrentDir(b: string)
    requires Clean(b)
    ensures Join(".", b) == b
    ensures Join("", b) == b
  {
    CleanShape(b);
    JoinSplit(b);
    NormalizeClean(b);
    var segs := ["."] + Split(b);
    JoinSegmentsAppend(["."], Split(b));
    SplitJoin(segs);
    assert Split("." + "/" + b) == segs;
    ResolveFromAppend([], ["."], Split(b), true);
    assert ResolveFrom([], ["."], true) == [] by {
      assert ["."][1..] == [];
    }
    ResolveFromPlain([], Split(b), true);
    assert [] + Split(b) == Split(b);
  }

  /** The basename of `a/b` is `b` when `b` is a non-empty slash-free name. */
  lemma BasenameOfChild(a: string, b: string)
    requires b != "" && '/' !in b
    ensures Basename(a + "/" + b) == b
  {
    var p := a + "/" + b;
    assert p[|p| - 1] == b[|b| - 1];
    assert TrimSlashes(p) == p;
    LastIndexOfBefore(a, '/', b);
    assert p[|a| + 1..] == b;
  }

  /** The basename of a clean path is its last segment. */
  lemma BasenameClean(p: string)
    requires Clean(p)
    ensures Basename(p) == Split(p)[|Split(p)| - 1]
    ensures Clean(Basename(p))
  {
    var segs := Split(p);
    var last := segs[|segs| - 1];
    assert Plain(last);
    assert Basename(p) == last by {
      if |segs| > 1 {
        CleanParent(p);
        BasenameOfChild(JoinSegments(segs[..|segs| - 1]), last);
      } else {
        JoinSplit(p);
        assert p == last;
        assert TrimSlashes(p) == p;
        assert LastIndexOf(p, '/') == -1;
      }
    }
    assert Split(last) == [last] by {
      SplitJoin([last]);
    }
  }

  /** The dirname of `a/b` is `a` when `a` is relative and `b` a non-empty slash-free name. */
  lemma DirnameOfChild(a: string, b: string)
    requires a != "" && a[0] != '/'
    requires b != "" && '/' !in b
    ensures Dirname(a + "/" + b) == a
  {
    var p := a + "/" + b;
    assert p[1..] == a[1..] + ['/'] + b;
    assert TrimSlashes(p[1..]) == p[1..] by {
      assert p[1..][|p[1..]| - 1] == b[|b| - 1];
    }
    assert [p[0]] + p[1..] == p;
    LastIndexOfBefore(a[1..], '/', b);
    assert p[..|a|] == a;
  }

  /** The clean path of all segments but the last of a clean path `p` of several segments,
      followed by a slash and the last segment, is `p`. */
  lemma CleanParent(p: string)
    requires Clean(p) && |Split(p)| > 1
    ensures Clean(JoinSegments(Split(p)[..|Split(p)| - 1]))
    ensures p == JoinSegments(Split(p)[..|Split(p)| - 1]) + "/" + Split(p)[|Split(p)| - 1]
  {
    var segs := Split(p);
    var n := |segs|;
    var init := segs[..n - 1];
    var last := segs[n - 1];
    assert p == JoinSegments(init) + "/" + last by {
      JoinSplit(p);
      JoinSegmentsAppend(init, [last]);
      assert init + [last] == segs;
      assert JoinSegments([last]) == last;
    }
    assert forall k :: 0 <= k < |init| ==> Plain(init[k]) by {
      assert forall k :: 0 <= k < |init| ==> init[k] == segs[k];
    }
    SplitJoin(init);
  }

  /** The dirname of a clean path is `.` when it has one segment, and otherwise the clean
      path of all its segments but the last. */
  lemma DirnameClean(p: string)
    requires Clean(p)
    ensures |Split(p)| == 1 ==> Dirname(p) == "."
    ensures |Split(p)| > 1 ==> Dirname(p) == JoinSegments(Split(p)[..|Split(p)| - 1])
    ensures |Split(p)| > 1 ==> Clean(Dirname(p))
  {
    var segs := Split(p);
    CleanShape(p);
    if |segs| == 1 {
      JoinSplit(p);
      assert p == segs[0];
      assert '/' !in p[1..];
      assert TrimSlashes(p[1..]) == p[1..];
      assert [p[0]] + p[1..] == p;
    } else {
      var parent := JoinSegments(segs[..|segs| - 1]);
      CleanParent(p);
      CleanShape(parent);
      assert Plain(segs[|segs| - 1]);
      DirnameOfChild(parent, segs[|segs| - 1]);
    }
  }

  /** A clean path of several segments is its dirname and its basename joined by a slash. */
  lemma DirnameBasename(p: string)
    requires Clean(p) && |Split(p)| > 1
    ensures Dirname(p) + "/" + Basename(p) == p
  {
    DirnameClean(p);
    BasenameClean(p);
    CleanParent(p);
  }
}
