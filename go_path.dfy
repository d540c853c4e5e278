/** Go's lexical path functions (`path.Clean`, `path.Join`, `path.Split`,
    `filepath.Abs`, `filepath.Rel`) on '/'-separated strings, with the
    algebra that shows how cleaning composes with joining.

    A path is read as its list of elements (`Segs`: the fields between
    slashes, without empty and "." fields) and whether it is rooted.
    `Clean` replays the elements on a stack (`Fold`): a plain element is
    pushed, ".." pops a plain element, and a ".." that has nothing to pop is
    kept in a relative path and dropped in a rooted one. */
module GoPath {
  import opened GoStrings

  predicate IsRooted(p: string) {
    |p| > 0 && p[0] == '/'
  }

  /** A field that `Clean` keeps as an element: not empty, not ".", no '/'. */
  predicate IsElem(e: string) {
    e != "" && e != "." && '/' !in e
  }

  predicate AllElems(st: seq<string>) {
    forall e :: e in st ==> IsElem(e)
  }

  /** Drops the empty and "." fields. */
  function Filter(parts: seq<string>): seq<string>
    decreases |parts|
  {
    if parts == [] then []
    else (if parts[0] == "" || parts[0] == "." then [] else [parts[0]]) + Filter(parts[1..])
  }

  /** The elements of a path, before ".." is resolved. */
  function Segs(p: string): seq<string> {
    Filter(SplitSlash(p))
  }

  /** One element replayed on the stack of a rooted or relative path. */
  function Step(rooted: bool, stack: seq<string>, e: string): seq<string> {
    if e != ".." then stack + [e]
    else if |stack| > 0 && stack[|stack| - 1] != ".." then stack[..|stack| - 1]
    else if rooted then stack
    else stack + [".."]
  }

  /** The elements replayed, first to last, on `stack`. */
  function Fold(rooted: bool, stack: seq<string>, elems: seq<string>): seq<string>
    decreases |elems|
  {
    if elems == [] then stack else Fold(rooted, Step(rooted, stack, elems[0]), elems[1..])
  }

  /** The string of a resolved stack. */
  function Render(rooted: bool, stack: seq<string>): string {
    if rooted then "/" + JoinSlash(stack)
    else if stack == [] then "."
    else JoinSlash(stack)
  }

  /** The resolved elements of a path. */
  function Resolved(p: string): seq<string> {
    Fold(IsRooted(p), [], Segs(p))
  }

  /** `path.Clean`. */
  function Clean(p: string): string {
    if p == "" then "." else Render(IsRooted(p), Resolved(p))
  }

  /** `path.Join(a, b)` (and `filepath.Join` on Unix): the non-empty
      arguments joined by '/', then cleaned; "" when both are empty. */
  function Join(a: string, b: string): string {
    if a == "" && b == "" then ""
    else if a == "" then Clean(b)
    else if b == "" then Clean(a)
    else Clean(a + "/" + b)
  }

  /** `path.Split`: everything up to and including the last '/', and the rest. */
  function SplitPath(p: string): (string, string) {
    var i := LastSlash(p);
    (p[..i + 1], Drop(p, i + 1))
  }

  /** `filepath.Abs` with the working directory `cwd` given. */
  function Abs(cwd: string, p: string): string {
    if IsRooted(p) then Clean(p) else Join(cwd, p)
  }

  /** Length of the longest common prefix of two element lists. */
  function CommonLen(b: seq<string>, t: seq<string>): (k: nat)
    ensures k <= |b| && k <= |t| && b[..k] == t[..k]
    ensures k < |b| && k < |t| ==> b[k] != t[k]
    decreases |b|
  {
    if b == [] || t == [] || b[0] != t[0] then 0
    else
      var k := CommonLen(b[1..], t[1..]);
      assert b[..k + 1] == [b[0]] + b[1..][..k];
      assert t[..k + 1] == [t[0]] + t[1..][..k];
      k + 1
  }

  function UpLevels(n: nat): string {
    if n == 0 then "" else "/.." + UpLevels(n - 1)
  }

  /** `filepath.Rel(base, targ)` for two rooted paths. */
  function Rel(base: string, targ: string): string {
    RelElems(Resolved(base), Resolved(targ))
  }

  /** The relative path from elements `b` to elements `t`: "." for the same
      place, the remaining elements of `t` when `b` is an ancestor,
      otherwise one ".." per remaining element of `b`, then the rest of `t`. */
  function RelElems(b: seq<string>, t: seq<string>): string {
    var k := CommonLen(b, t);
    if k == |b| then
      if k == |t| then "." else JoinSlash(t[k..])
    else
      ".." + UpLevels(|b| - k - 1) + (if k < |t| then "/" + JoinSlash(t[k..]) else "")
  }

  /** `p` is `base` or lies below it, element by element. */
  predicate Within(p: string, base: string) {
    Resolved(base) <= Resolved(p)
  }

  // ---------------------------------------------------------------------
  // Elements of a path

  lemma {:induction false} FilterConcat(a: seq<string>, b: seq<string>)
    ensures Filter(a + b) == Filter(a) + Filter(b)
    decreases |a|
  {
    if a != [] {
      assert (a + b)[0] == a[0];
      assert (a + b)[1..] == a[1..] + b;
      FilterConcat(a[1..], b);
      var h := if a[0] == "" || a[0] == "." then [] else [a[0]];
      assert a + b != [];
      assert Filter(a) == h + Filter(a[1..]);
      assert Filter(a + b) == h + Filter(a[1..] + b);
      assert h + (Filter(a[1..]) + Filter(b)) == (h + Filter(a[1..])) + Filter(b);
    } else {
      assert a + b == b;
    }
  }

  lemma {:induction false} FilterKeepsElems(parts: seq<string>)
    requires forall p :: p in parts ==> '/' !in p
    ensures AllElems(Filter(parts))
    decreases |parts|
  {
    if parts != [] {
      FilterKeepsElems(parts[1..]);
    }
  }

  lemma {:induction false} FilterOfElems(parts: seq<string>)
    requires AllElems(parts)
    ensures Filter(parts) == parts
    decreases |parts|
  {
    if parts != [] {
      assert parts[0] in parts;
      assert forall e :: e in parts[1..] ==> e in parts;
      FilterOfElems(parts[1..]);
      assert parts == [parts[0]] + parts[1..];
    }
  }

  /** The elements of `a + "/" + b` are those of `a` followed by those of `b`. */
  lemma SegsConcat(a: string, b: string)
    ensures Segs(a + "/" + b) == Segs(a) + Segs(b)
  {
    SplitConcat(a, b);
    FilterConcat(SplitSlash(a), SplitSlash(b));
  }

  /** The empty path, "." and "/" have no elements. */
  lemma SegsTrivial()
    ensures Segs("") == [] && Segs(".") == [] && Segs("/") == []
  {
    assert SplitSlash("") == [""];
    SplitSingle(".");
    SplitConcat("", "");
    assert "" + "/" + "" == "/";
  }

  lemma SegsAreElems(p: string)
    ensures AllElems(Segs(p))
  {
    SplitNoSlash(p);
    FilterKeepsElems(SplitSlash(p));
  }

  // ---------------------------------------------------------------------
  // Replaying elements

  lemma {:induction false} FoldConcat(r: bool, st: seq<string>, a: seq<string>, b: seq<string>)
    ensures Fold(r, st, a + b) == Fold(r, Fold(r, st, a), b)
    decreases |a|
  {
    if a != [] {
      assert (a + b)[0] == a[0];
      assert (a + b)[1..] == a[1..] + b;
      assert a + b != [];
      FoldConcat(r, Step(r, st, a[0]), a[1..], b);
      assert Fold(r, st, a + b) == Fold(r, Step(r, st, a[0]), a[1..] + b);
      assert Fold(r, st, a) == Fold(r, Step(r, st, a[0]), a[1..]);
    } else {
      assert a + b == b;
    }
  }

  lemma FoldSnoc(r: bool, st: seq<string>, a: seq<string>, e: string)
    ensures Fold(r, st, a + [e]) == Step(r, Fold(r, st, a), e)
  {
    FoldConcat(r, st, a, [e]);
  }

  /** Without "..", every element is pushed. */
  lemma {:induction false} FoldPushAll(r: bool, st: seq<string>, b: seq<string>)
    requires ".." !in b
    ensures Fold(r, st, b) == st + b
    decreases |b|
  {
    if b != [] {
      assert b[0] in b;
      assert forall e :: e in b[1..] ==> e in b;
      FoldPushAll(r, st + [b[0]], b[1..]);
      assert st + [b[0]] + b[1..] == st + b;
    }
  }

  /** Replaying elements keeps a stack of elements. */
  lemma {:induction false} FoldElems(r: bool, st: seq<string>, a: seq<string>)
    requires AllElems(st) && AllElems(a)
    ensures AllElems(Fold(r, st, a))
    decreases |a|
  {
    if a != [] {
      var st' := Step(r, st, a[0]);
      assert AllElems(st') by {
        if a[0] == ".." && |st| > 0 && st[|st| - 1] != ".." {
          assert forall e :: e in st[..|st| - 1] ==> e in st;
        }
      }
      FoldElems(r, st', a[1..]);
    }
  }

  /** A rooted path never keeps "..". */
  lemma {:induction false} FoldRootedNoDotDot(st: seq<string>, a: seq<string>)
    requires ".." !in st
    ensures ".." !in Fold(true, st, a)
    decreases |a|
  {
    if a != [] {
      var st' := Step(true, st, a[0]);
      assert ".." !in st' by {
        if a[0] == ".." && |st| > 0 {
          assert forall e :: e in st[..|st| - 1] ==> e in st;
        }
      }
      FoldRootedNoDotDot(st', a[1..]);
    }
  }

  /** Replaying elements on any stack gives the same result as first
      resolving them as a relative path: the stack of a relative path is a
      normal form of its elements. */
  lemma {:induction false} FoldNormal(r: bool, st: seq<string>, a: seq<string>)
    ensures Fold(r, st, a) == Fold(r, st, Fold(false, [], a))
    decreases |a|
  {
    if a == [] {
    } else {
      var a', e := a[..|a| - 1], a[|a| - 1];
      assert a == a' + [e];
      FoldNormal(r, st, a');
      var m := Fold(false, [], a');
      FoldSnoc(r, st, a', e);
      FoldSnoc(false, [], a', e);
      if e == ".." && |m| > 0 && m[|m| - 1] != ".." {
        var m' := m[..|m| - 1];
        assert m == m' + [m[|m| - 1]];
        FoldSnoc(r, st, m', m[|m| - 1]);
      } else {
        FoldSnoc(r, st, m, e);
      }
    }
  }

  /** Resolving a resolved list again changes nothing. */
  lemma FoldIdempotent(r: bool, a: seq<string>)
    ensures Fold(r, [], Fold(r, [], a)) == Fold(r, [], a)
  {
    if r {
      FoldRootedNoDotDot([], a);
      FoldPushAll(true, [], Fold(true, [], a));
    } else {
      FoldNormal(false, [], Fold(false, [], a));
      FoldNormal(false, [], a);
    }
  }

  // ---------------------------------------------------------------------
  // Rendering and cleaning

  lemma ResolvedElems(p: string)
    ensures AllElems(Resolved(p))
  {
    SegsAreElems(p);
    FoldElems(IsRooted(p), [], Segs(p));
  }

  lemma {:induction false} JoinStartsWithFirst(st: seq<string>)
    requires |st| >= 1
    ensures HasPrefix(JoinSlash(st), st[0])
    decreases |st|
  {
    if |st| > 1 {
      assert JoinSlash(st) == st[0] + ("/" + JoinSlash(st[1..]));
    }
  }

  /** The elements of a rendered stack are the stack. */
  lemma SegsRender(r: bool, st: seq<string>)
    requires AllElems(st)
    ensures Segs(Render(r, st)) == st
  {
    var j := JoinSlash(st);
    assert Segs(j) == st by {
      if st == [] {
        SegsTrivial();
      } else {
        assert forall p :: p in st ==> '/' !in p by {
          forall p | p in st ensures '/' !in p { assert IsElem(p); }
        }
        SplitJoin(st);
        FilterOfElems(st);
      }
    }
    if r {
      assert Render(r, st) == "" + "/" + j;
      SegsConcat("", j);
      SegsTrivial();
    } else if st == [] {
      SegsTrivial();
    }
  }

  /** A rendered stack is non-empty and rooted exactly when asked to be. */
  lemma RenderRooted(r: bool, st: seq<string>)
    requires AllElems(st)
    ensures Render(r, st) != ""
    ensures IsRooted(Render(r, st)) == r
  {
    if !r && st != [] {
      JoinStartsWithFirst(st);
      assert st[0] in st;
    }
  }

  /** The resolved elements of a cleaned path are those of the path. */
  lemma CleanResolved(p: string)
    ensures Clean(p) != ""
    ensures IsRooted(Clean(p)) == IsRooted(p)
    ensures Resolved(Clean(p)) == Resolved(p)
  {
    var r := IsRooted(p);
    SegsTrivial();
    SegsAreElems(p);
    FoldElems(r, [], Segs(p));
    RenderRooted(r, Resolved(p));
    if p != "" {
      SegsRender(r, Resolved(p));
      FoldIdempotent(r, Segs(p));
    }
  }

  /** The resolved elements of `a + "/" + b`, when `a` is not empty. */
  lemma ResolvedConcat(a: string, b: string)
    requires a != ""
    ensures IsRooted(a + "/" + b) == IsRooted(a)
    ensures Resolved(a + "/" + b) == Fold(IsRooted(a), Resolved(a), Segs(b))
  {
    assert (a + "/" + b)[0] == a[0];
    SegsConcat(a, b);
    FoldConcat(IsRooted(a), [], Segs(a), Segs(b));
  }

  /** Cleaning the left part of a join first makes no difference. */
  lemma CleanJoinLeft(x: string, y: string)
    requires x != ""
    ensures Clean(Clean(x) + "/" + y) == Clean(x + "/" + y)
  {
    CleanResolved(x);
    ResolvedConcat(Clean(x), y);
    ResolvedConcat(x, y);
  }

  /** Cleaning a relative right part of a join first makes no difference. */
  lemma CleanJoinRight(p: string, z: string)
    requires !IsRooted(z)
    ensures Clean(p + "/" + Clean(z)) == Clean(p + "/" + z)
  {
    var r := IsRooted(p + "/" + z);
    assert IsRooted(p + "/" + Clean(z)) == r by {
      assert (p + "/" + Clean(z))[0] == (p + "/" + z)[0];
    }
    SegsConcat(p, Clean(z));
    SegsConcat(p, z);
    FoldConcat(r, [], Segs(p), Segs(Clean(z)));
    FoldConcat(r, [], Segs(p), Segs(z));
    SegsAreElems(z);
    FoldElems(false, [], Segs(z));
    if z != "" {
      SegsRender(false, Resolved(z));
    } else {
      assert Segs(".") == [];
    }
    FoldNormal(r, Fold(r, [], Segs(p)), Segs(z));
  }

  /** `path.Join` of a non-empty left part is the cleaned concatenation. */
  lemma JoinIsClean(a: string, b: string)
    requires a != ""
    ensures Join(a, b) == Clean(a + "/" + b)
  {
    if b == "" {
      var s := a + "/" + b;
      assert Segs(s) == Segs(a) by {
        SegsConcat(a, "");
        SegsTrivial();
      }
      assert IsRooted(s) == IsRooted(a) by {
        assert s[0] == a[0];
      }
      assert Resolved(s) == Resolved(a);
    }
  }

  /** The resolved elements of `path.Join(a, b)`, for a non-empty `a`. */
  lemma ResolvedJoin(a: string, b: string)
    requires a != ""
    ensures Join(a, b) != ""
    ensures IsRooted(Join(a, b)) == IsRooted(a)
    ensures Resolved(Join(a, b)) == Fold(IsRooted(a), Resolved(a), Segs(b))
  {
    JoinIsClean(a, b);
    CleanResolved(a + "/" + b);
    ResolvedConcat(a, b);
  }

  /** Replaying a relative path's elements is replaying its resolved elements. */
  lemma FoldSegsResolved(r: bool, st: seq<string>, z: string)
    requires !IsRooted(z)
    ensures Fold(r, st, Segs(z)) == Fold(r, st, Resolved(z))
  {
    FoldNormal(r, st, Segs(z));
  }

  /** `filepath.Abs` of a join: the absolute left part, then the right
      part's elements. */
  lemma AbsOfJoin(cwd: string, a: string, b: string)
    requires IsRooted(cwd) && a != ""
    ensures Join(a, b) != ""
    ensures Resolved(Abs(cwd, Join(a, b))) == Fold(true, Resolved(Abs(cwd, a)), Segs(b))
  {
    var j := Join(a, b);
    ResolvedJoin(a, b);
    if IsRooted(a) {
      CleanResolved(j);
      CleanResolved(a);
    } else {
      var rc := Resolved(cwd);
      ResolvedJoin(cwd, j);
      ResolvedJoin(cwd, a);
      FoldSegsResolved(true, rc, j);
      FoldConcat(false, [], Segs(a), Segs(b));
      FoldNormal(true, rc, Segs(a) + Segs(b));
      FoldConcat(true, rc, Segs(a), Segs(b));
    }
  }

  /** With a rooted working directory every absolute path is rooted. */
  lemma AbsRooted(cwd: string, p: string)
    requires IsRooted(cwd)
    ensures Abs(cwd, p) != "" && IsRooted(Abs(cwd, p))
  {
    if IsRooted(p) {
      CleanResolved(p);
    } else {
      ResolvedJoin(cwd, p);
    }
  }

  /** The elements of `x + f`, when `x` is empty or ends with '/'. */
  lemma SegsAfterSlash(x: string, f: string)
    requires x == "" || x[|x| - 1] == '/'
    ensures Segs(x + f) == Segs(x) + Segs(f)
  {
    SegsTrivial();
    if x == "" {
      assert x + f == f;
    } else {
      var x0 := x[..|x| - 1];
      assert x == x0 + "/" + "";
      assert x + f == x0 + "/" + f;
      SegsConcat(x0, f);
      SegsConcat(x0, "");
    }
  }

  /** Elements without ".." joined by '/' are already clean, and so is
      their concatenation. */
  lemma JoinPlain(xs: seq<string>, ys: seq<string>)
    requires xs != [] && ys != [] && AllElems(xs) && AllElems(ys)
    requires ".." !in xs && ".." !in ys
    ensures Clean(JoinSlash(xs) + "/" + JoinSlash(ys)) == JoinSlash(xs) + "/" + JoinSlash(ys)
  {
    var x, y := JoinSlash(xs), JoinSlash(ys);
    var s := x + "/" + y;
    assert Segs(x) == xs by {
      SegsRender(false, xs);
    }
    assert Segs(y) == ys by {
      SegsRender(false, ys);
    }
    assert !IsRooted(s) by {
      RenderRooted(false, xs);
      assert s[0] == x[0];
    }
    assert Segs(s) == xs + ys by {
      SegsConcat(x, y);
    }
    assert Resolved(s) == xs + ys by {
      FoldPushAll(false, [], xs + ys);
    }
    assert Clean(s) == JoinSlash(xs + ys);
    JoinConcat(xs, ys);
  }

  /** `path.Split` cuts after the last '/', so the parts concatenate back. */
  lemma SplitPathSpec(p: string)
    ensures SplitPath(p).0 + SplitPath(p).1 == p
    ensures '/' !in SplitPath(p).1
    ensures SplitPath(p).0 == "" || SplitPath(p).0[|SplitPath(p).0| - 1] == '/'
  {
    var i := LastSlash(p);
    LastSlashSpec(p);
    var d, f := p[..i + 1], p[i + 1..];
    DropSlice(p, i + 1);
    assert SplitPath(p) == (d, f);
    assert d + f == p;
    if i >= 0 {
      assert d[|d| - 1] == p[i];
    }
  }

  // ---------------------------------------------------------------------
  // Containment

  /** A joined list of elements starts with ".." exactly when its first
      element does. */
  lemma JoinDotDotFirst(rest: seq<string>)
    requires |rest| >= 1 && IsElem(rest[0])
    ensures HasPrefix(JoinSlash(rest), "..") <==> HasPrefix(rest[0], "..")
  {
    JoinStartsWithFirst(rest);
  }

  /** From an ancestor, the relative path is "." or the added elements. */
  lemma RelElemsDescends(b: seq<string>, t: seq<string>)
    requires b <= t
    ensures RelElems(b, t) == if |t| == |b| then "." else JoinSlash(t[|b|..])
  {
    var k := CommonLen(b, t);
    assert k == |b|;
  }

  /** A string starts with each of its own prefixes. */
  lemma PrefixOfConcat(x: string, y: string)
    ensures HasPrefix(x + y, x)
  {
    assert (x + y)[..|x|] == x;
  }

  /** A common prefix as long as `b` is all of `b`. */
  lemma CommonLenFull(b: seq<string>, t: seq<string>)
    requires CommonLen(b, t) == |b|
    ensures b <= t
  {
    assert b == b[..|b|];
  }

  /** From anywhere but an ancestor, the relative path climbs with "..". */
  lemma RelElemsClimbs(b: seq<string>, t: seq<string>)
    requires !(b <= t)
    ensures HasPrefix(RelElems(b, t), "..")
  {
    var k := CommonLen(b, t);
    if k == |b| {
      CommonLenFull(b, t);
      assert false;
    }
    var tail := UpLevels(|b| - k - 1) + (if k < |t| then "/" + JoinSlash(t[k..]) else "");
    assert RelElems(b, t) == ".." + tail;
    PrefixOfConcat("..", tail);
  }

  /** The relative path starts with ".." exactly when `t` leaves `b`, or
      enters `b` through an element whose name starts with "..". */
  lemma RelElemsIff(b: seq<string>, t: seq<string>)
    requires AllElems(t)
    ensures !HasPrefix(RelElems(b, t), "..") <==>
              b <= t && (|t| == |b| || !HasPrefix(t[|b|], ".."))
  {
    if b <= t {
      RelElemsDescends(b, t);
      if |t| > |b| {
        var rest := t[|b|..];
        assert rest[0] == t[|b|] && rest[0] in t;
        JoinDotDotFirst(rest);
      }
    } else {
      RelElemsClimbs(b, t);
    }
  }

  /** A relative path that does not start with ".." was reached from `base`
      by descending only: `base`'s elements are a prefix of `targ`'s. */
  lemma RelImpliesWithin(base: string, targ: string)
    requires !HasPrefix(Rel(base, targ), "..")
    ensures Within(targ, base)
  {
    ResolvedElems(targ);
    RelElemsIff(Resolved(base), Resolved(targ));
  }

  /** A stack that extends another renders as that one's string, then "/". */
  lemma RenderExtends(b: seq<string>, t: seq<string>)
    requires b <= t && b != [] && b != t
    ensures HasPrefix(Render(true, t), Render(true, b) + "/")
  {
    var rest := t[|b|..];
    assert t == b + rest;
    JoinConcat(b, rest);
    var jb, jr := JoinSlash(b), JoinSlash(rest);
    assert JoinSlash(t) == jb + "/" + jr;
    var x := "/" + jb + "/";
    assert "/" + (jb + "/" + jr) == x + jr;
    PrefixOfConcat(x, jr);
  }

  /** The element-wise containment, read on the cleaned strings: the same
      path, a path below `base` + "/", or anything when `base` is "/". */
  lemma WithinAsString(p: string, base: string)
    requires IsRooted(p) && IsRooted(base)
    requires Within(p, base)
    ensures Clean(p) == Clean(base) || HasPrefix(Clean(p), Clean(base) + "/") || Clean(base) == "/"
  {
    var b, t := Resolved(base), Resolved(p);
    assert Clean(p) == Render(true, t);
    assert Clean(base) == Render(true, b);
    if b != [] && b != t {
      RenderExtends(b, t);
    }
  }
}
