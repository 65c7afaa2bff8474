/** The parts of Go's path/filepath and strings packages that the runner relies on, for Unix
    paths ('/' separator, no volume names): strings.Split and strings.Join on "/", and
    filepath.Clean, Abs, Join, Dir and Rel. */
module FilePath {
  import opened Wrappers
  import opened Seqs

  /** filepath.IsAbs on Unix: the path starts with the separator. */
  predicate IsRooted(s: string)
  {
    |s| > 0 && s[0] == '/'
  }

  /** A working directory, which the operating system always reports as an absolute path. */
  type AbsPath = s: string | IsRooted(s) witness "/"

  /** strings.Split(s, "/"). */
  function Split(s: string): (r: seq<string>)
    ensures |r| >= 1
    decreases |s|
  {
    if s == [] then [""]
    else if s[0] == '/' then [""] + Split(s[1..])
    else
      var t := Split(s[1..]);
      [[s[0]] + t[0]] + t[1..]
  }

  /** strings.Join(xs, "/"). */
  function Join(xs: seq<string>): string
    decreases |xs|
  {
    if |xs| == 0 then ""
    else if |xs| == 1 then xs[0]
    else xs[0] + "/" + Join(xs[1..])
  }

  /** A path element that a cleaned absolute path can contain. */
  predicate Proper(seg: string)
  {
    seg != "" && seg != "." && seg != ".." && '/' !in seg
  }

  predicate AllProper(xs: seq<string>)
  {
    forall i :: 0 <= i < |xs| ==> Proper(xs[i])
  }

  predicate NoSeparator(xs: seq<string>)
  {
    forall i :: 0 <= i < |xs| ==> '/' !in xs[i]
  }

  /** One step of filepath.Clean over the element list: empty and "." elements vanish, ".."
      removes the previous real element, and at the root of an absolute path it vanishes. */
  function Step(acc: seq<string>, seg: string, rooted: bool): seq<string>
  {
    if seg == "" || seg == "." then acc
    else if seg == ".." then
      (if |acc| > 0 && acc[|acc| - 1] != ".." then acc[..|acc| - 1]
       else if rooted then acc
       else acc + [".."])
    else acc + [seg]
  }

  function Fold(acc: seq<string>, segs: seq<string>, rooted: bool): seq<string>
    decreases |segs|
  {
    if segs == [] then acc else Fold(Step(acc, segs[0], rooted), segs[1..], rooted)
  }

  /** The elements of the cleaned form of s. */
  function Elements(s: string): seq<string>
  {
    Fold([], Split(s), IsRooted(s))
  }

  function Render(rooted: bool, elems: seq<string>): string
  {
    if rooted then "/" + Join(elems)
    else if elems == [] then "."
    else Join(elems)
  }

  /** filepath.Clean. */
  function Clean(s: string): string
  {
    Render(IsRooted(s), Elements(s))
  }

  /** An absolute path in the form filepath.Clean returns. */
  predicate IsCleanAbs(p: string)
  {
    IsRooted(p) && AllProper(Elements(p)) && Render(true, Elements(p)) == p
  }

  function NonEmpty(xs: seq<string>): (r: seq<string>)
    ensures forall i :: 0 <= i < |r| ==> r[i] != ""
    decreases |xs|
  {
    if xs == [] then []
    else (if xs[0] == "" then [] else [xs[0]]) + NonEmpty(xs[1..])
  }

  /** filepath.Join(elems...): the non-empty elements joined by "/" and cleaned, or "" when
      every element is empty. */
  function JoinAll(elems: seq<string>): string
  {
    var ne := NonEmpty(elems);
    if ne == [] then "" else Clean(Join(ne))
  }

  /** filepath.Join(a, b). */
  function JoinPath(a: string, b: string): string
  {
    JoinAll([a, b])
  }

  /** filepath.Abs, with the working directory given. */
  function Abs(cwd: AbsPath, p: string): string
  {
    if IsRooted(p) then Clean(p) else JoinPath(cwd, p)
  }

  /** The path up to and including its last separator ("" when it has none). */
  function DirPrefix(p: string): string
    decreases |p|
  {
    if p == "" then ""
    else if p[|p| - 1] == '/' then p
    else DirPrefix(p[..|p| - 1])
  }

  /** filepath.Dir. */
  function Dir(p: string): string
  {
    Clean(DirPrefix(p))
  }

  function Dots(n: nat): (r: seq<string>)
    ensures |r| == n && forall i :: 0 <= i < n ==> r[i] == ".."
  {
    seq(n, _ => "..")
  }

  /** The elements of an already cleaned path, read off its text. */
  function CleanElements(c: string): seq<string>
  {
    if c == "" || c == "/" then []
    else if IsRooted(c) then Split(c[1..])
    else Split(c)
  }

  /** filepath.Rel: the path that leads from base to targ, element by element. */
  function Rel(base: string, targ: string): Result<string, string>
  {
    var b := Clean(base);
    var t := Clean(targ);
    if t == b then Success(".")
    else
      var b' := if b == "." then "" else b;
      if IsRooted(b') != IsRooted(t) then
        Failure("Rel: can't make " + targ + " relative to " + base)
      else
        var bs := CleanElements(b');
        var ts := CleanElements(t);
        var c := |Lcp(bs, ts)|;
        if c < |bs| && bs[c] == ".." then
          Failure("Rel: can't make " + targ + " relative to " + base)
        else if c < |bs| then Success(Join(Dots(|bs| - c) + ts[c..]))
        else Success(Join(ts[c..]))
  }

  // ---------------------------------------------------------------------------------------
  // Splitting and joining

  lemma SplitNoSeparator(s: string)
    requires '/' !in s
    ensures Split(s) == [s]
    decreases |s|
  {
    if s != [] {
      assert '/' !in s[1..];
      SplitNoSeparator(s[1..]);
      assert [s[0]] + s[1..] == s;
    }
  }

  lemma SplitHasNoSeparator(s: string)
    ensures NoSeparator(Split(s))
    decreases |s|
  {
    if s != [] {
      SplitHasNoSeparator(s[1..]);
    }
  }

  lemma {:induction false} SplitConcat(x: string, y: string)
    ensures Split(x + "/" + y) == Split(x) + Split(y)
    decreases |x|
  {
    if x == [] {
      SplitCons('/', y);
      assert x + "/" + y == ['/'] + y;
    } else {
      SplitConcat(x[1..], y);
      SplitConcatStep(x[0], x[1..], y);
      assert x == [x[0]] + x[1..];
    }
  }

  /** The step of SplitConcat: one more character in front of the first part. */
  lemma SplitConcatStep(c: char, x: string, y: string)
    requires Split(x + "/" + y) == Split(x) + Split(y)
    ensures Split([c] + x + "/" + y) == Split([c] + x) + Split(y)
  {
    var r := x + "/" + y;
    assert [c] + x + "/" + y == [c] + r;
    SplitConsAppend(c, x, r, Split(y));
  }

  lemma SplitConsAppend(c: char, x: string, r: string, u: seq<string>)
    requires Split(r) == Split(x) + u
    ensures Split([c] + r) == Split([c] + x) + u
  {
    SplitCons(c, r);
    SplitCons(c, x);
    var t := Split(x);
    if c == '/' {
      AppendAssoc([""], t, u);
    } else {
      AppendHead(t, u);
      AppendAssoc([[c] + t[0]], t[1..], u);
    }
  }

  /** Split of a string by its first character. */
  lemma SplitCons(c: char, r: string)
    ensures Split([c] + r) == if c == '/' then [""] + Split(r) else [[c] + Split(r)[0]] + Split(r)[1..]
  {
    assert ([c] + r)[0] == c && ([c] + r)[1..] == r;
  }

  lemma {:induction false} SplitJoin(xs: seq<string>)
    requires |xs| > 0 && NoSeparator(xs)
    ensures Split(Join(xs)) == xs
    decreases |xs|
  {
    if |xs| == 1 {
      SplitNoSeparator(xs[0]);
    } else {
      SplitConcat(xs[0], Join(xs[1..]));
      SplitNoSeparator(xs[0]);
      SplitJoin(xs[1..]);
    }
  }

  lemma JoinNotEmpty(xs: seq<string>)
    requires |xs| > 0 && xs[0] != ""
    ensures Join(xs) != ""
  {
  }

  // ---------------------------------------------------------------------------------------
  // Cleaning

  lemma {:induction false} FoldAppend(acc: seq<string>, a: seq<string>, b: seq<string>, rooted: bool)
    ensures Fold(acc, a + b, rooted) == Fold(Fold(acc, a, rooted), b, rooted)
    decreases |a|
  {
    if a != [] {
      assert (a + b)[0] == a[0];
      assert (a + b)[1..] == a[1..] + b;
      FoldAppend(Step(acc, a[0], rooted), a[1..], b, rooted);
    } else {
      assert a + b == b;
    }
  }

  lemma {:induction false} FoldProper(acc: seq<string>, xs: seq<string>, rooted: bool)
    requires AllProper(xs)
    ensures Fold(acc, xs, rooted) == acc + xs
    decreases |xs|
  {
    if xs != [] {
      FoldProper(acc + [xs[0]], xs[1..], rooted);
      assert acc + [xs[0]] + xs[1..] == acc + xs;
    }
  }

  lemma {:induction false} FoldRootedProper(acc: seq<string>, segs: seq<string>)
    requires AllProper(acc) && NoSeparator(segs)
    ensures AllProper(Fold(acc, segs, true))
    decreases |segs|
  {
    if segs != [] {
      assert '/' !in segs[0];
      FoldRootedProper(Step(acc, segs[0], true), segs[1..]);
    }
  }

  lemma {:induction false} FoldDots(acc: seq<string>, m: nat, rooted: bool)
    requires m <= |acc| && AllProper(acc)
    ensures Fold(acc, Dots(m), rooted) == acc[..|acc| - m]
    decreases m
  {
    if m > 0 {
      assert Dots(m)[0] == "..";
      assert Dots(m)[1..] == Dots(m - 1);
      var acc' := acc[..|acc| - 1];
      assert Step(acc, "..", rooted) == acc';
      FoldDots(acc', m - 1, rooted);
      assert acc'[..|acc'| - (m - 1)] == acc[..|acc| - m];
    } else {
      assert acc[..|acc|] == acc;
    }
  }

  /** The text of a cleaned absolute path splits back into "" and its elements. */
  lemma SplitRender(xs: seq<string>)
    requires AllProper(xs)
    ensures Split(Render(true, xs)) == if xs == [] then ["", ""] else [""] + xs
  {
    var s := Render(true, xs);
    assert s[0] == '/' && s[1..] == Join(xs);
    if xs != [] {
      SplitJoin(xs);
    }
  }

  lemma ElementsRender(xs: seq<string>)
    requires AllProper(xs)
    ensures Elements(Render(true, xs)) == xs
    ensures IsCleanAbs(Render(true, xs))
  {
    SplitRender(xs);
    var s := Split(Render(true, xs));
    if xs == [] {
      assert Fold([], s, true) == Fold([], [""], true) == [];
    } else {
      assert Fold([], s, true) == Fold([], xs, true);
      FoldProper([], xs, true);
    }
  }

  lemma ElementsRooted(s: string)
    requires IsRooted(s)
    ensures AllProper(Elements(s))
  {
    SplitHasNoSeparator(s);
    FoldRootedProper([], Split(s));
  }

  /** Cleaning an absolute path gives a clean absolute path. */
  lemma CleanRooted(s: string)
    requires IsRooted(s)
    ensures IsCleanAbs(Clean(s))
    ensures Elements(Clean(s)) == Elements(s)
  {
    ElementsRooted(s);
    ElementsRender(Elements(s));
  }

  lemma CleanOfCleanAbs(p: string)
    requires IsCleanAbs(p)
    ensures Clean(p) == p
  {
  }

  /** A clean absolute path is its own cleaned rendering. */
  lemma CleanAbsShape(p: string)
    requires IsCleanAbs(p)
    ensures p == Render(true, Elements(p)) && AllProper(Elements(p))
    ensures Split(p) == if Elements(p) == [] then ["", ""] else [""] + Elements(p)
  {
    SplitRender(Elements(p));
  }

  lemma NonEmptyPair(a: string, b: string)
    ensures NonEmpty([a, b]) == (if a == "" then [] else [a]) + (if b == "" then [] else [b])
  {
    assert [a, b][1..] == [b];
    assert [b][1..] == [];
    assert NonEmpty([b]) == (if b == "" then [] else [b]) + NonEmpty([]);
  }

  lemma {:induction false} NonEmptyConcat(a: seq<string>, b: seq<string>)
    ensures NonEmpty(a + b) == NonEmpty(a) + NonEmpty(b)
    decreases |a|
  {
    if a == [] {
      assert a + b == b;
    } else {
      assert (a + b)[0] == a[0];
      assert (a + b)[1..] == a[1..] + b;
      NonEmptyConcat(a[1..], b);
    }
  }

  lemma NonEmptyKeeps(xs: seq<string>)
    requires forall i :: 0 <= i < |xs| ==> xs[i] != ""
    ensures NonEmpty(xs) == xs
    decreases |xs|
  {
    if xs != [] {
      NonEmptyKeeps(xs[1..]);
    }
  }

  lemma NonEmptyDrops(xs: seq<string>)
    requires forall i :: 0 <= i < |xs| ==> xs[i] == ""
    ensures NonEmpty(xs) == []
    decreases |xs|
  {
    if xs != [] {
      NonEmptyDrops(xs[1..]);
    }
  }

  lemma JoinPathRooted(a: string, b: string)
    requires IsRooted(a)
    ensures IsCleanAbs(JoinPath(a, b))
  {
    NonEmptyPair(a, b);
    if b == "" {
      CleanRooted(a);
    } else {
      assert Join([a, b]) == a + "/" + b;
      CleanRooted(a + "/" + b);
    }
  }

  /** Abs always yields a clean absolute path. */
  lemma AbsIsCleanAbs(cwd: AbsPath, p: string)
    ensures IsCleanAbs(Abs(cwd, p))
  {
    if IsRooted(p) {
      CleanRooted(p);
    } else {
      JoinPathRooted(cwd, p);
    }
  }

  /** Joining "/" with the elements of a clean path and cleaning renders that path. */
  lemma JoinUnderRoot(xs: seq<string>)
    requires AllProper(xs)
    ensures Clean(Join(["/"] + xs)) == Render(true, xs)
  {
    if xs == [] {
      assert Join(["/"]) == "/";
      assert Split("/") == ["", ""];
      assert Elements("/") == [];
    } else {
      var s := Join(["/"] + xs);
      assert (["/"] + xs)[1..] == xs;
      assert s == "/" + "/" + Join(xs);
      SplitJoin(xs);
      SplitDoubleRoot(Join(xs));
      FoldUnderRoot(xs);
    }
  }

  lemma SplitDoubleRoot(t: string)
    ensures Split("/" + "/" + t) == ["", ""] + Split(t)
  {
    var s := "/" + "/" + t;
    assert s[1..] == "/" + t && s[1..][1..] == t;
  }

  lemma FoldUnderRoot(xs: seq<string>)
    requires AllProper(xs)
    ensures Fold([], ["", ""] + xs, true) == xs
  {
    var sp := ["", ""] + xs;
    assert sp[1..] == [""] + xs && sp[1..][1..] == xs;
    FoldProper([], xs, true);
  }

  /** A trailing separator does not change what a non-empty path cleans to. */
  lemma {:induction false} CleanTrailingSeparator(s: string)
    requires s != ""
    ensures Clean(s + "/") == Clean(s)
  {
    assert s + "/" == s + "/" + "";
    SplitConcat(s, "");
    assert Split(s + "/") == Split(s) + [""];
    assert IsRooted(s + "/") == IsRooted(s);
    FoldAppend([], Split(s), [""], IsRooted(s));
  }

  lemma DirPrefixRooted(p: string)
    requires IsRooted(p)
    ensures IsRooted(DirPrefix(p))
    decreases |p|
  {
    if p[|p| - 1] != '/' {
      assert |p| > 1;
      DirPrefixRooted(p[..|p| - 1]);
    }
  }

  /** The parent of an absolute path is a clean absolute path. */
  lemma DirIsCleanAbs(p: string)
    requires IsRooted(p)
    ensures IsCleanAbs(Dir(p))
  {
    DirPrefixRooted(p);
    CleanRooted(DirPrefix(p));
  }

  lemma CleanElementsOfCleanAbs(p: string)
    requires IsCleanAbs(p)
    ensures CleanElements(p) == Elements(p)
  {
    var xs := Elements(p);
    if xs != [] {
      assert p == "/" + Join(xs);
      assert p[1..] == Join(xs);
      JoinNotEmpty(xs);
      SplitJoin(xs);
    }
  }

  /** The elements of the path that leads from the elements B to the elements T. */
  function RelElements(B: seq<string>, T: seq<string>): seq<string>
  {
    var c := |Lcp(B, T)|;
    if c < |B| then Dots(|B| - c) + T[c..] else T[c..]
  }

  lemma RelOfCleanAbs(base: string, targ: string)
    requires IsCleanAbs(base) && IsCleanAbs(targ) && base != targ
    ensures Rel(base, targ) == Success(Join(RelElements(Elements(base), Elements(targ))))
  {
    CleanAbsShape(base);
    CleanAbsShape(targ);
    CleanElementsOfCleanAbs(base);
    CleanElementsOfCleanAbs(targ);
    var B := Elements(base);
    var c := |Lcp(B, Elements(targ))|;
    assert c < |B| ==> Proper(B[c]);
  }

  /** Joining a relative path onto a clean absolute base and cleaning applies its elements. */
  lemma JoinPathElements(base: string, rs: seq<string>)
    requires IsCleanAbs(base) && |rs| > 0 && rs[0] != "" && NoSeparator(rs)
    ensures JoinPath(base, Join(rs)) == Render(true, Fold(Elements(base), rs, true))
  {
    var rel := Join(rs);
    JoinNotEmpty(rs);
    NonEmptyPair(base, rel);
    assert Join([base, rel]) == base + "/" + rel;
    var s := base + "/" + rel;
    assert IsRooted(s);
    SplitConcat(base, rel);
    SplitJoin(rs);
    assert Split(s) == Split(base) + rs;
    FoldAppend([], Split(base), rs, true);
  }

  lemma RelElementsApply(B: seq<string>, T: seq<string>)
    requires AllProper(B) && AllProper(T) && B != T
    ensures var rs := RelElements(B, T); |rs| > 0 && rs[0] != "" && NoSeparator(rs)
    ensures Fold(B, RelElements(B, T), true) == T
  {
    RelElementsShape(B, T);
    RelElementsFold(B, T);
  }

  lemma RelElementsShape(B: seq<string>, T: seq<string>)
    requires AllProper(B) && AllProper(T) && B != T
    ensures var rs := RelElements(B, T); |rs| > 0 && rs[0] != "" && NoSeparator(rs)
  {
    var c := |Lcp(B, T)|;
    assert B[..c] == T[..c];
    if c >= |B| {
      assert B == T[..c];
      assert |T| > c;
    }
  }

  lemma RelElementsFold(B: seq<string>, T: seq<string>)
    requires AllProper(B) && AllProper(T) && B != T
    ensures Fold(B, RelElements(B, T), true) == T
  {
    var c := |Lcp(B, T)|;
    if c < |B| {
      RelElementsUp(B, T, c);
    } else {
      RelElementsDown(B, T, c);
    }
  }

  /** The base leaves the target's branch: climb out of the rest of the base, then descend. */
  lemma RelElementsUp(B: seq<string>, T: seq<string>, c: nat)
    requires AllProper(B) && AllProper(T) && c == |Lcp(B, T)| && c < |B|
    ensures Fold(B, RelElements(B, T), true) == T
  {
    var l, tail := Lcp(B, T), T[c..];
    PrefixTake(l, B);
    PrefixTake(l, T);
    AllProperSuffix(T, c);
    assert RelElements(B, T) == Dots(|B| - c) + tail;
    calc {
      Fold(B, Dots(|B| - c) + tail, true);
      { FoldAppend(B, Dots(|B| - c), tail, true); }
      Fold(Fold(B, Dots(|B| - c), true), tail, true);
      { FoldDots(B, |B| - c, true); }
      Fold(B[..c], tail, true);
      { FoldProper(B[..c], tail, true); }
      T[..c] + tail;
      { TakeDrop(T, c); }
      T;
    }
  }

  lemma AllProperSuffix(xs: seq<string>, c: nat)
    requires AllProper(xs) && c <= |xs|
    ensures AllProper(xs[c..])
  {
    forall i | 0 <= i < |xs[c..]| ensures Proper(xs[c..][i]) {
      assert xs[c..][i] == xs[c + i];
    }
  }

  /** The base is an ancestor of the target: descend from it. */
  lemma RelElementsDown(B: seq<string>, T: seq<string>, c: nat)
    requires AllProper(B) && AllProper(T) && c == |Lcp(B, T)| && c >= |B|
    ensures Fold(B, RelElements(B, T), true) == T
  {
    var l, tail := Lcp(B, T), T[c..];
    PrefixTake(l, B);
    PrefixTake(l, T);
    assert B[..c] == B;
    AllProperSuffix(T, c);
    assert RelElements(B, T) == tail;
    FoldProper(B, tail, true);
    TakeDrop(T, c);
  }

  /** Rel always succeeds between two clean absolute paths, and joining its answer onto the
      base leads back to the target. */
  lemma {:induction false} RelJoinRoundTrip(base: string, targ: string)
    requires IsCleanAbs(base) && IsCleanAbs(targ)
    ensures Rel(base, targ).Success?
    ensures JoinPath(base, Rel(base, targ).value) == targ
  {
    CleanAbsShape(base);
    CleanAbsShape(targ);
    if targ == base {
      assert Rel(base, targ) == Success(".");
      JoinPathElements(base, ["."]);
      assert Fold(Elements(base), ["."], true) == Elements(base);
    } else {
      var B, T := Elements(base), Elements(targ);
      RelOfCleanAbs(base, targ);
      RelElementsApply(B, T);
      JoinPathElements(base, RelElements(B, T));
    }
  }

  /** The parent of a clean absolute path drops its last element. */
  lemma DirParent(xs: seq<string>)
    requires AllProper(xs) && xs != []
    ensures Dir(Render(true, xs)) == Render(true, xs[..|xs| - 1])
  {
    var n := |xs|;
    var pre := xs[..n - 1];
    var p := Render(true, xs);
    var prefix := if pre == [] then "/" else "/" + Join(pre) + "/";
    assert p == prefix + xs[n - 1] by {
      JoinSnoc(xs);
    }
    DirPrefixDrop(prefix, xs[n - 1]);
    assert AllProper(pre);
    if pre == [] {
      assert Clean("/") == "/" by { assert Split("/") == ["", ""]; }
    } else {
      var s := "/" + Join(pre) + "/";
      assert s == ("/" + Join(pre)) + "/";
      CleanTrailingSeparator("/" + Join(pre));
      ElementsRender(pre);
    }
  }

  lemma JoinSnoc(xs: seq<string>)
    requires |xs| > 0
    ensures "/" + Join(xs) == (if |xs| == 1 then "/" else "/" + Join(xs[..|xs| - 1]) + "/") + xs[|xs| - 1]
  {
    if |xs| > 1 {
      JoinLast(xs);
      var p, l := Join(xs[..|xs| - 1]), xs[|xs| - 1];
      assert "/" + (p + "/" + l) == "/" + p + "/" + l;
    }
  }

  /** Join of two or more elements ends with the separator and the last element. */
  lemma {:induction false} JoinLast(xs: seq<string>)
    requires |xs| >= 2
    ensures Join(xs) == Join(xs[..|xs| - 1]) + "/" + xs[|xs| - 1]
    decreases |xs|
  {
    var n := |xs|;
    if n == 2 {
      assert xs[..1] == [xs[0]];
    } else {
      JoinLast(xs[1..]);
      var m := xs[1..n - 1];
      assert xs[1..][..n - 2] == m && xs[..n - 1][1..] == m && xs[1..][n - 2] == xs[n - 1];
      var a, j, l := xs[0], Join(m), xs[n - 1];
      assert Join(xs) == a + "/" + (j + "/" + l);
      assert Join(xs[..n - 1]) == a + "/" + j;
      assert a + "/" + (j + "/" + l) == a + "/" + j + "/" + l;
    }
  }

  lemma {:induction false} DirPrefixDrop(prefix: string, last: string)
    requires |prefix| > 0 && prefix[|prefix| - 1] == '/' && '/' !in last
    ensures DirPrefix(prefix + last) == prefix
    decreases |last|
  {
    if last != [] {
      var s := prefix + last;
      assert s[..|s| - 1] == prefix + last[..|last| - 1];
      assert s[|s| - 1] == last[|last| - 1];
      assert '/' !in last[..|last| - 1];
      DirPrefixDrop(prefix, last[..|last| - 1]);
    } else {
      assert prefix + last == prefix;
    }
  }
}
