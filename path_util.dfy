/** lib/path_util.go: the common root directory of a list of paths. */
module PathUtil {
  import opened Seqs
  import opened FilePath

  /** The elements of each path once it is made absolute and cleaned. */
  function AbsElements(cwd: AbsPath, paths: seq<string>): (r: seq<seq<string>>)
    ensures |r| == |paths|
    ensures forall j :: 0 <= j < |paths| ==> r[j] == Elements(Abs(cwd, paths[j]))
  {
    seq(|paths|, j requires 0 <= j < |paths| => Elements(Abs(cwd, paths[j])))
  }

  /** What strings.Split makes of a clean absolute path with the given elements. */
  function Parts(xs: seq<string>): seq<string>
  {
    if xs == [] then ["", ""] else [""] + xs
  }

  /** The deepest directory that is an ancestor-or-self of every path, element by element,
      or "" for no paths. */
  function CommonRoot(cwd: AbsPath, paths: seq<string>): string
  {
    if paths == [] then "" else Render(true, CommonPrefix(AbsElements(cwd, paths)))
  }

  /** CommonPathPrefix (lib/path_util.go:10-45). The operating system's working directory is
      given as cwd, so making a path absolute cannot fail and no error is returned. */
  method CommonPathPrefix(paths: seq<string>, cwd: AbsPath) returns (r: string)
    ensures r == CommonRoot(cwd, paths)
  {
    if |paths| == 0 {
      return "";
    }
    var pathParts: seq<seq<string>> := [];
    // Go starts minLen at the largest int; -1 stands for "no bound yet".
    var minLen := -1;
    ghost var shortest := 0;
    for k := 0 to |paths|
      invariant |pathParts| == k
      invariant forall j {:trigger paths[j]} :: 0 <= j < k ==> pathParts[j] == Split(Abs(cwd, paths[j]))
      invariant k == 0 ==> minLen == -1
      invariant k > 0 ==> 0 <= minLen && forall j :: 0 <= j < k ==> minLen <= |pathParts[j]|
      invariant k > 0 ==> shortest < k && minLen == |pathParts[shortest]|
    {
      var path := Abs(cwd, paths[k]);
      var parts := Split(path);
      pathParts := pathParts + [parts];
      if minLen < 0 || minLen > |parts| {
        minLen := |parts|;
        shortest := k;
      }
    }
    assert |pathParts| == |paths| > 0;
    assert forall j :: 0 <= j < |pathParts| ==> minLen <= |pathParts[j]|;
    var matchingParts := ["/"];
    for i := 0 to minLen
      invariant matchingParts == ["/"] + pathParts[0][..i]
      invariant AgreeBelow(pathParts, i)
      invariant forall j :: 0 <= j < |pathParts| ==> minLen <= |pathParts[j]|
    {
      var part := pathParts[0][i];
      for j := 1 to |pathParts|
        invariant forall j' :: 0 <= j' < j ==> i < |pathParts[j']| && pathParts[j'][i] == part
      {
        if pathParts[j][i] != part {
          r := JoinAll(matchingParts);
          MismatchStops(pathParts, i, j);
          ScanGivesCommonRoot(cwd, paths, pathParts, i);
          return;
        }
      }
      AgreeBelowExtend(pathParts, i, minLen);
      matchingParts := matchingParts + [part];
    }
    r := JoinAll(matchingParts);
    ShortestStops(pathParts, minLen, shortest);
    ScanGivesCommonRoot(cwd, paths, pathParts, minLen);
  }

  lemma AgreeBelowExtend(pp: seq<seq<string>>, i: nat, m: nat)
    requires AgreeBelow(pp, i) && i < m
    requires forall j :: 0 <= j < |pp| ==> m <= |pp[j]|
    requires forall j :: 0 <= j < |pp| ==> pp[j][i] == pp[0][i]
    ensures AgreeBelow(pp, i + 1)
  {
  }

  lemma MismatchStops(pp: seq<seq<string>>, i: nat, j: nat)
    requires AgreeBelow(pp, i) && j < |pp|
    requires i < |pp[0]| && i < |pp[j]| && pp[j][i] != pp[0][i]
    ensures StopsAt(pp, i)
  {
  }

  lemma ShortestStops(pp: seq<seq<string>>, m: nat, w: nat)
    requires AgreeBelow(pp, m) && w < |pp| && m == |pp[w]|
    ensures StopsAt(pp, m)
  {
  }

  lemma PartsOfAbs(cwd: AbsPath, p: string)
    ensures AllProper(Elements(Abs(cwd, p)))
    ensures Split(Abs(cwd, p)) == Parts(Elements(Abs(cwd, p)))
  {
    AbsIsCleanAbs(cwd, p);
    CleanAbsShape(Abs(cwd, p));
  }

  lemma AbsElementsProper(cwd: AbsPath, paths: seq<string>)
    ensures forall j :: 0 <= j < |paths| ==> AllProper(AbsElements(cwd, paths)[j])
  {
    forall j | 0 <= j < |paths| ensures AllProper(AbsElements(cwd, paths)[j]) {
      PartsOfAbs(cwd, paths[j]);
    }
  }

  /** Where the scan over the split parts stops, joining the matched parts gives the common
      root. */
  lemma ScanGivesCommonRoot(cwd: AbsPath, paths: seq<string>, pp: seq<seq<string>>, k: nat)
    requires |paths| > 0 && |pp| == |paths|
    requires forall j {:trigger paths[j]} :: 0 <= j < |pp| ==> pp[j] == Split(Abs(cwd, paths[j]))
    requires StopsAt(pp, k)
    ensures JoinAll(["/"] + pp[0][..k]) == CommonRoot(cwd, paths)
  {
    var ss := AbsElements(cwd, paths);
    forall j | 0 <= j < |pp| ensures pp[j] == Parts(ss[j]) && AllProper(ss[j]) {
      PartsOfAbs(cwd, paths[j]);
    }
    ScanOverParts(ss, pp, k);
    assert CommonPrefix(ss) <= ss[0] by {
      CommonPrefixOfAll(ss);
    }
    JoinUnderRoot(CommonPrefix(ss));
  }

  /** The same on the element lists: the parts of each path are "" followed by its elements
      (or "", "" for the root itself), and the scan stops one part after the common prefix of
      the elements, or within the leading empty parts when the root is among the paths. */
  lemma ScanOverParts(ss: seq<seq<string>>, pp: seq<seq<string>>, k: nat)
    requires |ss| > 0 && |pp| == |ss|
    requires forall j :: 0 <= j < |ss| ==> pp[j] == Parts(ss[j]) && AllProper(ss[j])
    requires StopsAt(pp, k)
    ensures AllProper(CommonPrefix(ss))
    ensures NonEmpty(["/"] + pp[0][..k]) == ["/"] + CommonPrefix(ss)
  {
    CommonPrefixOfAll(ss);
    assert CommonPrefix(ss) <= ss[0];
    if forall j :: 0 <= j < |ss| ==> ss[j] != [] {
      ScanPastRoot(ss, pp, k);
    } else {
      var z :| 0 <= z < |ss| && ss[z] == [];
      assert pp[z] == ["", ""];
      ScanAtRoot(ss, pp, k);
    }
  }

  lemma ScanPastRoot(ss: seq<seq<string>>, pp: seq<seq<string>>, k: nat)
    requires |ss| > 0 && |pp| == |ss|
    requires forall j :: 0 <= j < |ss| ==> pp[j] == [""] + ss[j] && AllProper(ss[j])
    requires StopsAt(pp, k)
    ensures NonEmpty(["/"] + pp[0][..k]) == ["/"] + CommonPrefix(ss)
  {
    var D := CommonPrefix(ss);
    ScanPrefix(ss, pp, k);
    assert ["/"] + pp[0][..k] == ["/", ""] + D;
    NonEmptyConcat(["/", ""], D);
    assert NonEmpty(["/", ""]) == ["/"];
    AllProperPrefix(ss[0], D);
    NonEmptyKeeps(D);
  }

  /** Where the scan stops, the first path's parts are the root's empty part and the common
      prefix of the elements. */
  lemma ScanPrefix(ss: seq<seq<string>>, pp: seq<seq<string>>, k: nat)
    requires |ss| > 0 && |pp| == |ss|
    requires forall j :: 0 <= j < |ss| ==> pp[j] == [""] + ss[j]
    requires StopsAt(pp, k)
    ensures pp[0][..k] == [""] + CommonPrefix(ss) && CommonPrefix(ss) <= ss[0]
  {
    var D := CommonPrefix(ss);
    PartsStopAfter(ss, pp);
    StopsAtUnique(pp, k, |D| + 1);
    CommonPrefixOfAll(ss);
    assert D <= ss[0];
    assert pp[0] == [""] + ss[0];
  }

  lemma AllProperPrefix(xs: seq<string>, d: seq<string>)
    requires AllProper(xs) && d <= xs
    ensures forall i :: 0 <= i < |d| ==> d[i] != ""
  {
    forall i | 0 <= i < |d| ensures d[i] != "" {
      assert d[i] == xs[i];
    }
  }

  lemma PartsStopAfter(ss: seq<seq<string>>, pp: seq<seq<string>>)
    requires |ss| > 0 && |pp| == |ss|
    requires forall j :: 0 <= j < |ss| ==> pp[j] == [""] + ss[j]
    ensures StopsAt(pp, |CommonPrefix(ss)| + 1)
  {
    var d := |CommonPrefix(ss)|;
    CommonPrefixStops(ss);
    assert AgreeBelow(pp, d + 1) by {
      forall j, i | 0 <= j < |pp| && 0 <= i < d + 1 ensures pp[j][i] == pp[0][i] {
        if i > 0 {
          assert pp[j][i] == ss[j][i - 1] && pp[0][i] == ss[0][i - 1];
        }
      }
    }
    var w :| 0 <= w < |ss| && (d >= |ss[w]| || (d < |ss[0]| && ss[w][d] != ss[0][d]));
    if d < |ss[w]| {
      assert pp[w][d + 1] == ss[w][d] && pp[0][d + 1] == ss[0][d];
    }
  }

  lemma ScanAtRoot(ss: seq<seq<string>>, pp: seq<seq<string>>, k: nat)
    requires |ss| > 0 && |pp| == |ss|
    requires exists z :: 0 <= z < |ss| && ss[z] == [] && pp[z] == ["", ""]
    requires StopsAt(pp, k)
    ensures NonEmpty(["/"] + pp[0][..k]) == ["/"] + CommonPrefix(ss)
  {
    var z :| 0 <= z < |ss| && ss[z] == [] && pp[z] == ["", ""];
    CommonPrefixOfAll(ss);
    assert CommonPrefix(ss) <= ss[z];
    assert k <= 2;
    var m := pp[0][..k];
    forall i | 0 <= i < |m| ensures m[i] == "" {
      assert m[i] == pp[z][i];
    }
    NonEmptyConcat(["/"], m);
    NonEmptyDrops(m);
    assert NonEmpty(["/"]) == ["/"];
  }

  // ---------------------------------------------------------------------------------------
  // What the common root is

  /** With no paths the root is "", otherwise it is a clean absolute path, so it keeps the
      leading separator. */
  lemma CommonRootShape(cwd: AbsPath, paths: seq<string>)
    ensures paths == [] <==> CommonRoot(cwd, paths) == ""
    ensures paths != [] ==> IsCleanAbs(CommonRoot(cwd, paths))
  {
    if paths != [] {
      var ss := AbsElements(cwd, paths);
      AbsElementsProper(cwd, paths);
      CommonPrefixOfAll(ss);
      assert CommonPrefix(ss) <= ss[0];
      ElementsRender(CommonPrefix(ss));
    }
  }

  /** The root is an ancestor-or-self of every path, so it has no more elements than the
      shortest one; and the scan over the elements stops right after the root: some path
      ends there or differs there from the first path. */
  lemma CommonRootIsAncestor(cwd: AbsPath, paths: seq<string>)
    requires paths != []
    ensures var root := Elements(CommonRoot(cwd, paths));
      && (forall j :: 0 <= j < |paths| ==> root <= Elements(Abs(cwd, paths[j])))
      && StopsAt(AbsElements(cwd, paths), |root|)
  {
    var ss := AbsElements(cwd, paths);
    AbsElementsProper(cwd, paths);
    CommonPrefixOfAll(ss);
    CommonPrefixStops(ss);
    assert CommonPrefix(ss) <= ss[0];
    ElementsRender(CommonPrefix(ss));
  }

  /** Every directory that is an ancestor-or-self of all the paths is an ancestor-or-self of
      the root: the root is the deepest such directory. */
  lemma CommonRootIsDeepest(cwd: AbsPath, paths: seq<string>, q: string)
    requires paths != [] && IsCleanAbs(q)
    requires forall j :: 0 <= j < |paths| ==> Elements(q) <= Elements(Abs(cwd, paths[j]))
    ensures Elements(q) <= Elements(CommonRoot(cwd, paths))
  {
    var ss := AbsElements(cwd, paths);
    CommonPrefixLongest(ss, Elements(q));
    CommonRootIsAncestor(cwd, paths);
    AbsElementsProper(cwd, paths);
    CommonPrefixOfAll(ss);
    assert CommonPrefix(ss) <= ss[0];
    ElementsRender(CommonPrefix(ss));
  }

  /** When one path is an ancestor-or-self of all the others, it is the root. In particular a
      single path, or several copies of one path, give that path made absolute. */
  lemma CommonRootOfAncestor(cwd: AbsPath, paths: seq<string>, k: nat)
    requires k < |paths|
    requires forall j :: 0 <= j < |paths| ==> Elements(Abs(cwd, paths[k])) <= Elements(Abs(cwd, paths[j]))
    ensures CommonRoot(cwd, paths) == Abs(cwd, paths[k])
  {
    var ss := AbsElements(cwd, paths);
    CommonPrefixOfAncestor(ss, k);
    AbsIsCleanAbs(cwd, paths[k]);
  }

  lemma AbsTrailingSeparator(cwd: AbsPath, p: string)
    requires p != ""
    ensures Abs(cwd, p + "/") == Abs(cwd, p)
  {
    assert IsRooted(p + "/") == IsRooted(p);
    if IsRooted(p) {
      CleanTrailingSeparator(p);
    } else {
      NonEmptyPair(cwd, p);
      NonEmptyPair(cwd, p + "/");
      assert Join([cwd, p]) == cwd + "/" + p;
      assert Join([cwd, p + "/"]) == (cwd + "/" + p) + "/";
      CleanTrailingSeparator(cwd + "/" + p);
    }
  }

  /** A trailing separator on any one of the paths does not change the root. */
  lemma CommonRootTrailingSeparator(cwd: AbsPath, paths: seq<string>, k: nat)
    requires k < |paths| && paths[k] != ""
    ensures CommonRoot(cwd, paths[k := paths[k] + "/"]) == CommonRoot(cwd, paths)
  {
    AbsTrailingSeparator(cwd, paths[k]);
    assert AbsElements(cwd, paths[k := paths[k] + "/"]) == AbsElements(cwd, paths);
  }

  // ---------------------------------------------------------------------------------------
  // The table of lib/path_util_test.go:17-48

  /** A clean absolute path made absolute is itself, and its elements are the ones it was
      rendered from. */
  lemma Literal(cwd: AbsPath, p: string, xs: seq<string>)
    requires AllProper(xs) && p == Render(true, xs)
    ensures Abs(cwd, p) == p && Elements(p) == xs
  {
    ElementsRender(xs);
    CleanOfCleanAbs(p);
  }

  lemma LiteralAB(cwd: AbsPath)
    ensures Abs(cwd, "/a/b") == "/a/b" && Elements("/a/b") == ["a", "b"]
  {
    assert Join(["a", "b"]) == "a" + "/" + Join(["b"]);
    Literal(cwd, "/a/b", ["a", "b"]);
  }

  lemma LiteralABC(cwd: AbsPath, c: string)
    requires c == "c" || c == "d"
    ensures Abs(cwd, "/a/b/" + c) == "/a/b/" + c && Elements("/a/b/" + c) == ["a", "b", c]
  {
    assert Join(["a", "b", c]) == "a" + "/" + Join(["b", c]);
    assert Join(["b", c]) == "b" + "/" + Join([c]);
    Literal(cwd, "/a/b/" + c, ["a", "b", c]);
  }

  lemma LiteralABCD(cwd: AbsPath)
    ensures Abs(cwd, "/a/b/c/d") == "/a/b/c/d" && Elements("/a/b/c/d") == ["a", "b", "c", "d"]
  {
    assert Join(["a", "b", "c", "d"]) == "a" + "/" + Join(["b", "c", "d"]);
    assert Join(["b", "c", "d"]) == "b" + "/" + Join(["c", "d"]);
    assert Join(["c", "d"]) == "c" + "/" + Join(["d"]);
    Literal(cwd, "/a/b/c/d", ["a", "b", "c", "d"]);
  }

  // The table of lib/path_util_test.go:17-48, one case per lemma.

  /** "Simple mismatch": /a/b/c and /a/b/d share /a/b. */
  lemma TableMismatch(cwd: AbsPath)
    ensures CommonRoot(cwd, ["/a/b/c", "/a/b/d"]) == "/a/b"
  {
    var p, q := "/a/b/" + "c", "/a/b/" + "d";
    assert p == "/a/b/c" && q == "/a/b/d";
    LiteralABC(cwd, "c");
    LiteralABC(cwd, "d");
    var x, y := ["a", "b", "c"], ["a", "b", "d"];
    var ss := AbsElements(cwd, [p, q]);
    assert ss == [x, y];
    assert ss[1..] == [y];
    assert Lcp(x, y) == ["a", "b"] by {
      assert x[1..] == ["b", "c"] && y[1..] == ["b", "d"];
      assert x[1..][1..] == ["c"] && y[1..][1..] == ["d"];
    }
    assert CommonPrefix(ss) == Lcp(x, CommonPrefix([y])) == ["a", "b"];
    assert Join(["a", "b"]) == "a" + "/" + Join(["b"]);
    assert CommonRoot(cwd, [p, q]) == Render(true, ["a", "b"]) == "/a/b";
  }

  /** "All parts matching": two equal paths give the path itself. */
  lemma TableSame(cwd: AbsPath)
    ensures CommonRoot(cwd, ["/a/b/c", "/a/b/c"]) == "/a/b/c"
  {
    var p := "/a/b/c";
    assert p == "/a/b/" + "c";
    LiteralABC(cwd, "c");
    var ps := [p, p];
    assert forall j :: 0 <= j < |ps| ==> ps[j] == p;
    CommonRootOfAncestor(cwd, ps, 0);
  }

  /** "Only one path": the path itself. */
  lemma TableSingle(cwd: AbsPath)
    ensures CommonRoot(cwd, ["/a/b/c"]) == "/a/b/c"
  {
    var p := "/a/b/c";
    assert p == "/a/b/" + "c";
    LiteralABC(cwd, "c");
    CommonRootOfAncestor(cwd, [p], 0);
  }

  /** "Matching a directory": /a/b is an ancestor of /a/b/c/d. */
  lemma TableDirectory(cwd: AbsPath)
    ensures CommonRoot(cwd, ["/a/b", "/a/b/c/d"]) == "/a/b"
  {
    LiteralAB(cwd);
    LiteralABCD(cwd);
    assert ["a", "b"] <= ["a", "b", "c", "d"];
    CommonRootOfAncestor(cwd, ["/a/b", "/a/b/c/d"], 0);
  }

  /** "Trailing directory": /a/b and /a/b/ give /a/b. */
  lemma TableTrailing(cwd: AbsPath)
    ensures CommonRoot(cwd, ["/a/b", "/a/b/"]) == "/a/b"
  {
    LiteralAB(cwd);
    CommonRootTrailingSeparator(cwd, ["/a/b", "/a/b"], 1);
    assert "/a/b" + "/" == "/a/b/";
    assert ["/a/b", "/a/b"][1 := "/a/b/"] == ["/a/b", "/a/b/"];
    CommonRootOfAncestor(cwd, ["/a/b", "/a/b"], 0);
  }
}
