/** The order in which lib/runner.go runs the discovered scripts (getTestScriptsWithOrder and
    shuffleOrder, lib/runner.go:97-107 and 201-208): sort.Strings, then, unless the run is in
    order, a Fisher–Yates shuffle driven by the seeded generator. */
module Ordering {

  // ---------------------------------------------------------------------------------------
  // sort.Strings

  /** Go's < on strings: bytewise on the UTF-8 encoding, which is the order of the Unicode
      code points, compared here character by character. */
  predicate LexLe(a: string, b: string)
    decreases |a|
  {
    a == [] || (b != [] && (a[0] < b[0] || (a[0] == b[0] && LexLe(a[1..], b[1..]))))
  }

  lemma {:induction false} LexLeTotal(a: string, b: string)
    ensures LexLe(a, b) || LexLe(b, a)
    decreases |a|
  {
    if a != [] && b != [] && a[0] == b[0] {
      LexLeTotal(a[1..], b[1..]);
    }
  }

  lemma {:induction false} LexLeAntisymmetric(a: string, b: string)
    requires LexLe(a, b) && LexLe(b, a)
    ensures a == b
    decreases |a|
  {
    if a != [] {
      LexLeAntisymmetric(a[1..], b[1..]);
      assert a == [a[0]] + a[1..] && b == [b[0]] + b[1..];
    }
  }

  lemma {:induction false} LexLeTransitive(a: string, b: string, c: string)
    requires LexLe(a, b) && LexLe(b, c)
    ensures LexLe(a, c)
    decreases |a|
  {
    if a != [] && a[0] == b[0] && b[0] == c[0] {
      LexLeTransitive(a[1..], b[1..], c[1..]);
    }
  }

  /** Each string is <= the next one. */
  predicate Sorted(s: seq<string>)
  {
    forall k :: 0 < k < |s| ==> LexLe(s[k - 1], s[k])
  }

  /** The sorted list is unique: a sorted list that is a permutation of another sorted list is
      that list. It is what lets the in-place sort below stand for sort.Strings whatever
      algorithm the latter uses. */
  lemma {:induction false} SortedUnique(a: seq<string>, b: seq<string>)
    requires Sorted(a) && Sorted(b) && multiset(a) == multiset(b)
    ensures a == b
    decreases |a|
  {
    if a == [] {
      assert |b| == |multiset(b)| == 0;
    } else {
      SortedHeads(a, b);
      SortedTail(a);
      SortedTail(b);
      SortedUnique(a[1..], b[1..]);
      assert a == [a[0]] + a[1..] && b == [b[0]] + b[1..];
    }
  }

  /** Two sorted permutations of each other start with the same entry, and what follows it is
      again a permutation. */
  lemma SortedHeads(a: seq<string>, b: seq<string>)
    requires Sorted(a) && Sorted(b) && multiset(a) == multiset(b) && a != []
    ensures b != [] && a[0] == b[0] && multiset(a[1..]) == multiset(b[1..])
  {
    assert a[0] in multiset(a);
    SortedFirst(b, a[0]);
    assert b[0] in multiset(b);
    SortedFirst(a, b[0]);
    LexLeAntisymmetric(a[0], b[0]);
    MultisetTail(a);
    MultisetTail(b);
  }

  lemma MultisetTail(s: seq<string>)
    requires s != []
    ensures multiset(s[1..]) == multiset(s) - multiset{s[0]}
  {
    assert s == [s[0]] + s[1..];
  }

  lemma SortedTail(s: seq<string>)
    requires Sorted(s) && s != []
    ensures Sorted(s[1..])
  {
    forall k | 0 < k < |s[1..]| ensures LexLe(s[1..][k - 1], s[1..][k]) {
      assert s[1..][k - 1] == s[k] && s[1..][k] == s[k + 1];
    }
  }

  /** The first entry of a sorted list is <= every entry. */
  lemma {:induction false} SortedFirst(s: seq<string>, x: string)
    requires Sorted(s) && x in multiset(s)
    ensures s != [] && LexLe(s[0], x)
    decreases |s|
  {
    assert x in s;
    if s[0] != x {
      assert s == [s[0]] + s[1..];
      assert x in multiset(s[1..]);
      SortedFirst(s[1..], x);
      LexLeTransitive(s[0], s[1], x);
    } else {
      LexLeTotal(x, x);
    }
  }

  /** Insert x after the entries that are <= it. */
  function Insert(x: string, s: seq<string>): (r: seq<string>)
    requires Sorted(s)
    ensures Sorted(r) && multiset(r) == multiset(s) + multiset{x}
    decreases |s|
  {
    if s == [] then [x]
    else if LexLe(x, s[0]) then [x] + s
    else
      LexLeTotal(x, s[0]);
      var t := Insert(x, s[1..]);
      assert s == [s[0]] + s[1..];
      [s[0]] + t
  }

  /** The result of sort.Strings: s sorted, as an insertion sort would produce it. */
  function SortStrings(s: seq<string>): (r: seq<string>)
    ensures Sorted(r) && multiset(r) == multiset(s) && |r| == |s|
    decreases |s|
  {
    if s == [] then []
    else
      assert s == s[..|s| - 1] + [s[|s| - 1]];
      assert multiset(s) == multiset(s[..|s| - 1]) + multiset{s[|s| - 1]};
      Insert(s[|s| - 1], SortStrings(s[..|s| - 1]))
  }

  /** Sorting a sorted list changes nothing; a sorted list that is a permutation of s is
      SortStrings(s). */
  lemma SortStringsOfSorted(s: seq<string>, t: seq<string>)
    requires Sorted(t) && multiset(t) == multiset(s)
    ensures SortStrings(s) == t && SortStrings(t) == t
  {
    SortedUnique(SortStrings(s), t);
    SortedUnique(SortStrings(t), t);
  }

  /** sort.Strings in place (lib/runner.go:102), as an insertion sort by adjacent swaps. */
  method SortInPlace(a: array<string>)
    modifies a
    ensures a[..] == SortStrings(old(a[..]))
  {
    for i := 0 to a.Length
      invariant Sorted(a[..i])
      invariant multiset(a[..]) == multiset(old(a[..]))
    {
      SinkDown(a, i);
    }
    assert a[..a.Length] == a[..];
    SortStringsOfSorted(old(a[..]), a[..]);
  }

  /** One pass of the insertion sort: a[i] moves down past the larger entries before it. */
  method SinkDown(a: array<string>, i: nat)
    requires i < a.Length && Sorted(a[..i])
    modifies a
    ensures Sorted(a[..i + 1]) && multiset(a[..]) == old(multiset(a[..]))
  {
    SinkStart(a[..], i);
    var j: nat := i;
    while j > 0 && !LexLe(a[j - 1], a[j])
      invariant Sinking(a[..], j, i)
      invariant multiset(a[..]) == old(multiset(a[..]))
    {
      SinkStep(a[..], j, i);
      Swap(a, j - 1, j);
      j := j - 1;
    }
    SinkDone(a[..], j, i);
  }

  /** The state of the inner loop of the insertion sort: s[j] is the entry being moved down,
      the entries before it and the entries after it up to i are sorted, it is <= the entry
      after it, and the entries either side of it are in order. */
  predicate Sinking(s: seq<string>, j: nat, i: nat)
  {
    && j <= i < |s|
    && Sorted(s[..j]) && Sorted(s[j + 1..i + 1])
    && (j < i ==> LexLe(s[j], s[j + 1]))
    && (0 < j < i ==> LexLe(s[j - 1], s[j + 1]))
  }

  lemma SinkStart(s: seq<string>, i: nat)
    requires i < |s| && Sorted(s[..i])
    ensures Sinking(s, i, i)
  {
  }

  lemma SinkStep(s: seq<string>, j: nat, i: nat)
    requires Sinking(s, j, i) && 0 < j && !LexLe(s[j - 1], s[j])
    ensures Sinking(SwapAt(s, j - 1, j), j - 1, i)
  {
    var t := SwapAt(s, j - 1, j);
    LexLeTotal(s[j - 1], s[j]);
    assert t[..j - 1] == s[..j - 1];
    var u, v := t[j..i + 1], s[j + 1..i + 1];
    assert Sorted(u) by {
      forall k | 0 < k < |u| ensures LexLe(u[k - 1], u[k]) {
        if k >= 2 {
          assert u[k - 1] == v[k - 2] && u[k] == v[k - 1];
        }
      }
    }
    if 1 < j {
      assert LexLe(s[..j][j - 2], s[..j][j - 1]);
    }
  }

  lemma SinkDone(s: seq<string>, j: nat, i: nat)
    requires Sinking(s, j, i) && (j == 0 || LexLe(s[j - 1], s[j]))
    ensures Sorted(s[..i + 1])
  {
    var p := s[..i + 1];
    assert p[..j] == s[..j] && p[j + 1..] == s[j + 1..i + 1];
    SortedJoin(p, j);
  }

  /** Two sorted runs either side of position j, with s[j] fitting between them, make one
      sorted run. */
  lemma SortedJoin(s: seq<string>, j: nat)
    requires j < |s|
    requires Sorted(s[..j]) && Sorted(s[j + 1..])
    requires 0 < j ==> LexLe(s[j - 1], s[j])
    requires j + 1 < |s| ==> LexLe(s[j], s[j + 1])
    ensures Sorted(s)
  {
    forall k | 0 < k < |s| ensures LexLe(s[k - 1], s[k]) {
      if k < j {
        assert s[..j][k - 1] == s[k - 1] && s[..j][k] == s[k];
      } else if k > j + 1 {
        assert s[j + 1..][k - j - 2] == s[k - 1] && s[j + 1..][k - j - 1] == s[k];
      }
    }
  }

  // ---------------------------------------------------------------------------------------
  // shuffleOrder

  /** The seeded generator: rand.Seed(seed) followed by rand.Intn(i + 1) at step i, as a
      deterministic function of the seed and the step whose value is taken modulo i + 1. */
  function Draw(rng: (int, nat) -> nat, seed: int, i: nat): (r: nat)
    ensures r <= i
  {
    rng(seed, i) % (i + 1)
  }

  function SwapAt<T>(s: seq<T>, i: nat, j: nat): (r: seq<T>)
    requires i < |s| && j < |s|
    ensures |r| == |s| && multiset(r) == multiset(s)
    ensures r[i] == s[j] && r[j] == s[i]
    ensures forall k :: 0 <= k < |s| && k != i && k != j ==> r[k] == s[k]
  {
    s[i := s[j]][j := s[i]]
  }

  /** The steps i, i - 1, ..., 1 of the shuffle loop. */
  function ShuffleFrom<T>(s: seq<T>, i: int, rng: (int, nat) -> nat, seed: int): (r: seq<T>)
    requires i < |s|
    ensures |r| == |s| && multiset(r) == multiset(s)
    decreases if i <= 0 then 0 else i
  {
    if i < 1 then s
    else ShuffleFrom(SwapAt(s, i, Draw(rng, seed, i)), i - 1, rng, seed)
  }

  /** What shuffleOrder makes of s with the given seed. */
  function Shuffle<T>(s: seq<T>, rng: (int, nat) -> nat, seed: int): seq<T>
  {
    ShuffleFrom(s, |s| - 1, rng, seed)
  }

  /** The shuffle only moves entries around, and a list of at most one entry stays as it is. */
  lemma ShufflePermutes<T>(s: seq<T>, rng: (int, nat) -> nat, seed: int)
    ensures |Shuffle(s, rng, seed)| == |s| && multiset(Shuffle(s, rng, seed)) == multiset(s)
    ensures |s| <= 1 ==> Shuffle(s, rng, seed) == s
  {
  }

  /** The order depends on the generator only through its draws: two generators (or seeds)
      whose draws agree at every step give the same order, so the same seed always gives the
      same order. */
  lemma {:induction false} ShuffleFromDraws<T>(s: seq<T>, i: int, r1: (int, nat) -> nat, seed1: int,
                                              r2: (int, nat) -> nat, seed2: int)
    requires i < |s|
    requires forall k: nat :: 1 <= k <= i ==> Draw(r1, seed1, k) == Draw(r2, seed2, k)
    ensures ShuffleFrom(s, i, r1, seed1) == ShuffleFrom(s, i, r2, seed2)
    decreases if i <= 0 then 0 else i
  {
    if i >= 1 {
      var d := Draw(r1, seed1, i);
      assert d == Draw(r2, seed2, i);
      var t := SwapAt(s, i, d);
      assert ShuffleFrom(s, i, r1, seed1) == ShuffleFrom(t, i - 1, r1, seed1);
      assert ShuffleFrom(s, i, r2, seed2) == ShuffleFrom(t, i - 1, r2, seed2);
      ShuffleFromDraws(t, i - 1, r1, seed1, r2, seed2);
    }
  }

  lemma ShuffleDraws<T>(s: seq<T>, r1: (int, nat) -> nat, seed1: int, r2: (int, nat) -> nat, seed2: int)
    requires forall k: nat :: 1 <= k < |s| ==> Draw(r1, seed1, k) == Draw(r2, seed2, k)
    ensures Shuffle(s, r1, seed1) == Shuffle(s, r2, seed2)
  {
    ShuffleFromDraws(s, |s| - 1, r1, seed1, r2, seed2);
  }

  /** A generator whose draw at every step is the step itself swaps every entry with itself,
      so the list keeps its order. */
  lemma {:induction false} ShuffleFromIdentity<T>(s: seq<T>, i: int, rng: (int, nat) -> nat, seed: int)
    requires i < |s|
    requires forall k: nat :: 1 <= k <= i ==> Draw(rng, seed, k) == k
    ensures ShuffleFrom(s, i, rng, seed) == s
    decreases if i <= 0 then 0 else i
  {
    if i >= 1 {
      assert SwapAt(s, i, i) == s;
      ShuffleFromIdentity(s, i - 1, rng, seed);
    }
  }

  /** The parallel assignment a[i], a[j] = a[j], a[i]. */
  method Swap<T>(a: array<T>, i: nat, j: nat)
    requires i < a.Length && j < a.Length
    modifies a
    ensures a[..] == SwapAt(old(a[..]), i, j)
  {
    a[i], a[j] := a[j], a[i];
  }

  /** The order getTestScriptsWithOrder gives: sorted, then shuffled unless in order. */
  function Ordered(files: seq<string>, inOrder: bool, rng: (int, nat) -> nat, seed: int): seq<string>
  {
    if inOrder then SortStrings(files) else Shuffle(SortStrings(files), rng, seed)
  }

  /** The ordered list is a permutation of the discovered one, sorted when the run is in order,
      and a function of the seed's draws otherwise. */
  lemma OrderedPermutes(files: seq<string>, inOrder: bool, rng: (int, nat) -> nat, seed: int)
    ensures var o := Ordered(files, inOrder, rng, seed);
      && |o| == |files| && multiset(o) == multiset(files)
      && (inOrder ==> Sorted(o))
  {
  }
}
