/** Longest common prefixes of sequences, shared by path relativisation and the common root. */
module Seqs {

  /** The longest common prefix of two sequences. */
  function Lcp<T(==)>(a: seq<T>, b: seq<T>): (r: seq<T>)
    ensures r <= a && r <= b
    ensures |r| == |a| || |r| == |b| || a[|r|] != b[|r|]
    decreases |a|
  {
    if |a| == 0 || |b| == 0 || a[0] != b[0] then []
    else [a[0]] + Lcp(a[1..], b[1..])
  }

  /** The longest prefix shared by every sequence of a non-empty list. */
  function CommonPrefix<T(==)>(ss: seq<seq<T>>): (r: seq<T>)
    requires |ss| > 0
    decreases |ss|
  {
    if |ss| == 1 then ss[0] else Lcp(ss[0], CommonPrefix(ss[1..]))
  }

  /** Every sequence of the list is at least k long and agrees with the first one below k. */
  predicate AgreeBelow<T(==)>(ss: seq<seq<T>>, k: nat)
  {
    && |ss| > 0
    && (forall j :: 0 <= j < |ss| ==> k <= |ss[j]|)
    && (forall j, i :: 0 <= j < |ss| && 0 <= i < k ==> ss[j][i] == ss[0][i])
  }

  /** Position k is where a left-to-right scan of the list stops: all agree below k, and at k
      some sequence has ended or differs from the first one. */
  predicate StopsAt<T(==)>(ss: seq<seq<T>>, k: nat)
  {
    AgreeBelow(ss, k) &&
    exists j :: 0 <= j < |ss| && (k >= |ss[j]| || (k < |ss[0]| && ss[j][k] != ss[0][k]))
  }

  lemma {:induction false} CommonPrefixOfAll<T>(ss: seq<seq<T>>)
    requires |ss| > 0
    ensures forall j :: 0 <= j < |ss| ==> CommonPrefix(ss) <= ss[j]
    decreases |ss|
  {
    if |ss| > 1 {
      CommonPrefixOfAll(ss[1..]);
      forall j | 0 <= j < |ss| ensures CommonPrefix(ss) <= ss[j] {
        if j > 0 { assert ss[j] == ss[1..][j - 1]; }
      }
    }
  }

  /** The common prefix ends exactly where a scan of the list stops. */
  lemma {:induction false} CommonPrefixStops<T>(ss: seq<seq<T>>)
    requires |ss| > 0
    ensures StopsAt(ss, |CommonPrefix(ss)|)
    decreases |ss|
  {
    CommonPrefixOfAll(ss);
    var c := CommonPrefix(ss);
    assert AgreeBelow(ss, |c|) by {
      forall j, i | 0 <= j < |ss| && 0 <= i < |c| ensures ss[j][i] == ss[0][i] {
        assert c <= ss[j] && c <= ss[0];
        assert ss[j][i] == c[i] == ss[0][i];
      }
    }
    if |ss| == 1 {
      assert |c| >= |ss[0]|;
    } else {
      var rest := CommonPrefix(ss[1..]);
      CommonPrefixStops(ss[1..]);
      var j' :| 0 <= j' < |ss[1..]| && (|rest| >= |ss[1..][j']| || (|rest| < |ss[1..][0]| && ss[1..][j'][|rest|] != ss[1..][0][|rest|]));
      if |c| == |ss[0]| {
        assert |c| >= |ss[0]|;
      } else if |c| == |rest| {
        // the rest of the list already stops at |rest|
        if |rest| >= |ss[1..][j']| {
          assert |c| >= |ss[1 + j']|;
        } else if ss[0][|c|] != ss[1][|c|] {
          assert 1 < |ss| && |c| < |ss[0]| && ss[1][|c|] != ss[0][|c|];
        } else {
          assert ss[1..][j'][|rest|] != ss[1..][0][|rest|];
          assert ss[1 + j'][|c|] != ss[0][|c|];
        }
      } else {
        assert ss[0][|c|] != rest[|c|];
        assert rest <= ss[1];
        assert ss[1][|c|] != ss[0][|c|];
      }
    }
  }

  /** A scan that stops at k1 never agrees beyond k1. */
  lemma AgreeBelowStop<T>(ss: seq<seq<T>>, k1: nat, k2: nat)
    requires StopsAt(ss, k1) && AgreeBelow(ss, k2)
    ensures k2 <= k1
  {
  }

  /** A scan stops at only one place. */
  lemma StopsAtUnique<T>(ss: seq<seq<T>>, k1: nat, k2: nat)
    requires StopsAt(ss, k1) && StopsAt(ss, k2)
    ensures k1 == k2
  {
    AgreeBelowStop(ss, k1, k2);
    AgreeBelowStop(ss, k2, k1);
  }

  /** The common prefix is the longest sequence that is a prefix of every member. */
  lemma CommonPrefixLongest<T>(ss: seq<seq<T>>, p: seq<T>)
    requires |ss| > 0
    requires forall j :: 0 <= j < |ss| ==> p <= ss[j]
    ensures p <= CommonPrefix(ss)
  {
    CommonPrefixOfAll(ss);
    CommonPrefixStops(ss);
    var c := CommonPrefix(ss);
    assert c <= ss[0] && p <= ss[0];
    assert |p| <= |c|;
    assert forall i :: 0 <= i < |p| ==> p[i] == ss[0][i] == c[i];
  }

  /** Every member that is a prefix of all the others is the common prefix. */
  lemma CommonPrefixOfAncestor<T>(ss: seq<seq<T>>, k: nat)
    requires k < |ss|
    requires forall j :: 0 <= j < |ss| ==> ss[k] <= ss[j]
    ensures CommonPrefix(ss) == ss[k]
  {
    CommonPrefixOfAll(ss);
    CommonPrefixLongest(ss, ss[k]);
  }

  // ---------------------------------------------------------------------------------------
  // Concatenation, stated generically so that no element type's equality is unfolded

  lemma AppendAssoc<T>(a: seq<T>, b: seq<T>, c: seq<T>)
    ensures a + (b + c) == (a + b) + c
  {
  }

  lemma AppendHead<T>(t: seq<T>, u: seq<T>)
    requires |t| > 0
    ensures (t + u)[0] == t[0] && (t + u)[1..] == t[1..] + u
  {
  }

  /** A list made by applying f to each entry of a + b is the lists made of a and of b,
      concatenated. */
  lemma MapAppend<A, B>(f: A -> B, a: seq<A>, b: seq<A>, fa: seq<B>, fb: seq<B>, fab: seq<B>)
    requires |fa| == |a| && forall k :: 0 <= k < |a| ==> fa[k] == f(a[k])
    requires |fb| == |b| && forall k :: 0 <= k < |b| ==> fb[k] == f(b[k])
    requires |fab| == |a + b| && forall k :: 0 <= k < |a + b| ==> fab[k] == f((a + b)[k])
    ensures fab == fa + fb
  {
    forall k | 0 <= k < |fab| ensures fab[k] == (fa + fb)[k] {
      if k < |a| {
        assert (a + b)[k] == a[k];
      } else {
        assert (a + b)[k] == b[k - |a|];
      }
    }
  }

  lemma AppendInit<T>(a: seq<T>, b: seq<T>)
    requires |b| > 0
    ensures (a + b)[..|a + b| - 1] == a + b[..|b| - 1] && (a + b)[|a + b| - 1] == b[|b| - 1]
  {
  }

  lemma PrefixTake<T>(p: seq<T>, s: seq<T>)
    requires p <= s
    ensures s[..|p|] == p
  {
  }

  lemma TakeDrop<T>(s: seq<T>, c: nat)
    requires c <= |s|
    ensures s[..c] + s[c..] == s
  {
  }

  lemma UpdateSplit<T>(s: seq<T>, i: nat, v: T)
    requires i < |s|
    ensures s[i := v][..i + 1] == s[..i] + [v] && s[i := v][i + 1..] == s[i + 1..]
  {
  }

  // ---------------------------------------------------------------------------------------
  // Subsequences

  /** a is b with some entries left out, the rest in the same order. */
  predicate SubsequenceOf<T(==)>(a: seq<T>, b: seq<T>)
    decreases |b|
  {
    if a == [] then true
    else if b == [] then false
    else if a[|a| - 1] == b[|b| - 1] then SubsequenceOf(a[..|a| - 1], b[..|b| - 1])
    else SubsequenceOf(a, b[..|b| - 1])
  }

  lemma {:induction false} SubsequenceSnoc<T>(a: seq<T>, b: seq<T>, x: T, keep: bool)
    requires SubsequenceOf(a, b)
    ensures SubsequenceOf(a + (if keep then [x] else []), b + [x])
    decreases |b|
  {
    var a' := a + (if keep then [x] else []);
    var b' := b + [x];
    assert b'[..|b'| - 1] == b;
    if keep {
      assert a'[..|a'| - 1] == a;
    } else {
      assert a' == a;
      if a != [] && a[|a| - 1] == x {
        // The last entry of a is matched against x; the rest of a must then sit in b.
        SubsequenceWeaken(a, b);
      }
    }
  }

  lemma {:induction false} SubsequenceWeaken<T>(a: seq<T>, b: seq<T>)
    requires a != [] && SubsequenceOf(a, b)
    ensures SubsequenceOf(a[..|a| - 1], b)
    decreases |b|, 1
  {
    var init := a[..|a| - 1];
    if a[|a| - 1] == b[|b| - 1] {
      SubsequenceDropLast(init, b);
    } else {
      SubsequenceWeaken(a, b[..|b| - 1]);
      SubsequenceDropLast(init, b);
    }
  }

  lemma {:induction false} SubsequenceDropLast<T>(a: seq<T>, b: seq<T>)
    requires b != [] && SubsequenceOf(a, b[..|b| - 1])
    ensures SubsequenceOf(a, b)
    decreases |b|, 0
  {
    if a != [] && a[|a| - 1] == b[|b| - 1] {
      SubsequenceWeaken(a, b[..|b| - 1]);
    }
  }
}
