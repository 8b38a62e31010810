/** Order-preserving selection and first-seen de-duplication over sequences:
    the list comprehensions `[x for x in s if p(x)]` and the key order of a
    Python dict that is filled left to right. */
module Sequences {

  /** `[x for x in s if p(x)]`. */
  function Filter<T>(s: seq<T>, p: T -> bool): (r: seq<T>)
    ensures |r| <= |s|
    ensures forall x :: x in r ==> x in s && p(x)
  {
    if s == [] then []
    else Filter(s[..|s| - 1], p) + (if p(s[|s| - 1]) then [s[|s| - 1]] else [])
  }

  /** `idx` picks, from `s`, the elements of `r` in order. */
  ghost predicate PicksFrom<T>(s: seq<T>, r: seq<T>, idx: seq<nat>) {
    |idx| == |r| && forall i :: 0 <= i < |idx| ==> idx[i] < |s| && r[i] == s[idx[i]]
  }

  ghost predicate Increasing(idx: seq<nat>) {
    forall i, j :: 0 <= i < j < |idx| ==> idx[i] < idx[j]
  }

  /** `idx` holds exactly the positions whose element satisfies `p`. */
  ghost predicate PositionsOf<T>(s: seq<T>, p: T -> bool, idx: seq<nat>) {
    forall k :: 0 <= k < |s| ==> (p(s[k]) <==> k in idx)
  }

  /** `idx` lists, in increasing order, exactly the positions of `s` whose
      element satisfies `p`, and `r` holds those elements in that order. */
  ghost predicate SelectsExactly<T>(s: seq<T>, p: T -> bool, r: seq<T>, idx: seq<nat>) {
    PicksFrom(s, r, idx) && Increasing(idx) && PositionsOf(s, p, idx)
  }

  /** The positions `Filter` keeps: the filtered sequence is the subsequence of
      `s` made of exactly the elements that satisfy `p`, in their order. */
  function FilterIndices<T>(s: seq<T>, p: T -> bool): (idx: seq<nat>)
    ensures SelectsExactly(s, p, Filter(s, p), idx)
  {
    if s == [] then []
    else
      var n := |s| - 1;
      var prev := FilterIndices(s[..n], p);
      var idx := prev + (if p(s[n]) then [n] else []);
      var r := Filter(s, p);
      assert r == Filter(s[..n], p) + (if p(s[n]) then [s[n]] else []);
      PicksFromExtend(s, Filter(s[..n], p), prev, if p(s[n]) then [s[n]] else [], if p(s[n]) then [n] else []);
      IncreasingExtend(prev, n, if p(s[n]) then [n] else []);
      PositionsOfExtend(s, p, prev, idx);
      idx
  }

  lemma PicksFromExtend<T>(s: seq<T>, r: seq<T>, prev: seq<nat>, e: seq<T>, ei: seq<nat>)
    requires s != [] && PicksFrom(s[..|s| - 1], r, prev)
    requires (e == [] && ei == []) || (e == [s[|s| - 1]] && ei == [|s| - 1])
    ensures PicksFrom(s, r + e, prev + ei)
  {
    var n := |s| - 1;
    forall i | 0 <= i < |prev| ensures prev[i] < |s| && r[i] == s[prev[i]] {
      assert s[..n][prev[i]] == s[prev[i]];
    }
  }

  lemma IncreasingExtend(prev: seq<nat>, n: nat, ei: seq<nat>)
    requires Increasing(prev) && forall i :: 0 <= i < |prev| ==> prev[i] < n
    requires ei == [] || ei == [n]
    ensures Increasing(prev + ei)
  {
  }

  lemma PositionsOfExtend<T>(s: seq<T>, p: T -> bool, prev: seq<nat>, idx: seq<nat>)
    requires s != [] && PositionsOf(s[..|s| - 1], p, prev)
    requires forall i :: 0 <= i < |prev| ==> prev[i] < |s| - 1
    requires idx == prev + (if p(s[|s| - 1]) then [|s| - 1] else [])
    ensures PositionsOf(s, p, idx)
  {
    var n := |s| - 1;
    forall k | 0 <= k < |s| ensures p(s[k]) <==> k in idx {
      if k < n {
        assert s[..n][k] == s[k];
      }
    }
  }

  /** An element is kept exactly when it is in `s` and satisfies `p`. */
  lemma {:induction false} FilterMembership<T>(s: seq<T>, p: T -> bool, x: T)
    ensures x in Filter(s, p) <==> x in s && p(x)
  {
    if s != [] {
      var n := |s| - 1;
      FilterMembership(s[..n], p, x);
      assert s == s[..n] + [s[n]];
    }
  }

  /** Filtering a concatenation filters each part. */
  lemma {:induction false} FilterConcat<T>(a: seq<T>, b: seq<T>, p: T -> bool)
    ensures Filter(a + b, p) == Filter(a, p) + Filter(b, p)
  {
    if b != [] {
      var n := |b| - 1;
      assert (a + b)[..|a + b| - 1] == a + b[..n];
      FilterConcat(a, b[..n], p);
    } else {
      assert a + b == a;
    }
  }

  predicate NoDuplicates<T(==)>(s: seq<T>) {
    forall i, j :: 0 <= i < j < |s| ==> s[i] != s[j]
  }

  /** The elements of `s` in the order of their first occurrence, each once:
      the key order of a dict assigned `s[0]`, `s[1]`, ... in turn. */
  function Distinct<T(==)>(s: seq<T>): (r: seq<T>)
    ensures forall x :: x in r ==> x in s
    ensures forall x :: x in s ==> x in r
    ensures NoDuplicates(r)
  {
    if s == [] then []
    else
      var d := Distinct(s[..|s| - 1]);
      assert s == s[..|s| - 1] + [s[|s| - 1]];
      if s[|s| - 1] in d then d else d + [s[|s| - 1]]
  }

  /** A prefix one element longer. */
  lemma PrefixSnoc<T>(s: seq<T>, i: nat)
    requires i < |s|
    ensures s[..i + 1] == s[..i] + [s[i]]
  {
    assert (s[..i] + [s[i]])[i] == s[i];
  }

  /** One more element of `s` extends the filtered prefix by it or by nothing. */
  lemma FilterSnoc<T>(s: seq<T>, i: nat, p: T -> bool)
    requires i < |s|
    ensures Filter(s[..i + 1], p) == Filter(s[..i], p) + (if p(s[i]) then [s[i]] else [])
  {
    assert s[..i + 1][..i] == s[..i];
  }

  /** The first `h` elements of the slice from `lo` are the slice of length
      `h` from `lo`. */
  lemma SliceTake<T>(s: seq<T>, lo: nat, hi: nat, h: nat)
    requires lo + h <= hi <= |s|
    ensures s[lo..hi][..h] == s[lo..lo + h]
  {
  }

  lemma SplitAround<T>(s: seq<T>, i: nat)
    requires i < |s|
    ensures s == s[..i] + [s[i]] + s[i + 1..]
  {
  }

  /** Appending an element adds it to the distinct elements exactly when it
      is new. */
  lemma DistinctSnoc<T>(s: seq<T>, x: T)
    ensures Distinct(s + [x]) == if x in s then Distinct(s) else Distinct(s) + [x]
  {
    assert (s + [x])[..|s + [x]| - 1] == s;
  }

  /** The position of the first occurrence of `x` in `s`. */
  function FirstIndex<T(==)>(s: seq<T>, x: T): (k: nat)
    requires x in s
    ensures k < |s| && s[k] == x
    ensures forall j :: 0 <= j < k ==> s[j] != x
  {
    if s[0] == x then 0 else 1 + FirstIndex(s[1..], x)
  }

  /** A position holding `x` with no `x` before it is the first index. */
  lemma {:induction false} FirstIndexUnique<T>(s: seq<T>, x: T, k: nat)
    requires k < |s| && s[k] == x
    requires forall j :: 0 <= j < k ==> s[j] != x
    ensures FirstIndex(s, x) == k
  {
    if k > 0 {
      assert s[0] != x;
      assert forall j :: 0 <= j < k - 1 ==> s[1..][j] == s[j + 1];
      FirstIndexUnique(s[1..], x, k - 1);
    }
  }

  lemma FirstIndexOfPrefix<T>(s: seq<T>, n: nat, x: T)
    requires n <= |s| && x in s[..n]
    ensures FirstIndex(s, x) == FirstIndex(s[..n], x)
  {
    var k := FirstIndex(s[..n], x);
    assert forall j :: 0 <= j < k ==> s[j] == s[..n][j];
    FirstIndexUnique(s, x, k);
  }

  /** `Distinct` lists the elements in the order in which they are first seen. */
  lemma {:induction false} DistinctFirstSeenOrder<T>(s: seq<T>)
    ensures forall i, j :: 0 <= i < j < |Distinct(s)| ==>
      FirstIndex(s, Distinct(s)[i]) < FirstIndex(s, Distinct(s)[j])
  {
    if s != [] {
      var n := |s| - 1;
      var d := Distinct(s[..n]);
      DistinctFirstSeenOrder(s[..n]);
      forall x | x in d ensures FirstIndex(s, x) == FirstIndex(s[..n], x) && FirstIndex(s, x) < n {
        FirstIndexOfPrefix(s, n, x);
      }
      if s[n] !in d {
        assert s[n] !in s[..n];
        assert FirstIndex(s, s[n]) == n;
      }
    }
  }

  /** A sequence without repetitions has as many elements as its set. */
  lemma {:induction false} NoDuplicatesCardinality<T>(s: seq<T>)
    requires NoDuplicates(s)
    ensures |set x | x in s| == |s|
  {
    if s != [] {
      var n := |s| - 1;
      NoDuplicatesCardinality(s[..n]);
      assert (set x | x in s) == (set x | x in s[..n]) + {s[n]};
      assert s[n] !in s[..n];
    }
  }

  /** So `Distinct(s)` has one element per distinct value of `s`. */
  lemma DistinctCount<T>(s: seq<T>)
    ensures |Distinct(s)| == |set x | x in s|
  {
    NoDuplicatesCardinality(Distinct(s));
    assert (set x | x in Distinct(s)) == (set x | x in s);
  }
}
