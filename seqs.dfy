/**
 * Order-preserving filtering of sequences, the model of JavaScript's
 * `Array.prototype.filter` with a side-effect-free callback.
 */
module Seqs {

  /** `t` can be obtained from `s` by deleting elements, without reordering. */
  ghost predicate IsSubsequence<T(!new)>(t: seq<T>, s: seq<T>)
    decreases |s|
  {
    if t == [] then true
    else if s == [] then false
    else if t[0] == s[0] then IsSubsequence(t[1..], s[1..])
    else IsSubsequence(t, s[1..])
  }

  /** The elements of `s` that satisfy `keep`, in the order they have in `s`. */
  function Filter<T(==,!new)>(s: seq<T>, keep: T -> bool): (r: seq<T>)
    ensures |r| <= |s|
    ensures forall y :: y in r <==> y in s && keep(y)
  {
    if s == [] then []
    else if keep(s[0]) then [s[0]] + Filter(s[1..], keep)
    else Filter(s[1..], keep)
  }

  /** Every kept element keeps its multiplicity; every other one is gone. */
  lemma {:induction false} FilterCount<T(!new)>(s: seq<T>, keep: T -> bool, y: T)
    ensures multiset(Filter(s, keep))[y] == if keep(y) then multiset(s)[y] else 0
  {
    if s != [] {
      FilterCount(s[1..], keep, y);
      assert s == [s[0]] + s[1..];
      FilterUnfold(s, keep);
    }
  }

  /** The filter only deletes elements: what it keeps stays in order. */
  lemma {:induction false} FilterIsSubsequence<T(!new)>(s: seq<T>, keep: T -> bool)
    ensures IsSubsequence(Filter(s, keep), s)
  {
    if s != [] {
      var rest := Filter(s[1..], keep);
      FilterIsSubsequence(s[1..], keep);
      if !keep(s[0]) && rest != [] {
        assert rest[0] in rest;
      }
    }
  }

  /** Filtering distributes over concatenation: the two halves are filtered independently. */
  lemma {:induction false} FilterConcat<T(!new)>(a: seq<T>, b: seq<T>, keep: T -> bool)
    ensures Filter(a + b, keep) == Filter(a, keep) + Filter(b, keep)
  {
    if a == [] {
      assert a + b == b;
    } else {
      var ab := a + b;
      assert ab != [] && ab[0] == a[0] && ab[1..] == a[1..] + b;
      FilterUnfold(ab, keep);
      FilterUnfold(a, keep);
      FilterConcat(a[1..], b, keep);
    }
  }

  /** One step of the filter: the head, if kept, followed by the filtered tail. */
  lemma FilterUnfold<T(!new)>(s: seq<T>, keep: T -> bool)
    requires s != []
    ensures Filter(s, keep) == (if keep(s[0]) then [s[0]] else []) + Filter(s[1..], keep)
  {
  }

  /** A filter that keeps every element of `s` returns `s` unchanged. */
  lemma {:induction false} FilterKeepsAll<T(!new)>(s: seq<T>, keep: T -> bool)
    requires forall y :: y in s ==> keep(y)
    ensures Filter(s, keep) == s
  {
    if s != [] {
      assert forall y :: y in s[1..] ==> y in s;
      FilterKeepsAll(s[1..], keep);
    }
  }

  /** The result depends only on what `keep` says about the elements of `s`. */
  lemma {:induction false} FilterCongruent<T(!new)>(s: seq<T>, keep1: T -> bool, keep2: T -> bool)
    requires forall y :: y in s ==> keep1(y) == keep2(y)
    ensures Filter(s, keep1) == Filter(s, keep2)
  {
    if s != [] {
      assert forall y :: y in s[1..] ==> y in s;
      FilterCongruent(s[1..], keep1, keep2);
    }
  }

  /** No element occurs twice. */
  ghost predicate NoDuplicates<T(!new)>(s: seq<T>) {
    forall i, j :: 0 <= i < j < |s| ==> s[i] != s[j]
  }

  /** A duplicate-free sequence is its head followed by a duplicate-free tail without the head. */
  lemma NoDuplicatesUncons<T(!new)>(s: seq<T>)
    requires NoDuplicates(s) && s != []
    ensures s[0] !in s[1..] && NoDuplicates(s[1..])
  {
    forall k | 0 <= k < |s[1..]| ensures s[1..][k] != s[0] {
      assert s[1..][k] == s[k + 1];
    }
  }

  /** Putting a new element in front of a duplicate-free sequence keeps it duplicate-free. */
  lemma NoDuplicatesCons<T(!new)>(x: T, t: seq<T>)
    requires x !in t && NoDuplicates(t)
    ensures NoDuplicates([x] + t)
  {
    var s := [x] + t;
    forall i, j | 0 <= i < j < |s| ensures s[i] != s[j] {
      assert s[j] == t[j - 1];
      if i > 0 { assert s[i] == t[i - 1]; }
    }
  }

  /** In a duplicate-free sequence every member occurs exactly once. */
  lemma {:induction false} NoDuplicatesCount<T(!new)>(s: seq<T>, x: T)
    requires NoDuplicates(s) && x in s
    ensures multiset(s)[x] == 1
  {
    assert s == [s[0]] + s[1..];
    NoDuplicatesUncons(s);
    if s[0] != x {
      NoDuplicatesCount(s[1..], x);
    }
  }

  /** Filtering a duplicate-free sequence leaves it duplicate-free. */
  lemma {:induction false} FilterNoDuplicates<T(!new)>(s: seq<T>, keep: T -> bool)
    requires NoDuplicates(s)
    ensures NoDuplicates(Filter(s, keep))
  {
    if s != [] {
      NoDuplicatesUncons(s);
      FilterNoDuplicates(s[1..], keep);
      if keep(s[0]) {
        NoDuplicatesCons(s[0], Filter(s[1..], keep));
      }
    }
  }
}
