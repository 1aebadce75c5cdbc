/**
  Sequence vocabulary shared by the pipeline: duplicate-freedom, order-preserving
  filtering, first-occurrence de-duplication and subsequences.

  Both `Filter` and `Dedup` are defined by peeling off the LAST element, so that
  a loop which walks a list from the front and appends to a result list keeps the
  invariant `result == Filter(xs[..i], p)` (or `Dedup(xs[..i])`) step by step.
*/
module Seqs {
  import opened Wrappers

  /** No element occurs twice. */
  ghost predicate NoDuplicates<T>(s: seq<T>) {
    forall i, j :: 0 <= i < j < |s| ==> s[i] != s[j]
  }

  /** `idx` lists, in increasing order, the positions of `b` that spell out `a`. */
  ghost predicate Embeds<T>(idx: seq<nat>, a: seq<T>, b: seq<T>) {
    && |idx| == |a|
    && (forall k :: 0 <= k < |idx| ==> idx[k] < |b| && a[k] == b[idx[k]])
    && (forall k, l :: 0 <= k < l < |idx| ==> idx[k] < idx[l])
  }

  /** `a` is obtained from `b` by deleting elements, keeping the order of the rest. */
  ghost predicate IsSubsequence<T>(a: seq<T>, b: seq<T>) {
    exists idx :: Embeds(idx, a, b)
  }

  /** The elements of `xs` that satisfy `p`, in their original order. */
  function Filter<T(!new)>(xs: seq<T>, p: T -> bool): (r: seq<T>)
    ensures |r| <= |xs|
  {
    if xs == [] then []
    else
      var init := Filter(xs[..|xs| - 1], p);
      if p(xs[|xs| - 1]) then init + [xs[|xs| - 1]] else init
  }

  /** A filter keeps exactly the elements that pass the test. */
  lemma {:induction false} FilterMembership<T(!new)>(xs: seq<T>, p: T -> bool)
    ensures forall x :: x in Filter(xs, p) <==> x in xs && p(x)
  {
    if xs != [] {
      var n := |xs| - 1;
      FilterMembership(xs[..n], p);
      assert forall x :: x in xs <==> x in xs[..n] || x == xs[n];
    }
  }

  /** Index of the first occurrence of `x` in `xs`. */
  function FirstIndex<T(==)>(xs: seq<T>, x: T): (i: nat)
    requires x in xs
    ensures i < |xs| && xs[i] == x
    ensures forall k :: 0 <= k < i ==> xs[k] != x
  {
    if xs[0] == x then 0 else 1 + FirstIndex(xs[1..], x)
  }

  /**
    The elements of `xs` without repetitions, each kept at its first occurrence:
    the list a `seen` set and an output list produce when `xs` is walked from the
    front and an element is appended only when it has not been seen yet.
  */
  function Dedup<T(==,!new)>(xs: seq<T>): (r: seq<T>)
    ensures NoDuplicates(r)
    ensures forall x :: x in r <==> x in xs
  {
    if xs == [] then []
    else
      var init := Dedup(xs[..|xs| - 1]);
      assert forall x :: x in xs <==> x in xs[..|xs| - 1] || x == xs[|xs| - 1];
      if xs[|xs| - 1] in init then init else init + [xs[|xs| - 1]]
  }

  /** Filtering keeps a duplicate-free list duplicate-free. */
  lemma {:induction false} FilterNoDuplicates<T(!new)>(xs: seq<T>, p: T -> bool)
    requires NoDuplicates(xs)
    ensures NoDuplicates(Filter(xs, p))
  {
    if xs != [] {
      var init := xs[..|xs| - 1];
      assert NoDuplicates(init);
      FilterNoDuplicates(init, p);
      FilterMembership(init, p);
      assert xs[|xs| - 1] !in init;
    }
  }

  /** The result of a filter is a subsequence of its input: order is preserved. */
  lemma {:induction false} FilterIsSubsequence<T(!new)>(xs: seq<T>, p: T -> bool)
    ensures IsSubsequence(Filter(xs, p), xs)
  {
    var idx := FilterPositions(xs, p);
  }

  /** The positions of `xs` that `Filter` keeps, as a witness for `IsSubsequence`. */
  lemma {:induction false} FilterPositions<T(!new)>(xs: seq<T>, p: T -> bool) returns (idx: seq<nat>)
    ensures Embeds(idx, Filter(xs, p), xs)
  {
    if xs == [] {
      idx := [];
    } else {
      var n := |xs| - 1;
      var init := FilterPositions(xs[..n], p);
      if p(xs[n]) {
        idx := init + [n];
      } else {
        idx := init;
      }
    }
  }

  /** The first occurrence of an element of a prefix lies in that prefix. */
  lemma {:induction false} FirstIndexOfPrefix<T>(xs: seq<T>, n: nat, x: T)
    requires n <= |xs| && x in xs[..n]
    ensures FirstIndex(xs, x) == FirstIndex(xs[..n], x)
  {
    if xs[0] != x {
      assert xs[1..][..n - 1] == xs[..n][1..];
      FirstIndexOfPrefix(xs[1..], n - 1, x);
    }
  }

  /**
    `Dedup` lists the distinct elements in the order of their first occurrences:
    an element listed earlier first occurs earlier in the input.
  */
  lemma {:induction false} DedupFirstOccurrenceOrder<T(!new)>(xs: seq<T>)
    ensures forall i, j :: 0 <= i < j < |Dedup(xs)| ==>
              FirstIndex(xs, Dedup(xs)[i]) < FirstIndex(xs, Dedup(xs)[j])
  {
    if xs != [] {
      var n := |xs| - 1;
      var init := Dedup(xs[..n]);
      DedupFirstOccurrenceOrder(xs[..n]);
      forall y | y in init
        ensures FirstIndex(xs, y) == FirstIndex(xs[..n], y) < n
      {
        FirstIndexOfPrefix(xs, n, y);
      }
      if xs[n] !in init {
        assert xs[n] !in xs[..n];
        assert FirstIndex(xs, xs[n]) == n;
      }
    }
  }

  /** `Dedup` is itself a subsequence of its input. */
  lemma {:induction false} DedupIsSubsequence<T(!new)>(xs: seq<T>)
    ensures IsSubsequence(Dedup(xs), xs)
  {
    var idx := DedupPositions(xs);
  }

  lemma {:induction false} DedupPositions<T(!new)>(xs: seq<T>) returns (idx: seq<nat>)
    ensures Embeds(idx, Dedup(xs), xs)
  {
    if xs == [] {
      idx := [];
    } else {
      var n := |xs| - 1;
      var init := DedupPositions(xs[..n]);
      if xs[n] in Dedup(xs[..n]) {
        idx := init;
      } else {
        idx := init + [n];
      }
    }
  }

  /** A list without repetitions is its own de-duplication. */
  lemma {:induction false} DedupOfDistinct<T(!new)>(xs: seq<T>)
    requires NoDuplicates(xs)
    ensures Dedup(xs) == xs
  {
    if xs != [] {
      var n := |xs| - 1;
      assert NoDuplicates(xs[..n]);
      DedupOfDistinct(xs[..n]);
      assert xs[n] !in xs[..n];
      assert xs[..n] + [xs[n]] == xs;
    }
  }

  /** `f` applied to each element of `xs`, in order, keeping only the `Some` results. */
  function FilterMap<A, B>(xs: seq<A>, f: A -> Option<B>): seq<B> {
    if xs == [] then []
    else
      var n := |xs| - 1;
      var init := FilterMap(xs[..n], f);
      match f(xs[n])
      case None => init
      case Some(y) => init + [y]
  }

  /** A value is kept exactly when some element maps to it. */
  lemma {:induction false} FilterMapMembership<A, B>(xs: seq<A>, f: A -> Option<B>, y: B)
    ensures y in FilterMap(xs, f) <==> exists i :: 0 <= i < |xs| && f(xs[i]) == Some(y)
  {
    if xs != [] {
      var n := |xs| - 1;
      FilterMapMembership(xs[..n], f, y);
      if exists i :: 0 <= i < n && f(xs[..n][i]) == Some(y) {
        var i :| 0 <= i < n && f(xs[..n][i]) == Some(y);
        assert xs[i] == xs[..n][i];
      }
      if exists i :: 0 <= i < |xs| && f(xs[i]) == Some(y) {
        var i :| 0 <= i < |xs| && f(xs[i]) == Some(y);
        if i < n {
          assert xs[..n][i] == xs[i];
        }
      }
    }
  }

  /** Appending `x` to the input appends it to the de-duplicated list exactly when it is new. */
  lemma DedupStep<T(!new)>(xs: seq<T>, x: T)
    ensures Dedup(xs + [x]) == if x in Dedup(xs) then Dedup(xs) else Dedup(xs) + [x]
  {
    assert (xs + [x])[..|xs|] == xs;
  }

  /** Mapping one more element of a prefix. */
  lemma FilterMapPrefixStep<A, B>(xs: seq<A>, i: nat, f: A -> Option<B>)
    requires i < |xs|
    ensures FilterMap(xs[..i + 1], f) == match f(xs[i]) case None => FilterMap(xs[..i], f) case Some(y) => FilterMap(xs[..i], f) + [y]
  {
    assert xs[..i + 1][..i] == xs[..i];
  }

  /** Mapping a concatenation maps each part. */
  lemma {:induction false} FilterMapAppend<A, B>(a: seq<A>, b: seq<A>, f: A -> Option<B>)
    ensures FilterMap(a + b, f) == FilterMap(a, f) + FilterMap(b, f)
    decreases |b|
  {
    if b != [] {
      var n := |b| - 1;
      assert (a + b)[..|a| + n] == a + b[..n];
      assert (a + b)[|a| + n] == b[n];
      FilterMapAppend(a, b[..n], f);
    } else {
      assert a + b == a;
    }
  }

  /** Two tests that agree on the elements of `xs` keep the same elements. */
  lemma {:induction false} FilterCongruent<T(!new)>(xs: seq<T>, p: T -> bool, q: T -> bool)
    requires forall i :: 0 <= i < |xs| ==> p(xs[i]) == q(xs[i])
    ensures Filter(xs, p) == Filter(xs, q)
  {
    if xs != [] {
      FilterCongruent(xs[..|xs| - 1], p, q);
    }
  }

  /** Filtering a list extended by one element extends the result when the element passes. */
  lemma FilterStep<T(!new)>(xs: seq<T>, x: T, p: T -> bool)
    ensures Filter(xs + [x], p) == if p(x) then Filter(xs, p) + [x] else Filter(xs, p)
  {
    assert (xs + [x])[..|xs|] == xs;
  }

  /** Filtering one more element of a prefix. */
  lemma FilterPrefixStep<T(!new)>(xs: seq<T>, i: nat, p: T -> bool)
    requires i < |xs|
    ensures Filter(xs[..i + 1], p) == if p(xs[i]) then Filter(xs[..i], p) + [xs[i]] else Filter(xs[..i], p)
  {
    assert xs[..i + 1][..i] == xs[..i];
  }

  /** A test every element passes keeps the whole list. */
  lemma {:induction false} FilterAll<T(!new)>(xs: seq<T>, p: T -> bool)
    requires forall i :: 0 <= i < |xs| ==> p(xs[i])
    ensures Filter(xs, p) == xs
  {
    if xs != [] {
      var n := |xs| - 1;
      FilterAll(xs[..n], p);
      assert xs[..n] + [xs[n]] == xs;
    }
  }
}
