/** An optional value: a JavaScript property or storage entry that may be absent. */
module Optional {
  datatype Option<+T> = None | Some(value: T)
}

/** Order-preserving selection from a list, the shape of JavaScript's `Array.prototype.filter`,
    which every list transform of the task list and the calendar is built from. */
module Seqs {

  /** `a` can be obtained from `b` by deleting elements: same elements, same relative order. */
  predicate IsSubsequence<T(==)>(a: seq<T>, b: seq<T>)
    decreases |b|
  {
    if a == [] then true
    else if b == [] then false
    else (a[0] == b[0] && IsSubsequence(a[1..], b[1..])) || IsSubsequence(a, b[1..])
  }

  /** The elements of `s` that satisfy `p`, in their original order. */
  function Filter<T(==,!new)>(s: seq<T>, p: T -> bool): (r: seq<T>)
    ensures |r| <= |s|
    ensures forall i :: 0 <= i < |r| ==> p(r[i])
  {
    if s == [] then []
    else if p(s[0]) then [s[0]] + Filter(s[1..], p) else Filter(s[1..], p)
  }

  /** Filtering keeps every element that passes with all its occurrences, and no other. */
  lemma {:induction false} FilterCounts<T(!new)>(s: seq<T>, p: T -> bool)
    ensures forall x :: multiset(Filter(s, p))[x] == if p(x) then multiset(s)[x] else 0
  {
    if s != [] {
      FilterCounts(s[1..], p);
      assert s == [s[0]] + s[1..];
    }
  }

  lemma {:induction false} FilterIsSubsequence<T(!new)>(s: seq<T>, p: T -> bool)
    ensures IsSubsequence(Filter(s, p), s)
  {
    if s != [] {
      FilterIsSubsequence(s[1..], p);
      if !p(s[0]) {
        SubsequenceOfTail(Filter(s, p), s);
      }
    }
  }

  /** A subsequence of the tail of `b` is a subsequence of `b`. */
  lemma {:induction false} SubsequenceOfTail<T(!new)>(a: seq<T>, b: seq<T>)
    requires b != [] && IsSubsequence(a, b[1..])
    ensures IsSubsequence(a, b)
  {
  }

  /** When every element passes, filtering changes nothing. */
  lemma {:induction false} FilterKeepsAll<T(!new)>(s: seq<T>, p: T -> bool)
    requires forall i :: 0 <= i < |s| ==> p(s[i])
    ensures Filter(s, p) == s
  {
    if s != [] {
      FilterKeepsAll(s[1..], p);
    }
  }

  lemma FilterIdempotent<T(!new)>(s: seq<T>, p: T -> bool)
    ensures Filter(Filter(s, p), p) == Filter(s, p)
  {
    FilterKeepsAll(Filter(s, p), p);
  }

  /** Filtering a concatenation filters each part. */
  lemma {:induction false} FilterConcat<T(!new)>(a: seq<T>, b: seq<T>, p: T -> bool)
    ensures Filter(a + b, p) == Filter(a, p) + Filter(b, p)
  {
    if a == [] {
      assert a + b == b;
    } else {
      assert (a + b)[1..] == a[1..] + b;
      FilterConcat(a[1..], b, p);
    }
  }

  /** Splitting a list by a predicate and its negation loses and invents nothing. */
  lemma FilterPartition<T(!new)>(s: seq<T>, p: T -> bool, q: T -> bool)
    requires forall x :: q(x) == !p(x)
    ensures multiset(Filter(s, p)) + multiset(Filter(s, q)) == multiset(s)
    ensures |Filter(s, p)| + |Filter(s, q)| == |s|
  {
    FilterCounts(s, p);
    FilterCounts(s, q);
    var lhs := multiset(Filter(s, p)) + multiset(Filter(s, q));
    assert forall x :: lhs[x] == multiset(s)[x];
    assert lhs == multiset(s);
    assert |lhs| == |multiset(s)|;
  }

  // ---------------------------------------------------------------------------------------
  // Stripping a run of elements from either end

  predicate All<T>(s: seq<T>, p: T -> bool) {
    forall k :: 0 <= k < |s| ==> p(s[k])
  }

  /** The length of the longest prefix of `s` whose elements satisfy `p`. */
  function LeadingRun<T>(s: seq<T>, p: T -> bool): (n: nat)
    ensures n <= |s|
    ensures forall k :: 0 <= k < n ==> p(s[k])
    ensures n == |s| || !p(s[n])
  {
    if |s| == 0 || !p(s[0]) then 0 else 1 + LeadingRun(s[1..], p)
  }

  /** The length of the longest suffix of `s` whose elements satisfy `p`. */
  function TrailingRun<T>(s: seq<T>, p: T -> bool): (n: nat)
    ensures n <= |s|
    ensures forall k :: |s| - n <= k < |s| ==> p(s[k])
    ensures n == |s| || !p(s[|s| - 1 - n])
  {
    if |s| == 0 || !p(s[|s| - 1]) then 0 else 1 + TrailingRun(s[..|s| - 1], p)
  }

  /** `s` without the runs of elements satisfying `p` at either end: the slice after the
      leading run, followed only by elements satisfying `p`, and empty exactly when every
      element satisfies `p`. */
  function Strip<T>(s: seq<T>, p: T -> bool): (r: seq<T>)
    ensures var i := LeadingRun(s, p);
      && i + |r| <= |s| && r == s[i..i + |r|]
      && (forall k :: 0 <= k < i ==> p(s[k]))
      && (forall k :: i + |r| <= k < |s| ==> p(s[k]))
    ensures |r| == 0 || (!p(r[0]) && !p(r[|r| - 1]))
    ensures |r| == 0 <==> All(s, p)
  {
    var i := LeadingRun(s, p);
    var j := |s| - TrailingRun(s, p);
    if i == |s| then []
    else
      s[i..j]
  }

  lemma StripIdempotent<T>(s: seq<T>, p: T -> bool)
    ensures Strip(Strip(s, p), p) == Strip(s, p)
  {
    var r := Strip(s, p);
    if |r| > 0 {
      assert LeadingRun(r, p) == 0;
      assert TrailingRun(r, p) == 0;
    }
  }
}
