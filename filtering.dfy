/**
 * Row selection by a boolean mask, the shape of `frame[mask]` in the analysis
 * script: the rows for which the mask holds, in their original order, unchanged.
 * Both the invoice cleaning and the strong-rule filter are instances of it.
 */
module Filtering {

  /** The elements of `s` that satisfy `keep`, in the order they occur in `s`. */
  function Filter<T(!new)>(keep: T -> bool, s: seq<T>): (r: seq<T>)
    ensures |r| <= |s|
    ensures forall x :: x in r <==> x in s && keep(x)
    decreases |s|
  {
    if s == [] then []
    else (if keep(s[0]) then [s[0]] else []) + Filter(keep, s[1..])
  }

  /** `a` can be obtained from `b` by deleting elements (greedy matching). */
  ghost predicate IsSubsequence<T>(a: seq<T>, b: seq<T>)
    decreases |b|
  {
    if a == [] then true
    else if b == [] then false
    else if a[0] == b[0] then IsSubsequence(a[1..], b[1..])
    else IsSubsequence(a, b[1..])
  }

  /** Selecting by a mask keeps the surviving elements in their original order. */
  lemma {:induction false} FilterIsSubsequence<T(!new)>(keep: T -> bool, s: seq<T>)
    ensures IsSubsequence(Filter(keep, s), s)
    decreases |s|
  {
    if s != [] {
      FilterIsSubsequence(keep, s[1..]);
      var rest := Filter(keep, s[1..]);
      if keep(s[0]) {
        assert Filter(keep, s) == [s[0]] + rest;
        assert ([s[0]] + rest)[1..] == rest;
      } else {
        assert Filter(keep, s) == rest;
        SubsequenceOfTail(rest, s);
      }
    }
  }

  /** A subsequence of the tail of `b` is a subsequence of `b`. */
  lemma {:induction false} SubsequenceOfTail<T>(a: seq<T>, b: seq<T>)
    requires b != []
    requires IsSubsequence(a, b[1..])
    ensures IsSubsequence(a, b)
    decreases |b|, 0
  {
    if a != [] && a[0] == b[0] {
      DropHead(a, b[1..]);
    }
  }

  /** Dropping the first element of a non-empty subsequence keeps it a subsequence. */
  lemma {:induction false} DropHead<T>(a: seq<T>, b: seq<T>)
    requires a != []
    requires IsSubsequence(a, b)
    ensures IsSubsequence(a[1..], b)
    decreases |b|, 1
  {
    if a[0] != b[0] {
      DropHead(a, b[1..]);
    }
    if a[1..] != [] {
      SubsequenceOfTail(a[1..], b);
    }
  }

  /** Every element is kept with its full multiplicity, or not at all: nothing is altered or duplicated. */
  lemma {:induction false} FilterMultiplicity<T(!new)>(keep: T -> bool, s: seq<T>, x: T)
    ensures multiset(Filter(keep, s))[x] == if keep(x) then multiset(s)[x] else 0
    decreases |s|
  {
    if s != [] {
      FilterMultiplicity(keep, s[1..], x);
      assert s == [s[0]] + s[1..];
      assert multiset(s) == multiset([s[0]]) + multiset(s[1..]);
    }
  }

  /** Masking a concatenation masks each part. */
  lemma {:induction false} FilterAppend<T(!new)>(keep: T -> bool, a: seq<T>, b: seq<T>)
    ensures Filter(keep, a + b) == Filter(keep, a) + Filter(keep, b)
    decreases |a|
  {
    if a == [] {
      assert a + b == b;
    } else {
      assert (a + b)[1..] == a[1..] + b;
      FilterAppend(keep, a[1..], b);
    }
  }

  /** A mask that every element passes keeps the sequence as it is. */
  lemma {:induction false} FilterAllKept<T(!new)>(keep: T -> bool, s: seq<T>)
    requires forall x :: x in s ==> keep(x)
    ensures Filter(keep, s) == s
    decreases |s|
  {
    if s != [] {
      FilterAllKept(keep, s[1..]);
      assert s == [s[0]] + s[1..];
    }
  }

  /** A mask that only passes elements a coarser mask passes sees through the coarser one. */
  lemma {:induction false} FilterNarrowed<T(!new)>(fine: T -> bool, coarse: T -> bool, s: seq<T>)
    requires forall x :: fine(x) ==> coarse(x)
    ensures Filter(fine, Filter(coarse, s)) == Filter(fine, s)
    decreases |s|
  {
    if s != [] {
      FilterNarrowed(fine, coarse, s[1..]);
      FilterAppend(fine, if coarse(s[0]) then [s[0]] else [], Filter(coarse, s[1..]));
    }
  }
}
