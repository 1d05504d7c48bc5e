/** List comprehensions with a condition (`[x for x in s if keep(x)]`) and the order they keep. */
module Lists {

  /** `a` can be obtained from `b` by deleting elements: the elements of `a` occur in `b` in the same order. */
  ghost predicate IsSubsequence<T>(a: seq<T>, b: seq<T>)
    decreases |b|
  {
    a == [] || (b != [] && if a[0] == b[0] then IsSubsequence(a[1..], b[1..]) else IsSubsequence(a, b[1..]))
  }

  /** The elements of `s` that satisfy `keep`, in their order in `s`. */
  function Filter<T(!new)>(s: seq<T>, keep: T -> bool): (r: seq<T>)
    ensures |r| <= |s|
    ensures forall x :: x in r <==> x in s && keep(x)
    ensures IsSubsequence(r, s)
  {
    if s == [] then []
    else if keep(s[0]) then
      var rest := Filter(s[1..], keep);
      assert ([s[0]] + rest)[1..] == rest;
      [s[0]] + rest
    else
      var rest := Filter(s[1..], keep);
      SubsequenceOfTail(rest, s);
      rest
  }

  /**
   * Filtering keeps every occurrence of a kept element and none of the others: together with
   * the subsequence property this determines the filtered list.
   */
  lemma {:induction false} FilterCounts<T(!new)>(s: seq<T>, keep: T -> bool)
    ensures forall x :: multiset(Filter(s, keep))[x] == if keep(x) then multiset(s)[x] else 0
  {
    if s != [] {
      FilterCounts(s[1..], keep);
      assert s == [s[0]] + s[1..];
    }
  }

  /** A subsequence of the tail of `b` is a subsequence of `b`. */
  lemma {:induction false} SubsequenceOfTail<T>(a: seq<T>, b: seq<T>)
    requires b != [] && IsSubsequence(a, b[1..])
    ensures IsSubsequence(a, b)
    decreases |b|, 0
  {
    if a != [] && a[0] == b[0] {
      DropFirst(a, b[1..]);
    }
  }

  /** Dropping the first element of a subsequence leaves a subsequence. */
  lemma {:induction false} DropFirst<T>(a: seq<T>, b: seq<T>)
    requires a != [] && IsSubsequence(a, b)
    ensures IsSubsequence(a[1..], b)
    decreases |b|, 1
  {
    if a[0] == b[0] {
      if a[1..] != [] { SubsequenceOfTail(a[1..], b); }
    } else {
      DropFirst(a, b[1..]);
      if a[1..] != [] { SubsequenceOfTail(a[1..], b); }
    }
  }

  /** Filtering with two conditions that agree on the elements of `s` gives the same list. */
  lemma {:induction false} FilterAgrees<T(!new)>(s: seq<T>, f: T -> bool, g: T -> bool)
    requires forall x :: x in s ==> f(x) == g(x)
    ensures Filter(s, f) == Filter(s, g)
  {
    if s != [] {
      FilterAgrees(s[1..], f, g);
    }
  }

  /** Filtering with a stronger condition keeps a subsequence of what a weaker one keeps. */
  lemma {:induction false} FilterStronger<T(!new)>(s: seq<T>, f: T -> bool, g: T -> bool)
    requires forall x :: x in s && f(x) ==> g(x)
    ensures IsSubsequence(Filter(s, f), Filter(s, g))
  {
    if s != [] {
      var a, b := Filter(s[1..], f), Filter(s[1..], g);
      FilterStronger(s[1..], f, g);
      if f(s[0]) {
        assert Filter(s, f) == [s[0]] + a && Filter(s, g) == [s[0]] + b;
        assert ([s[0]] + a)[1..] == a && ([s[0]] + b)[1..] == b;
      } else if g(s[0]) {
        assert Filter(s, g) == [s[0]] + b;
        assert ([s[0]] + b)[1..] == b;
        SubsequenceOfTail(a, [s[0]] + b);
      }
    }
  }
}
