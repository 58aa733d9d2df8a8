/** Order-preserving operations on sequences: the in-memory stand-in for
    query-set `filter` and for list comprehensions. */
module Seqs {

  /** `a` can be obtained from `b` by deleting elements, keeping the order. */
  predicate Subseq<T(==)>(a: seq<T>, b: seq<T>)
    decreases |b|
  {
    if a == [] then true
    else if b == [] then false
    else if a[0] == b[0] then Subseq(a[1..], b[1..])
    else Subseq(a, b[1..])
  }

  /** The elements of `s` that satisfy `p`, in their original order: what a
      query-set `filter` or `if` inside a `for` loop over `s` keeps. */
  function Filter<T(!new)>(s: seq<T>, p: T -> bool): (r: seq<T>)
    ensures |r| <= |s|
    ensures forall x :: multiset(r)[x] == if p(x) then multiset(s)[x] else 0
    ensures forall x :: x in r <==> x in s && p(x)
    decreases |s|
  {
    if s == [] then []
    else
      var rest := Filter(s[1..], p);
      assert s == [s[0]] + s[1..];
      if p(s[0]) then [s[0]] + rest else rest
  }

  /** Apply `f` to every element, as a Python list comprehension does. */
  function Map<T, U>(s: seq<T>, f: T -> U): (r: seq<U>)
    ensures |r| == |s|
    ensures forall i :: 0 <= i < |s| ==> r[i] == f(s[i])
  {
    seq(|s|, i requires 0 <= i < |s| => f(s[i]))
  }

  lemma {:induction false} FilterIsSubseq<T(!new)>(s: seq<T>, p: T -> bool)
    ensures Subseq(Filter(s, p), s)
    decreases |s|
  {
    if s != [] {
      FilterIsSubseq(s[1..], p);
      if p(s[0]) {
        assert Filter(s, p) == [s[0]] + Filter(s[1..], p);
      } else {
        SubseqDropHead(Filter(s, p), s);
      }
    }
  }

  /** Helper: a subsequence of the tail is a subsequence of the whole. */
  lemma {:induction false} SubseqDropHead<T>(a: seq<T>, b: seq<T>)
    requires b != [] && Subseq(a, b[1..])
    ensures Subseq(a, b)
    decreases |b|, 1
  {
    if a != [] && a[0] == b[0] {
      SubseqTail(a, b[1..]);
    }
  }

  /** Helper: dropping the head of `a` keeps it a subsequence. */
  lemma {:induction false} SubseqTail<T>(a: seq<T>, b: seq<T>)
    requires a != [] && Subseq(a, b)
    ensures Subseq(a[1..], b)
    decreases |b|, 2
  {
    assert b != [];
    if a[0] == b[0] {
      SubseqDropHead(a[1..], b);
    } else {
      SubseqTail(a, b[1..]);
      SubseqDropHead(a[1..], b);
    }
  }

  /** Every element of a subsequence is an element of the original. */
  lemma {:induction false} SubseqMembers<T(!new)>(a: seq<T>, b: seq<T>)
    requires Subseq(a, b)
    ensures forall x :: x in a ==> x in b
    decreases |b|
  {
    if a != [] {
      if a[0] == b[0] {
        SubseqMembers(a[1..], b[1..]);
        assert a == [a[0]] + a[1..];
      } else {
        SubseqMembers(a, b[1..]);
      }
    }
  }

  /** Appending one element to both keeps a subsequence. */
  lemma {:induction false} SubseqAppendBoth<T>(a: seq<T>, b: seq<T>, x: T)
    requires Subseq(a, b)
    ensures Subseq(a + [x], b + [x])
    decreases |b|
  {
    if a == [] {
      SubseqOfSelfEnd([x], b);
      assert a + [x] == [x];
    } else if a[0] == b[0] {
      SubseqAppendBoth(a[1..], b[1..], x);
      assert (a + [x])[1..] == a[1..] + [x] && (b + [x])[1..] == b[1..] + [x];
      assert (a + [x])[0] == (b + [x])[0];
    } else {
      assert (a + [x])[0] != (b + [x])[0];
      SubseqAppendBoth(a, b[1..], x);
      assert (b + [x])[1..] == b[1..] + [x];
    }
  }

  /** Helper: `c` is a subsequence of anything ending in `c`. */
  lemma {:induction false} SubseqOfSelfEnd<T>(c: seq<T>, b: seq<T>)
    ensures Subseq(c, b + c)
    decreases |b|
  {
    if b == [] {
      SubseqRefl(c);
      assert b + c == c;
    } else {
      SubseqOfSelfEnd(c, b[1..]);
      assert (b + c)[1..] == b[1..] + c;
      SubseqDropHead(c, b + c);
    }
  }

  lemma {:induction false} SubseqRefl<T>(c: seq<T>)
    ensures Subseq(c, c)
    decreases |c|
  {
    if c != [] {
      SubseqRefl(c[1..]);
    }
  }

  /** Appending to the longer sequence keeps a subsequence. */
  lemma {:induction false} SubseqAppendRight<T>(a: seq<T>, b: seq<T>, x: T)
    requires Subseq(a, b)
    ensures Subseq(a, b + [x])
    decreases |b|
  {
    if a != [] {
      if a[0] == b[0] {
        SubseqAppendRight(a[1..], b[1..], x);
      } else {
        SubseqAppendRight(a, b[1..], x);
      }
      assert (b + [x])[1..] == b[1..] + [x];
    }
  }
}
