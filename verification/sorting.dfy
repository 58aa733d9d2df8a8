/** Stable insertion sort and first-occurrence de-duplication: the in-memory
    model of a query set's `order_by(...)` and `distinct()`. */
module Sorting {
  import Seqs

  /** `le` is total and transitive, so it can serve as an `ORDER BY`. */
  ghost predicate TotalPreorder<T(!new)>(le: (T, T) -> bool)
  {
    && (forall a, b :: le(a, b) || le(b, a))
    && (forall a, b, c :: le(a, b) && le(b, c) ==> le(a, c))
  }

  /** Every element is `le` every later element. */
  predicate SortedBy<T>(s: seq<T>, le: (T, T) -> bool)
  {
    forall i, j :: 0 <= i < j < |s| ==> le(s[i], s[j])
  }

  /** Insert `x` before the first element it is `le`, so that it lands ahead of
      its equals. */
  function Insert<T(!new)>(x: T, s: seq<T>, le: (T, T) -> bool): (r: seq<T>)
    requires TotalPreorder(le)
    requires SortedBy(s, le)
    ensures SortedBy(r, le)
    ensures multiset(r) == multiset(s) + multiset{x}
    decreases |s|
  {
    if s == [] then [x]
    else if le(x, s[0]) then [x] + s
    else
      var rest := Insert(x, s[1..], le);
      assert s == [s[0]] + s[1..];
      InsertAfterHead(x, s, le, rest);
      [s[0]] + rest
  }

  /** Helper: what is inserted behind the head of a sorted list stays behind
      it. */
  lemma InsertAfterHead<T(!new)>(x: T, s: seq<T>, le: (T, T) -> bool, rest: seq<T>)
    requires TotalPreorder(le)
    requires SortedBy(s, le)
    requires |s| >= 1 && !le(x, s[0])
    requires multiset(rest) == multiset(s[1..]) + multiset{x}
    ensures forall k :: 0 <= k < |rest| ==> le(s[0], rest[k])
  {
    forall k | 0 <= k < |rest| ensures le(s[0], rest[k]) {
      assert rest[k] in multiset(rest);
      if rest[k] != x {
        assert rest[k] in multiset(s[1..]);
        var m :| 0 <= m < |s[1..]| && s[1..][m] == rest[k];
        assert s[m + 1] == rest[k];
      }
    }
  }

  /** Stable sort of `s` by `le`: a sorted permutation of `s`. */
  function SortBy<T(!new)>(s: seq<T>, le: (T, T) -> bool): (r: seq<T>)
    requires TotalPreorder(le)
    ensures SortedBy(r, le)
    ensures multiset(r) == multiset(s)
    decreases |s|
  {
    if s == [] then []
    else
      assert s == [s[0]] + s[1..];
      Insert(s[0], SortBy(s[1..], le), le)
  }

  /** Keep the first element for each key not already in `seen`, in order: the
      rows `distinct()` leaves when rows with equal keys are equal rows. */
  function DistinctBy<T(!new), K(!new)>(s: seq<T>, key: T -> K, seen: set<K>): (r: seq<T>)
    ensures Seqs.Subseq(r, s)
    ensures forall i, j :: 0 <= i < j < |r| ==> key(r[i]) != key(r[j])
    ensures forall i :: 0 <= i < |r| ==> key(r[i]) !in seen
    ensures forall x :: x in s && key(x) !in seen ==> exists j :: 0 <= j < |r| && key(r[j]) == key(x)
    decreases |s|
  {
    if s == [] then []
    else if key(s[0]) in seen then
      var rest := DistinctBy(s[1..], key, seen);
      Seqs.SubseqDropHead(rest, s);
      rest
    else
      var rest := DistinctBy(s[1..], key, seen + {key(s[0])});
      assert s == [s[0]] + s[1..];
      [s[0]] + rest
  }

  /** Sequences with the same multiset have the same members. */
  lemma SameMembers<T>(a: seq<T>, b: seq<T>)
    requires multiset(a) == multiset(b)
    ensures forall x :: x in a <==> x in b
  {
    forall x ensures x in a <==> x in b {
      assert x in a <==> x in multiset(a);
      assert x in b <==> x in multiset(b);
    }
  }

  /** A subsequence of a sorted sequence is sorted. */
  lemma {:induction false} SubseqSorted<T(!new)>(a: seq<T>, b: seq<T>, le: (T, T) -> bool)
    requires Seqs.Subseq(a, b)
    requires SortedBy(b, le)
    ensures SortedBy(a, le)
    decreases |b|
  {
    if a != [] {
      if a[0] == b[0] {
        SubseqSorted(a[1..], b[1..], le);
        Seqs.SubseqMembers(a[1..], b[1..]);
        forall i, j | 0 <= i < j < |a| ensures le(a[i], a[j]) {
          if i > 0 {
            assert a[i] == a[1..][i - 1] && a[j] == a[1..][j - 1];
          } else {
            assert a[j] == a[1..][j - 1];
            assert a[j] in b[1..];
            var m :| 0 <= m < |b[1..]| && b[1..][m] == a[j];
            assert b[m + 1] == a[j];
          }
        }
      } else {
        SubseqSorted(a, b[1..], le);
      }
    }
  }
}
