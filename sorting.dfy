/** `Array.prototype.sort` with a comparator: a stable sort. Its result is
    specified by `SortSeq`, insertion sort on sequences; `SortInPlace` is the
    in-place algorithm on an array, proved to compute it. */
module Sorting {
  import opened Seqs

  /** `le(a, b)` means the comparator does not put `b` strictly before `a`. */
  ghost predicate TotalPreorder<T(!new)>(le: (T, T) -> bool) {
    && (forall a, b :: le(a, b) || le(b, a))
    && (forall a, b, c :: le(a, b) && le(b, c) ==> le(a, c))
  }

  ghost predicate SortedBy<T>(le: (T, T) -> bool, s: seq<T>) {
    forall i, j :: 0 <= i < j < |s| ==> le(s[i], s[j])
  }

  /** Inserts `x` after every element that is not strictly greater than it. */
  function Insert<T>(le: (T, T) -> bool, x: T, p: seq<T>): (r: seq<T>)
    ensures |r| == |p| + 1
  {
    if p == [] || le(p[|p| - 1], x) then p + [x]
    else
      assert p == p[..|p| - 1] + [p[|p| - 1]];
      Insert(le, x, p[..|p| - 1]) + [p[|p| - 1]]
  }

  /** The stable sort of `s`: each element in turn inserted into the sorted prefix. */
  function SortSeq<T>(le: (T, T) -> bool, s: seq<T>): (r: seq<T>)
    ensures |r| == |s|
  {
    if s == [] then []
    else
      assert s == s[..|s| - 1] + [s[|s| - 1]];
      Insert(le, s[|s| - 1], SortSeq(le, s[..|s| - 1]))
  }

  lemma {:induction false} InsertPermutes<T>(le: (T, T) -> bool, x: T, p: seq<T>)
    ensures multiset(Insert(le, x, p)) == multiset(p) + multiset{x}
    decreases |p|
  {
    if p != [] && !le(p[|p| - 1], x) {
      InsertPermutes(le, x, p[..|p| - 1]);
      assert p == p[..|p| - 1] + [p[|p| - 1]];
    }
  }

  /** The result of `SortSeq` is a permutation of its input. */
  lemma {:induction false} SortSeqPermutes<T>(le: (T, T) -> bool, s: seq<T>)
    ensures multiset(SortSeq(le, s)) == multiset(s)
  {
    if s != [] {
      SortSeqPermutes(le, s[..|s| - 1]);
      InsertPermutes(le, s[|s| - 1], SortSeq(le, s[..|s| - 1]));
      assert s == s[..|s| - 1] + [s[|s| - 1]];
    }
  }

  lemma {:induction false} InsertSorted<T(!new)>(le: (T, T) -> bool, x: T, p: seq<T>)
    requires TotalPreorder(le) && SortedBy(le, p)
    ensures SortedBy(le, Insert(le, x, p))
    decreases |p|
  {
    if p != [] && !le(p[|p| - 1], x) {
      var q, y := p[..|p| - 1], p[|p| - 1];
      assert SortedBy(le, q);
      InsertSorted(le, x, q);
      InsertPermutes(le, x, q);
      var iq := Insert(le, x, q);
      assert le(x, y);
      assert forall z :: z in multiset(iq) ==> le(z, y) by {
        forall z | z in multiset(iq) ensures le(z, y) {
          assert z in multiset(q) || z == x;
          if z != x {
            var k :| 0 <= k < |q| && q[k] == z;
            assert p[k] == z;
          }
        }
      }
      forall i, j | 0 <= i < j < |iq| + 1 ensures le((iq + [y])[i], (iq + [y])[j]) {
        if j == |iq| {
          assert iq[i] in multiset(iq);
        }
      }
    }
  }

  /** The result of `SortSeq` is sorted. */
  lemma {:induction false} SortSeqSorted<T(!new)>(le: (T, T) -> bool, s: seq<T>)
    requires TotalPreorder(le)
    ensures SortedBy(le, SortSeq(le, s))
  {
    if s != [] {
      SortSeqSorted(le, s[..|s| - 1]);
      InsertSorted(le, s[|s| - 1], SortSeq(le, s[..|s| - 1]));
    }
  }

  /** Sorting an already sorted sequence returns it unchanged. */
  lemma {:induction false} SortSeqOfSorted<T>(le: (T, T) -> bool, s: seq<T>)
    requires SortedBy(le, s)
    ensures SortSeq(le, s) == s
  {
    if s != [] {
      var p, x := s[..|s| - 1], s[|s| - 1];
      assert SortedBy(le, p) by {
        forall i, j | 0 <= i < j < |p| ensures le(p[i], p[j]) {
          assert p[i] == s[i] && p[j] == s[j];
        }
      }
      SortSeqOfSorted(le, p);
      SortSeqSnoc(le, s, |s| - 1);
      assert s[..|s| - 1 + 1] == s;
      if p != [] {
        assert p[|p| - 1] == s[|s| - 2];
        assert le(p[|p| - 1], x);
      }
      assert Insert(le, x, p) == p + [x];
      assert p + [x] == s;
    }
  }

  /** Sorting twice is sorting once. */
  lemma SortSeqIdempotent<T(!new)>(le: (T, T) -> bool, s: seq<T>)
    requires TotalPreorder(le)
    ensures SortSeq(le, SortSeq(le, s)) == SortSeq(le, s)
  {
    SortSeqSorted(le, s);
    SortSeqOfSorted(le, SortSeq(le, s));
  }

  /** Two sorted permutations of one another are equal when the only ties
      among their elements are between equal elements. */
  lemma {:induction false} SortedPermutationUnique<T(!new)>(le: (T, T) -> bool, a: seq<T>, b: seq<T>)
    requires SortedBy(le, a) && SortedBy(le, b) && multiset(a) == multiset(b)
    requires forall x, y :: x in multiset(a) && y in multiset(a) && le(x, y) && le(y, x) ==> x == y
    ensures a == b
    decreases |a|
  {
    assert |a| == |multiset(a)| == |multiset(b)| == |b|;
    if a != [] {
      SortedHeadsEqual(le, a, b);
      assert a == [a[0]] + a[1..] && b == [b[0]] + b[1..];
      assert multiset(a[1..]) == multiset(b[1..]);
      SortedTail(le, a);
      SortedTail(le, b);
      assert multiset(a[1..]) <= multiset(a);
      SortedPermutationUnique(le, a[1..], b[1..]);
    }
  }

  /** The least elements of two sorted permutations coincide when ties are equalities. */
  lemma SortedHeadsEqual<T(!new)>(le: (T, T) -> bool, a: seq<T>, b: seq<T>)
    requires a != [] && b != []
    requires SortedBy(le, a) && SortedBy(le, b) && multiset(a) == multiset(b)
    requires forall x, y :: x in multiset(a) && y in multiset(a) && le(x, y) && le(y, x) ==> x == y
    ensures a[0] == b[0]
  {
    assert a[0] in multiset(b) && b[0] in multiset(a);
    var k :| 0 <= k < |b| && b[k] == a[0];
    var m :| 0 <= m < |a| && a[m] == b[0];
    if k > 0 && m > 0 {
      assert le(b[0], b[k]) && le(a[0], a[m]);
      assert a[0] in multiset(a);
    }
  }

  /** The tail of a sorted sequence is sorted. */
  lemma SortedTail<T>(le: (T, T) -> bool, s: seq<T>)
    requires s != [] && SortedBy(le, s)
    ensures SortedBy(le, s[1..])
  {
    forall i, j | 0 <= i < j < |s[1..]| ensures le(s[1..][i], s[1..][j]) {
      assert s[1..][i] == s[i + 1] && s[1..][j] == s[j + 1];
    }
  }

  /** Neither of `a`, `b` is strictly before the other. */
  predicate Tied<T>(le: (T, T) -> bool, a: T, b: T) {
    le(a, b) && le(b, a)
  }

  lemma {:induction false} InsertStable<T(!new)>(le: (T, T) -> bool, x: T, p: seq<T>, v: T)
    requires TotalPreorder(le)
    ensures Filter(z => Tied(le, z, v), Insert(le, x, p))
         == Filter(z => Tied(le, z, v), p) + Filter(z => Tied(le, z, v), [x])
    decreases |p|
  {
    var tied := z => Tied(le, z, v);
    if p == [] || le(p[|p| - 1], x) {
      FilterAppend(tied, p, [x]);
    } else {
      var q, y := p[..|p| - 1], p[|p| - 1];
      assert p == q + [y];
      InsertStable(le, x, q, v);
      FilterAppend(tied, Insert(le, x, q), [y]);
      FilterAppend(tied, q, [y]);
      assert !(tied(x) && tied(y));
      assert Filter(tied, [x]) + Filter(tied, [y]) == Filter(tied, [y]) + Filter(tied, [x]);
    }
  }

  /** Stability: the elements tied with any `v` keep their input order. */
  lemma {:induction false} SortSeqStable<T(!new)>(le: (T, T) -> bool, s: seq<T>, v: T)
    requires TotalPreorder(le)
    ensures Filter(z => Tied(le, z, v), SortSeq(le, s)) == Filter(z => Tied(le, z, v), s)
  {
    if s != [] {
      var p, x := s[..|s| - 1], s[|s| - 1];
      SortSeqStable(le, p, v);
      InsertStable(le, x, SortSeq(le, p), v);
      assert s == p + [x];
      FilterAppend(z => Tied(le, z, v), p, [x]);
    }
  }

  /** One step of `SortSeq`: the sort of a longer prefix inserts the next element. */
  lemma SortSeqSnoc<T>(le: (T, T) -> bool, s: seq<T>, i: nat)
    requires i < |s|
    ensures SortSeq(le, s[..i + 1]) == Insert(le, s[i], SortSeq(le, s[..i]))
  {
    assert s[..i + 1][..i] == s[..i];
  }

  /** Inserting past an element that is strictly greater than `x`. */
  lemma InsertPast<T>(le: (T, T) -> bool, x: T, p: seq<T>, j: nat)
    requires 0 < j <= |p| && !le(p[j - 1], x)
    ensures Insert(le, x, p[..j]) == Insert(le, x, p[..j - 1]) + [p[j - 1]]
  {
    assert p[..j][..j - 1] == p[..j - 1];
  }

  /** Inserting stops at an element that is not strictly greater than `x`. */
  lemma InsertStops<T>(le: (T, T) -> bool, x: T, p: seq<T>, j: nat)
    requires j <= |p| && (j == 0 || le(p[j - 1], x))
    ensures Insert(le, x, p[..j]) == p[..j] + [x]
  {
  }

  /** The inner loop of insertion sort: `a[i]` is shifted left past the
      strictly greater elements of `a[..i]`; nothing beyond `i` moves. */
  method InsertInPlace<T>(a: array<T>, i: nat, le: (T, T) -> bool)
    requires i < a.Length
    modifies a
    ensures a[..i + 1] == Insert(le, old(a[i]), old(a[..i]))
    ensures a[i + 1..] == old(a[i + 1..])
  {
    var x := a[i];
    ghost var p := a[..i];
    var j := i;
    while j > 0 && !le(a[j - 1], x)
      invariant 0 <= j <= i
      invariant a[..j] == p[..j]
      invariant a[j + 1..i + 1] == p[j..i]
      invariant a[i + 1..] == old(a[i + 1..])
      invariant Insert(le, x, p) == Insert(le, x, p[..j]) + p[j..i]
    {
      InsertPast(le, x, p, j);
      assert p[j - 1..i] == [p[j - 1]] + p[j..i];
      assert a[j - 1] == a[..j][j - 1] == p[j - 1];
      a[j] := a[j - 1];
      assert a[j..i + 1] == [a[j]] + a[j + 1..i + 1];
      j := j - 1;
    }
    InsertStops(le, x, p, j);
    a[j] := x;
    assert a[..i + 1] == p[..j] + [x] + p[j..i];
  }

  /** Insertion sort in place, left to right. */
  method SortInPlace<T>(a: array<T>, le: (T, T) -> bool)
    modifies a
    ensures a[..] == SortSeq(le, old(a[..]))
  {
    ghost var o := a[..];
    for i := 0 to a.Length
      invariant a[..i] == SortSeq(le, o[..i])
      invariant a[i..] == o[i..]
    {
      InsertInPlace(a, i, le);
      SortSeqSnoc(le, o, i);
    }
    assert a[..] == a[..a.Length] && o == o[..a.Length];
  }
}
