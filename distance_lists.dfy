/** The tolerant comparison of two lists of distances (CheckTwoDistanceLists):
    both lists are sorted in place and compared rank by rank, so the verdict
    says whether the two multisets agree within a tolerance. */
module DistanceLists {

  function Abs(x: real): real
  {
    if x < 0.0 then -x else x
  }

  predicate Sorted(s: seq<real>)
  {
    forall p, q :: 0 <= p < q < |s| ==> s[p] <= s[q]
  }

  /** Inserts `x` at its place in the ascending sequence `s`. */
  function Insert(x: real, s: seq<real>): (r: seq<real>)
    requires Sorted(s)
    ensures |r| == |s| + 1
    ensures Sorted(r)
    ensures multiset(r) == multiset(s) + multiset{x}
    ensures r[0] == if s == [] || x <= s[0] then x else s[0]
  {
    if s == [] || x <= s[0] then [x] + s
    else
      assert s == [s[0]] + s[1..];
      [s[0]] + Insert(x, s[1..])
  }

  /** The ascending arrangement of `s`: what Python's `list.sort()` leaves behind. */
  function Sort(s: seq<real>): (r: seq<real>)
    ensures |r| == |s|
    ensures Sorted(r)
    ensures multiset(r) == multiset(s)
  {
    if s == [] then []
    else
      assert s == [s[0]] + s[1..];
      Insert(s[0], Sort(s[1..]))
  }

  /** Removing position `k` removes one occurrence of `s[k]`. */
  lemma MultisetRemove<T>(s: seq<T>, k: int)
    requires 0 <= k < |s|
    ensures multiset(s[..k] + s[k + 1..]) == multiset(s) - multiset{s[k]}
    ensures multiset(s) == multiset(s[..k] + s[k + 1..]) + multiset{s[k]}
  {
    assert s == s[..k] + [s[k]] + s[k + 1..];
  }

  /** Two ascending sequences holding the same multiset are equal, so the
      result of sorting is determined by the multiset alone. */
  lemma {:induction false} SortedUnique(a: seq<real>, b: seq<real>)
    requires Sorted(a) && Sorted(b)
    requires multiset(a) == multiset(b)
    ensures a == b
  {
    assert |a| == |multiset(a)| == |multiset(b)| == |b|;
    if a != [] {
      assert a[0] in b by { assert a[0] in multiset(b); }
      assert b[0] in a by { assert b[0] in multiset(a); }
      assert a[0] == b[0];
      assert multiset(a[1..]) == multiset(a) - multiset{a[0]} by { assert a == [a[0]] + a[1..]; }
      assert multiset(b[1..]) == multiset(b) - multiset{b[0]} by { assert b == [b[0]] + b[1..]; }
      SortedUnique(a[1..], b[1..]);
    }
  }

  lemma SortOfPermutation(s: seq<real>, t: seq<real>)
    requires multiset(s) == multiset(t)
    ensures Sort(s) == Sort(t)
  {
    SortedUnique(Sort(s), Sort(t));
  }

  lemma SortOfSorted(s: seq<real>)
    requires Sorted(s)
    ensures Sort(s) == s
  {
    SortedUnique(Sort(s), s);
  }

  /** Rank-wise closeness: no difference at equal positions exceeds `tol`. */
  predicate RankwiseWithin(a: seq<real>, b: seq<real>, tol: real)
    requires |a| == |b|
  {
    forall i :: 0 <= i < |a| ==> Abs(a[i] - b[i]) <= tol
  }

  /** The verdict of CheckTwoDistanceLists on the lists as they were before
      the call: equal lengths, and after sorting both ascending no rank-wise
      difference strictly greater than `tol`. */
  predicate Agree(l1: seq<real>, l2: seq<real>, tol: real)
  {
    |l1| == |l2| && RankwiseWithin(Sort(l1), Sort(l2), tol)
  }

  /** `s` with `d` added to every element. */
  function Shift(s: seq<real>, d: real): seq<real>
  {
    seq(|s|, i requires 0 <= i < |s| => s[i] + d)
  }

  /** `u` is `f` applied to every element of `s`. */
  predicate MapsTo<T>(s: seq<T>, u: seq<real>, f: T -> real)
  {
    |u| == |s| && forall i :: 0 <= i < |s| ==> u[i] == f(s[i])
  }

  lemma MapsToRemove<T>(s: seq<T>, u: seq<real>, f: T -> real, k: int)
    requires MapsTo(s, u, f) && 0 <= k < |s|
    ensures MapsTo(s[..k] + s[k + 1..], u[..k] + u[k + 1..], f)
  {
    var s', u' := s[..k] + s[k + 1..], u[..k] + u[k + 1..];
    forall i | 0 <= i < |s'|
      ensures u'[i] == f(s'[i])
    {
      if i < k {
        assert u'[i] == u[i] && s'[i] == s[i];
      } else {
        assert u'[i] == u[i + 1] && s'[i] == s[i + 1];
      }
    }
  }

  /** Applying one function elementwise to two arrangements of the same
      multiset gives two arrangements of the same multiset. */
  lemma {:induction false} MapPreservesPermutation<T>(s: seq<T>, t: seq<T>, u: seq<real>, v: seq<real>, f: T -> real)
    requires multiset(s) == multiset(t)
    requires MapsTo(s, u, f) && MapsTo(t, v, f)
    ensures multiset(u) == multiset(v)
  {
    assert |s| == |multiset(s)| == |multiset(t)| == |t|;
    if s != [] {
      assert s[0] in t by { assert s[0] in multiset(t); }
      var k :| 0 <= k < |t| && t[k] == s[0];
      var s', t' := s[1..], t[..k] + t[k + 1..];
      var u', v' := u[1..], v[..k] + v[k + 1..];
      assert multiset(s') == multiset(t') by {
        MultisetRemove(s, 0);
        MultisetRemove(t, k);
        assert s[..0] + s[1..] == s';
      }
      assert MapsTo(s', u', f) && MapsTo(t', v', f) by {
        MapsToRemove(s, u, f, 0);
        MapsToRemove(t, v, f, k);
        assert s[..0] + s[1..] == s' && u[..0] + u[1..] == u';
      }
      MapPreservesPermutation(s', t', u', v', f);
      assert multiset(u) == multiset(u') + multiset{u[0]} by {
        MultisetRemove(u, 0);
        assert u[..0] + u[1..] == u';
      }
      assert multiset(v) == multiset(v') + multiset{v[k]} by {
        MultisetRemove(v, k);
      }
    }
  }

  /** Sorting commutes with adding a constant to every element. */
  lemma SortShift(s: seq<real>, d: real)
    ensures Sort(Shift(s, d)) == Shift(Sort(s), d)
  {
    MapPreservesPermutation(Sort(s), s, Shift(Sort(s), d), Shift(s, d), x => x + d);
    SortedUnique(Sort(Shift(s, d)), Shift(Sort(s), d));
  }

  /** Exchanges `a[j - 1]` and `a[j]`. */
  method SwapDown(a: array<real>, j: int)
    requires 0 < j < a.Length
    modifies a
    ensures a[..] == old(a[..])[j - 1 := old(a[j])][j := old(a[j - 1])]
    ensures multiset(a[..]) == multiset(old(a[..]))
  {
    a[j - 1], a[j] := a[j], a[j - 1];
  }

  /** Moves `a[i]` down into the ascending prefix `a[..i]`, so that `a[..i + 1]`
      is ascending. */
  method InsertDown(a: array<real>, i: int)
    requires 0 < i < a.Length
    requires forall p, q :: 0 <= p < q < i ==> a[p] <= a[q]
    modifies a
    ensures forall p, q :: 0 <= p < q <= i ==> a[p] <= a[q]
    ensures multiset(a[..]) == multiset(old(a[..]))
  {
    var j := i;
    while 0 < j && a[j] < a[j - 1]
      invariant 0 <= j <= i
      invariant forall p, q :: 0 <= p < q <= i && p != j && q != j ==> a[p] <= a[q]
      invariant forall q :: j < q <= i ==> a[j] <= a[q]
      invariant 0 < j < i ==> a[j - 1] <= a[j + 1]
      invariant multiset(a[..]) == multiset(old(a[..]))
    {
      SwapDown(a, j);
      j := j - 1;
    }
  }

  /** Sorts `a` ascending in place. */
  method SortInPlace(a: array<real>)
    modifies a
    ensures a[..] == Sort(old(a[..]))
  {
    var i := 1;
    while i < a.Length
      invariant a.Length <= 1 || 1 <= i <= a.Length
      invariant forall p, q :: 0 <= p < q < i && q < a.Length ==> a[p] <= a[q]
      invariant multiset(a[..]) == multiset(old(a[..]))
    {
      InsertDown(a, i);
      i := i + 1;
    }
    assert Sorted(a[..]);
    SortedUnique(a[..], Sort(old(a[..])));
  }

  /** The rank-wise scan of lines 23-25: stops at the first position whose
      difference is strictly greater than `tol`. */
  method CompareRanks(a: array<real>, b: array<real>, tol: real) returns (ok: bool)
    requires a.Length == b.Length
    ensures ok == RankwiseWithin(a[..], b[..], tol)
  {
    for i := 0 to a.Length
      invariant forall k :: 0 <= k < i ==> Abs(a[k] - b[k]) <= tol
    {
      if Abs(a[i] - b[i]) > tol {
        assert a[..][i] == a[i] && b[..][i] == b[i];
        return false;
      }
    }
    return true;
  }

  /** Lines 20-25: a length mismatch answers False and leaves both lists
      alone; otherwise both lists are sorted in place and compared rank by
      rank, failing on the first difference strictly greater than `tol`. */
  method CheckTwoDistanceLists(lst1: array<real>, lst2: array<real>, tol: real) returns (ok: bool)
    modifies lst1, lst2
    ensures ok == Agree(old(lst1[..]), old(lst2[..]), tol)
    ensures lst1.Length != lst2.Length ==> lst1[..] == old(lst1[..]) && lst2[..] == old(lst2[..])
    ensures lst1.Length == lst2.Length ==> lst1[..] == Sort(old(lst1[..])) && lst2[..] == Sort(old(lst2[..]))
  {
    if lst1.Length != lst2.Length {
      return false;
    }
    SortInPlace(lst1);
    ghost var sorted1 := lst1[..];
    SortInPlace(lst2);
    if lst1 == lst2 {
      SortOfSorted(sorted1);
    }
    ok := CompareRanks(lst1, lst2, tol);
  }

  /** The verdict does not depend on the order of either list's elements. */
  lemma AgreeIgnoresOrder(l1: seq<real>, m1: seq<real>, l2: seq<real>, m2: seq<real>, tol: real)
    requires multiset(l1) == multiset(m1) && multiset(l2) == multiset(m2)
    ensures Agree(l1, l2, tol) == Agree(m1, m2, tol)
  {
    SortOfPermutation(l1, m1);
    SortOfPermutation(l2, m2);
    assert |l1| == |multiset(l1)| == |m1|;
    assert |l2| == |multiset(l2)| == |m2|;
  }

  /** A list compared with any rearranged copy of itself passes. */
  lemma AgreeWithPermutation(l: seq<real>, m: seq<real>, tol: real)
    requires multiset(l) == multiset(m)
    requires 0.0 <= tol
    ensures Agree(l, m, tol)
  {
    SortOfPermutation(l, m);
  }

  lemma ZeroToleranceEqual(a: seq<real>, b: seq<real>)
    requires |a| == |b| && RankwiseWithin(a, b, 0.0)
    ensures a == b
  {
    forall i | 0 <= i < |a|
      ensures a[i] == b[i]
    {
      assert Abs(a[i] - b[i]) <= 0.0;
    }
  }

  /** At zero tolerance the check is exactly multiset equality. */
  lemma AgreeExactly(l1: seq<real>, l2: seq<real>)
    ensures Agree(l1, l2, 0.0) <==> multiset(l1) == multiset(l2)
  {
    if Agree(l1, l2, 0.0) {
      ZeroToleranceEqual(Sort(l1), Sort(l2));
    }
    if multiset(l1) == multiset(l2) {
      AgreeWithPermutation(l1, l2, 0.0);
    }
  }

  /** The tolerance boundary: a list whose every element is off by `d`
      passes exactly when |d| <= tol, so a difference equal to `tol` is
      accepted. */
  lemma ShiftedListAgrees(l: seq<real>, d: real, tol: real)
    requires l != []
    ensures Agree(l, Shift(l, d), tol) <==> Abs(d) <= tol
  {
    SortShift(l, d);
    ShiftedRanks(Sort(l), d, tol);
  }

  lemma ShiftedRanks(s: seq<real>, d: real, tol: real)
    requires s != []
    ensures RankwiseWithin(s, Shift(s, d), tol) <==> Abs(d) <= tol
  {
    var shifted := Shift(s, d);
    forall i | 0 <= i < |s|
      ensures Abs(s[i] - shifted[i]) == Abs(d)
    {
      assert shifted[i] == s[i] + d;
    }
    assert Abs(s[0] - shifted[0]) == Abs(d);
  }

  /** A looser tolerance accepts whatever a tighter one accepts. */
  lemma AgreeMonotone(l1: seq<real>, l2: seq<real>, tol: real, looser: real)
    requires tol <= looser
    requires Agree(l1, l2, tol)
    ensures Agree(l1, l2, looser)
  {
  }

  /** Comparing again against a list the check has already sorted gives the
      same verdict, so the in-place sort of the reference list is harmless. */
  lemma ResortedAgreesAlike(l1: seq<real>, l2: seq<real>, tol: real)
    ensures Agree(Sort(l1), l2, tol) == Agree(l1, l2, tol)
  {
    AgreeIgnoresOrder(Sort(l1), l1, l2, l2, tol);
  }
}
