/** Boundary edges of a solid as the host geometry library reports them, and
    the two quantities the cascade derives from them: the total edge length
    and the list of edge-start-to-centroid distances. */
module Edges {
  import opened DistanceLists

  /** One boundary edge: its length and the distance from its start point to
      the volume centroid of the body it bounds. Both are host measurements. */
  datatype Edge = Edge(length: real, startDistance: real)

  /** The sum of a sequence, accumulated from the left as the loops do. */
  function Sum(s: seq<real>): real
  {
    if s == [] then 0.0 else Sum(s[..|s| - 1]) + s[|s| - 1]
  }

  function Lengths(edges: seq<Edge>): seq<real>
  {
    seq(|edges|, i requires 0 <= i < |edges| => edges[i].length)
  }

  /** Line 18: one start-to-centroid distance per edge, in edge order. */
  function CurveDistanceList(edges: seq<Edge>): seq<real>
  {
    seq(|edges|, i requires 0 <= i < |edges| => edges[i].startDistance)
  }

  /** The edge-length accumulation loop (lines 40-42 for the reference,
      lines 92-96 for a candidate). */
  method TotalEdgeLength(edges: seq<Edge>) returns (total: real)
    ensures total == Sum(Lengths(edges))
  {
    total := 0.0;
    for i := 0 to |edges|
      invariant total == Sum(Lengths(edges)[..i])
    {
      assert Lengths(edges)[..i + 1][..i] == Lengths(edges)[..i];
      total := total + edges[i].length;
    }
    assert Lengths(edges)[..|edges|] == Lengths(edges);
  }

  lemma {:induction false} SumAppend(a: seq<real>, b: seq<real>)
    ensures Sum(a + b) == Sum(a) + Sum(b)
  {
    if b == [] {
      assert a + b == a;
    } else {
      assert (a + b)[..|a + b| - 1] == a + b[..|b| - 1];
      SumAppend(a, b[..|b| - 1]);
    }
  }

  lemma SumSingleton(x: real)
    ensures Sum([x]) == x
  {
    assert [x][..0] == [];
  }

  /** Taking one summand out of the sequence takes it out of the sum. */
  lemma SumRemove(t: seq<real>, k: int)
    requires 0 <= k < |t|
    ensures Sum(t) == Sum(t[..k] + t[k + 1..]) + t[k]
  {
    var front, x, back := t[..k], t[k], t[k + 1..];
    assert t == (front + [x]) + back;
    SumAppend(front + [x], back);
    SumAppend(front, [x]);
    SumAppend(front, back);
    SumSingleton(x);
  }

  /** The sum does not depend on the order of the summands. */
  lemma {:induction false} SumPermutation(s: seq<real>, t: seq<real>)
    requires multiset(s) == multiset(t)
    ensures Sum(s) == Sum(t)
  {
    assert |s| == |multiset(s)| == |multiset(t)| == |t|;
    if s != [] {
      var n := |s| - 1;
      assert s[n] in t by { assert s[n] in multiset(t); }
      var k :| 0 <= k < |t| && t[k] == s[n];
      MultisetRemove(s, n);
      MultisetRemove(t, k);
      assert s[..n] + s[n + 1..] == s[..n];
      SumPermutation(s[..n], t[..k] + t[k + 1..]);
      SumRemove(t, k);
    }
  }

  /** Reordering the edges reorders their lengths and their distances. */
  lemma EdgePermutation(e1: seq<Edge>, e2: seq<Edge>)
    requires multiset(e1) == multiset(e2)
    ensures multiset(Lengths(e1)) == multiset(Lengths(e2))
    ensures multiset(CurveDistanceList(e1)) == multiset(CurveDistanceList(e2))
  {
    MapPreservesPermutation(e1, e2, Lengths(e1), Lengths(e2), (e: Edge) => e.length);
    MapPreservesPermutation(e1, e2, CurveDistanceList(e1), CurveDistanceList(e2), (e: Edge) => e.startDistance);
  }

  /** The total edge length does not depend on the order the host lists the
      edges in. */
  lemma TotalLengthIgnoresOrder(e1: seq<Edge>, e2: seq<Edge>)
    requires multiset(e1) == multiset(e2)
    ensures Sum(Lengths(e1)) == Sum(Lengths(e2))
  {
    EdgePermutation(e1, e2);
    SumPermutation(Lengths(e1), Lengths(e2));
  }
}
