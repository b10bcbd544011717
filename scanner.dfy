/** The scan of FindSimilarVolumesPlus (lines 78-110): every candidate is put
    through the cascade in input order and the positions of those accepted are
    collected, then mapped back to object ids. */
module Scanner {
  import opened Wrappers
  import opened DistanceLists
  import opened Edges
  import opened Cascade
  import opened Setup

  predicate AllSameKind(ref: Signature, objs: seq<Body>)
  {
    forall i :: 0 <= i < |objs| ==> SameKind(ref, objs[i])
  }

  predicate Increasing(s: seq<nat>)
  {
    forall p, q :: 0 <= p < q < |s| ==> s[p] < s[q]
  }

  /** The positions, among the first `n` candidates, of those that match, in
      increasing order. */
  function MatchingIndices(ref: Signature, objs: seq<Body>, tol: real, n: nat): (r: seq<nat>)
    requires n <= |objs| && AllSameKind(ref, objs)
    ensures Increasing(r)
    ensures forall k :: 0 <= k < |r| ==> r[k] < n
    ensures forall i :: 0 <= i < n ==> (i in r <==> Matches(ref, objs[i], tol))
  {
    if n == 0 then []
    else
      MatchingIndices(ref, objs, tol, n - 1)
        + (if Matches(ref, objs[n - 1], tol) then [n - 1] else [])
  }

  /** Lines 80-107 for one candidate. The reference's distance list `dList`
      is shared by all candidates and sorted in place by the first distance
      comparison; only its order changes. */
  method CheckCandidate(ref: Signature, dList: array<real>, obj: Body, tol: real) returns (ok: bool)
    requires SameKind(ref, obj)
    requires ref.BrepSig? ==> multiset(dList[..]) == multiset(ref.distances)
    modifies dList
    ensures ok == Matches(ref, obj, tol)
    ensures multiset(dList[..]) == multiset(old(dList[..]))
  {
    CheckNamesFirstFailingGate(ref, obj, tol);
    ok := false;
    if !Eligible(obj) || obj.volume.None? {
      return;
    }
    var volume := obj.volume.value;
    if Abs(volume - ref.volume) < tol + VolumeSlack(ref, tol) {
      if Abs(obj.area - ref.area) < tol + AreaSlack(ref, tol) {
        match obj
        case Brep(_, _, _, _) =>
          ok := CheckEdges(ref, dList, obj, tol);
        case Mesh(_, _, _, faces, vertices) =>
          if faces == ref.faceCount {
            if vertices == ref.vertexCount {
              ok := true;
            }
          }
      }
    }
  }

  /** Lines 89-102: the structure and distance gates of a brep candidate. */
  method CheckEdges(ref: Signature, dList: array<real>, obj: Body, tol: real) returns (ok: bool)
    requires ref.BrepSig? && obj.Brep?
    requires multiset(dList[..]) == multiset(ref.distances)
    modifies dList
    ensures ok == (StructureGate(ref, obj, tol) && DistanceGate(ref, obj, tol))
    ensures StructureGate(ref, obj, tol) && dList.Length == |obj.edges| ==> dList[..] == Sort(old(dList[..]))
    ensures !(StructureGate(ref, obj, tol) && dList.Length == |obj.edges|) ==> dList[..] == old(dList[..])
    ensures multiset(dList[..]) == multiset(old(dList[..]))
  {
    ok := false;
    var edges := obj.edges;
    var eLen := TotalEdgeLength(edges);
    if |edges| == ref.edgeCount && Abs(eLen - ref.edgeLength) < tol {
      var distances := CurveDistanceList(edges);
      var chkDList := new real[|distances|](i requires 0 <= i < |distances| => distances[i]);
      assert chkDList[..] == distances;
      ghost var before := dList[..];
      ok := CheckTwoDistanceLists(dList, chkDList, tol);
      AgreeIgnoresOrder(before, ref.distances, distances, distances, tol);
    }
  }

  /** The loop of lines 78-108: `matchIndex` collects, in input order, the
      position of every candidate that passes the cascade. */
  method Scan(ref: Signature, dList: array<real>, objs: seq<Body>, tol: real) returns (matchIndex: seq<nat>)
    requires AllSameKind(ref, objs)
    requires ref.BrepSig? ==> multiset(dList[..]) == multiset(ref.distances)
    modifies dList
    ensures matchIndex == MatchingIndices(ref, objs, tol, |objs|)
    ensures multiset(dList[..]) == multiset(old(dList[..]))
  {
    matchIndex := [];
    for i := 0 to |objs|
      invariant matchIndex == MatchingIndices(ref, objs, tol, i)
      invariant multiset(dList[..]) == multiset(old(dList[..]))
    {
      var ok := CheckCandidate(ref, dList, objs[i], tol);
      assert MatchingIndices(ref, objs, tol, i + 1)
        == MatchingIndices(ref, objs, tol, i) + (if ok then [i] else []);
      if ok {
        matchIndex := matchIndex + [i];
      }
    }
  }

  /** A whole run, from reading the reference to the ids of the matching
      candidates (line 110), in input order. `ids[i]` is the id of `objs[i]`;
      the candidates are of the reference's kind, as collected by type at
      lines 59-62. */
  method FindSimilarVolumesPlus<Id>(refBody: Body, ids: seq<Id>, objs: seq<Body>, tol: real)
    returns (r: Result<seq<Id>, SetupError>)
    requires |ids| == |objs|
    requires forall i :: 0 <= i < |objs| ==> objs[i].Brep? == refBody.Brep?
    ensures r.Success? <==> refBody.volume.Some?
    ensures r.Success? ==>
      var matches := MatchingIndices(ReferenceOf(refBody).value, objs, tol, |objs|);
      |r.value| == |matches| && forall k :: 0 <= k < |matches| ==> r.value[k] == ids[matches[k]]
    ensures r.Success? && (forall p, q :: 0 <= p < q < |ids| ==> ids[p] != ids[q]) ==>
      forall i :: 0 <= i < |objs| ==> (ids[i] in r.value <==> Matches(ReferenceOf(refBody).value, objs[i], tol))
  {
    var reference := ExtractReference(refBody);
    if reference.Failure? {
      return Failure(reference.error);
    }
    var ref := reference.value;
    var distances := if ref.BrepSig? then ref.distances else [];
    var dList := new real[|distances|](i requires 0 <= i < |distances| => distances[i]);
    assert dList[..] == distances;
    var matchIndex := Scan(ref, dList, objs, tol);
    var matches := seq(|matchIndex|, k requires 0 <= k < |matchIndex| => ids[matchIndex[k]]);
    r := Success(matches);
    if forall p, q :: 0 <= p < q < |ids| ==> ids[p] != ids[q] {
      forall i | 0 <= i < |objs|
        ensures ids[i] in matches <==> i in matchIndex
      {
        PickedMembership(ids, matchIndex, matches, i);
      }
    }
  }

  /** With unique ids, the id at position `i` is picked exactly when `i` is. */
  lemma PickedMembership<Id>(ids: seq<Id>, idx: seq<nat>, picked: seq<Id>, i: nat)
    requires forall p, q :: 0 <= p < q < |ids| ==> ids[p] != ids[q]
    requires forall k :: 0 <= k < |idx| ==> idx[k] < |ids|
    requires |picked| == |idx| && forall k :: 0 <= k < |idx| ==> picked[k] == ids[idx[k]]
    requires i < |ids|
    ensures ids[i] in picked <==> i in idx
  {
    if ids[i] in picked {
      var k :| 0 <= k < |picked| && picked[k] == ids[i];
      assert ids[idx[k]] == ids[i];
    }
    if i in idx {
      var k :| 0 <= k < |idx| && idx[k] == i;
      assert picked[k] == ids[i];
    }
  }
}
