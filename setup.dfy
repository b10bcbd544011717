/** Reading the reference object (lines 34-56): its volume, area and, for a
    brep, edge count, total edge length and edge-start distances; for a mesh,
    face and vertex counts. */
module Setup {
  import opened Wrappers
  import opened DistanceLists
  import opened Edges
  import opened Cascade

  /** Why a run stops before any candidate is looked at. */
  datatype SetupError =
    | NoReferenceVolume      // line 50 reads the volume of a failed computation
    | ReferenceEdgesUnbound  // line 53 reads `refEdges`, bound only for a brep

  /** The reference's signature, with the distance list built for breps
      only: the run goes on for every reference whose volume is computed. */
  function ReferenceOf(body: Body): (r: Result<Signature, SetupError>)
    ensures r.Success? <==> body.volume.Some?
    ensures r.Failure? ==> r.error == NoReferenceVolume
    ensures r.Success? ==> SameKind(r.value, body)
    ensures r.Success? ==> r.value.volume == body.volume.value && r.value.area == body.area
    ensures r.Success? && body.Brep? ==>
      r.value.edgeCount == |body.edges| && r.value.edgeLength == Sum(Lengths(body.edges))
      && r.value.distances == CurveDistanceList(body.edges)
    ensures r.Success? && body.Mesh? ==>
      r.value.faceCount == body.faceCount && r.value.vertexCount == body.vertexCount
    ensures r.Success? && r.value.BrepSig? ==> |r.value.distances| == r.value.edgeCount
  {
    match body
    case Brep(_, volume, area, edges) =>
      if volume.None? then Failure(NoReferenceVolume)
      else Success(BrepSig(volume.value, area, |edges|, Sum(Lengths(edges)), CurveDistanceList(edges)))
    case Mesh(_, volume, area, faces, vertices) =>
      if volume.None? then Failure(NoReferenceVolume)
      else Success(MeshSig(volume.value, area, faces, vertices))
  }

  /** Lines 34-56 as the code reads: the distance list of line 53 is built
      for every reference, and for a mesh reference it names edges that were
      never bound, so the run stops there. */
  function ReferenceAsWritten(body: Body): (r: Result<Signature, SetupError>)
    ensures body.Brep? ==> r == ReferenceOf(body)
    ensures body.Mesh? ==>
      r == Failure(if body.volume.Some? then ReferenceEdgesUnbound else NoReferenceVolume)
  {
    if body.Mesh? && body.volume.Some? then Failure(ReferenceEdgesUnbound)
    else ReferenceOf(body)
  }

  /** As written, no mesh reference ever reaches the scan, not even against
      an identical copy of itself, which the corrected setup finds. */
  lemma MeshReferenceNeverScans(body: Body, tol: real)
    requires body.Mesh? && Eligible(body) && body.volume.Some?
    requires 0.0 <= body.volume.value && 0.0 <= body.area && 0.0 < tol
    ensures ReferenceAsWritten(body) == Failure(ReferenceEdgesUnbound)
    ensures ReferenceOf(body).Success? && Matches(ReferenceOf(body).value, body, tol)
  {
    SelfMatch(body, tol);
  }

  /** Every eligible body used as the reference matches an identical copy of
      itself, for any positive tolerance. A mesh needs non-negative volume and
      area, so that its slacks do not eat up the tolerance. */
  lemma SelfMatch(body: Body, tol: real)
    requires Eligible(body) && body.volume.Some? && 0.0 < tol
    requires body.Mesh? ==> 0.0 <= body.volume.value && 0.0 <= body.area
    ensures ReferenceOf(body).Success? && Matches(ReferenceOf(body).value, body, tol)
  {
    var ref := ReferenceOf(body).value;
    assert 0.0 <= VolumeSlack(ref, tol) && 0.0 <= AreaSlack(ref, tol);
    if body.Brep? {
      var d := CurveDistanceList(body.edges);
      AgreeWithPermutation(d, d, tol);
    }
  }

  /** The reference is read once; the brep branch accumulates the total edge
      length in a loop (lines 40-42). */
  method ExtractReference(body: Body) returns (r: Result<Signature, SetupError>)
    ensures r == ReferenceOf(body)
  {
    match body
    case Brep(_, volume, area, edges) =>
      var refEdgeCount := |edges|;
      var refELen := TotalEdgeLength(edges);
      if volume.None? {
        return Failure(NoReferenceVolume);
      }
      var dList := CurveDistanceList(edges);
      r := Success(BrepSig(volume.value, area, refEdgeCount, refELen, dList));
    case Mesh(_, volume, area, faces, vertices) =>
      if volume.None? {
        return Failure(NoReferenceVolume);
      }
      r := Success(MeshSig(volume.value, area, faces, vertices));
  }
}
