/** The per-candidate decision of FindSimilarVolumesPlus (lines 79-107): a
    fixed cascade of gates, cheap ones first, each comparing one measurement of
    the candidate with the reference's. */
module Cascade {
  import opened Wrappers
  import opened DistanceLists
  import opened Edges

  /** What the run keeps about the reference object: its volume and area, and
      either the edge count, total edge length and edge-start distances of a
      brep or the face and vertex counts of a mesh. */
  datatype Signature =
    | BrepSig(volume: real, area: real, edgeCount: nat, edgeLength: real, distances: seq<real>)
    | MeshSig(volume: real, area: real, faceCount: nat, vertexCount: nat)

  /** A candidate object as the host geometry library answers for it. `volume`
      is None when the host's volume computation fails (degenerate geometry). */
  datatype Body =
    | Brep(isSolid: bool, volume: Option<real>, area: real, edges: seq<Edge>)
    | Mesh(isClosed: bool, volume: Option<real>, area: real, faceCount: nat, vertexCount: nat)

  /** The outcome for one candidate: the first gate it fails, or Accepted. */
  datatype Verdict =
    | Ineligible | NoVolume | VolumeMismatch | AreaMismatch
    | StructureMismatch | DistanceMismatch | Accepted

  /** Candidates are collected by the reference's kind, so they share it. */
  predicate SameKind(ref: Signature, body: Body)
  {
    ref.BrepSig? <==> body.Brep?
  }

  /** Line 80: a brep must be a closed solid, a mesh must be closed. */
  predicate Eligible(body: Body)
  {
    match body
    case Brep(solid, _, _, _) => solid
    case Mesh(closed, _, _, _, _) => closed
  }

  /** `errVTol` (lines 30, 56): none for a brep, the reference volume times
      `tol` for a mesh. */
  function VolumeSlack(ref: Signature, tol: real): real
  {
    if ref.MeshSig? then ref.volume * tol else 0.0
  }

  /** `errATol` (lines 30, 56): none for a brep, the reference area times
      `tol` for a mesh. */
  function AreaSlack(ref: Signature, tol: real): real
  {
    if ref.MeshSig? then ref.area * tol else 0.0
  }

  /** Line 84. */
  predicate VolumeGate(ref: Signature, volume: real, tol: real)
  {
    Abs(volume - ref.volume) < tol + VolumeSlack(ref, tol)
  }

  /** Line 87. */
  predicate AreaGate(ref: Signature, area: real, tol: real)
  {
    Abs(area - ref.area) < tol + AreaSlack(ref, tol)
  }

  /** Line 97 (brep) and lines 104-105 (mesh). */
  predicate StructureGate(ref: Signature, body: Body, tol: real)
    requires SameKind(ref, body)
  {
    match body
    case Brep(_, _, _, edges) =>
      |edges| == ref.edgeCount && Abs(Sum(Lengths(edges)) - ref.edgeLength) < tol
    case Mesh(_, _, _, faces, vertices) =>
      faces == ref.faceCount && vertices == ref.vertexCount
  }

  /** Line 100; a mesh has no distance gate. */
  predicate DistanceGate(ref: Signature, body: Body, tol: real)
    requires SameKind(ref, body)
  {
    body.Brep? ==> Agree(ref.distances, CurveDistanceList(body.edges), tol)
  }

  /** The cascade of lines 80-107: the first gate the candidate fails, or
      Accepted. */
  function Check(ref: Signature, body: Body, tol: real): Verdict
    requires SameKind(ref, body)
  {
    if !Eligible(body) then Ineligible
    else if body.volume.None? then NoVolume
    else if !VolumeGate(ref, body.volume.value, tol) then VolumeMismatch
    else if !AreaGate(ref, body.area, tol) then AreaMismatch
    else if !StructureGate(ref, body, tol) then StructureMismatch
    else if !DistanceGate(ref, body, tol) then DistanceMismatch
    else Accepted
  }

  /** A candidate is accepted exactly when it passes every gate, and a
      rejection names the first gate that failed: every earlier gate passed. */
  lemma CheckNamesFirstFailingGate(ref: Signature, body: Body, tol: real)
    requires SameKind(ref, body)
    ensures Check(ref, body, tol) == Accepted <==>
      Eligible(body) && body.volume.Some? && VolumeGate(ref, body.volume.value, tol)
      && AreaGate(ref, body.area, tol) && StructureGate(ref, body, tol) && DistanceGate(ref, body, tol)
    ensures Check(ref, body, tol) == Ineligible <==> !Eligible(body)
    ensures Check(ref, body, tol) == NoVolume <==> Eligible(body) && body.volume.None?
    ensures Check(ref, body, tol) == VolumeMismatch <==>
      Eligible(body) && body.volume.Some? && !VolumeGate(ref, body.volume.value, tol)
    ensures Check(ref, body, tol) == AreaMismatch <==>
      Eligible(body) && body.volume.Some? && VolumeGate(ref, body.volume.value, tol)
      && !AreaGate(ref, body.area, tol)
    ensures Check(ref, body, tol) == StructureMismatch <==>
      Eligible(body) && body.volume.Some? && VolumeGate(ref, body.volume.value, tol)
      && AreaGate(ref, body.area, tol) && !StructureGate(ref, body, tol)
    ensures Check(ref, body, tol) == DistanceMismatch ==> body.Brep?
  {
  }

  predicate Matches(ref: Signature, body: Body, tol: real)
    requires SameKind(ref, body)
  {
    Check(ref, body, tol) == Accepted
  }

  /** The gates' thresholds spelled out: a brep's volume and area must agree
      within `tol`; a mesh's within `tol` scaled by one plus the reference
      volume, respectively area. */
  lemma GateThresholds(ref: Signature, volume: real, area: real, tol: real)
    ensures ref.BrepSig? ==> (VolumeGate(ref, volume, tol) <==> Abs(volume - ref.volume) < tol)
    ensures ref.BrepSig? ==> (AreaGate(ref, area, tol) <==> Abs(area - ref.area) < tol)
    ensures ref.MeshSig? ==> (VolumeGate(ref, volume, tol) <==> Abs(volume - ref.volume) < tol * (1.0 + ref.volume))
    ensures ref.MeshSig? ==> (AreaGate(ref, area, tol) <==> Abs(area - ref.area) < tol * (1.0 + ref.area))
  {
  }

  /** The gates compare strictly: a candidate whose volume is off by exactly
      the threshold is rejected at the volume gate, whatever else it has. */
  lemma VolumeBoundaryRejected(ref: Signature, body: Body, tol: real)
    requires SameKind(ref, body) && Eligible(body) && body.volume.Some?
    requires Abs(body.volume.value - ref.volume) == tol + VolumeSlack(ref, tol)
    ensures Check(ref, body, tol) == VolumeMismatch
  {
  }

  /** The host may list a solid's edges in any order (a rotated copy usually
      does): the verdict is the same for every order. */
  lemma EdgeOrderIrrelevant(ref: Signature, body: Body, edges: seq<Edge>, tol: real)
    requires SameKind(ref, body) && body.Brep?
    requires multiset(edges) == multiset(body.edges)
    ensures Check(ref, body.(edges := edges), tol) == Check(ref, body, tol)
  {
    TotalLengthIgnoresOrder(edges, body.edges);
    EdgePermutation(edges, body.edges);
    AgreeIgnoresOrder(ref.distances, ref.distances, CurveDistanceList(edges), CurveDistanceList(body.edges), tol);
    assert |edges| == |multiset(edges)| == |body.edges|;
  }

  /** Loosening the tolerance never loses a match (for a reference whose
      volume and area are not negative). */
  lemma LooserToleranceKeepsMatches(ref: Signature, body: Body, tol: real, looser: real)
    requires SameKind(ref, body)
    requires 0.0 <= tol <= looser && 0.0 <= ref.volume && 0.0 <= ref.area
    requires Matches(ref, body, tol)
    ensures Matches(ref, body, looser)
  {
    CheckNamesFirstFailingGate(ref, body, tol);
    CheckNamesFirstFailingGate(ref, body, looser);
    SlacksMonotone(ref, tol, looser);
    if body.Brep? {
      AgreeMonotone(ref.distances, CurveDistanceList(body.edges), tol, looser);
    }
  }

  lemma SlacksMonotone(ref: Signature, tol: real, looser: real)
    requires tol <= looser && 0.0 <= ref.volume && 0.0 <= ref.area
    ensures VolumeSlack(ref, tol) <= VolumeSlack(ref, looser)
    ensures AreaSlack(ref, tol) <= AreaSlack(ref, looser)
  {
    MultiplyMonotone(ref.volume, tol, looser);
    MultiplyMonotone(ref.area, tol, looser);
  }

  lemma MultiplyMonotone(k: real, x: real, y: real)
    requires 0.0 <= k && x <= y
    ensures k * x <= k * y
  {
    assert k * y - k * x == k * (y - x);
  }
}
