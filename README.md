# FindSimilarVolumesPlus, modelled in Dafny

FindSimilarVolumesPlus is a Rhino script that takes a reference object (a closed
brep or a closed mesh) and selects every other object of the same kind that is
congruent to it up to a rotation or translation. It does not compare shapes
exactly. Instead it runs each candidate through a cascade of cheap numeric
gates, each within the document's absolute tolerance `tol`:

1. the candidate must be a closed solid (brep) or a closed mesh;
2. its volume computation must succeed;
3. volume gate: `|vol - refVol| < tol + errVTol`;
4. area gate: `|area - refArea| < tol + errATol`;
5. structure gate: a brep needs the same edge count and a total edge length
   within `tol`; a mesh needs the same face count and vertex count;
6. brep only, distance gate: the multiset of distances from each edge's start
   point to the volume centroid must match the reference's within `tol`.

The distance gate is `CheckTwoDistanceLists`. It sorts both lists in place and
compares them rank by rank.

The model is split into modules:

- `DistanceLists` holds the sort, the distance comparison and its properties.
- `Edges` holds the edge records, the edge-length loop and the start-distance list.
- `Cascade` holds the gates and the verdict.
- `Setup` reads the reference object.
- `Scanner` holds the per-candidate check, the scan loop and the mapping back to ids.

The specification of each imperative part is a function:

- `Sort` specifies the in-place sort.
- `Agree` specifies `CheckTwoDistanceLists`.
- `Check`/`Matches` specify the per-candidate code.
- `MatchingIndices` specifies the scan.

The methods are proved against these functions, and the properties are proved
about the functions.

Points where the code decides:

- `errVTol` for a mesh is the reference *volume* times `tol`, as on line 56.
  The reference area is not used for it.
- The distance gate rejects only on a difference strictly greater than `tol`
  (line 24), so a difference equal to `tol` passes. The other gates compare
  with a strict `<` (lines 84, 87, 97).
- A mesh reference stops the script at line 53 (see Findings).

Measurements from the host geometry library are inputs. These are volume
(`None` when its computation fails), area, the closed/solid flags, edge
lengths, edge-start-to-centroid distances, and face and vertex counts.

## Model

| member | source | states |
|---|---|---|
| `DistanceLists.Sort` | FindSimilarVolumesPlus.py:22 | the sorted list is ascending and holds exactly the elements of the input (same multiset, same length) |
| `DistanceLists.SortedUnique` | FindSimilarVolumesPlus.py:22 | two ascending arrangements of one multiset are equal, so what the in-place sort leaves depends only on the list's contents |
| `DistanceLists.SortInPlace` | FindSimilarVolumesPlus.py:22 | after `list.sort()` the array holds the ascending arrangement of its old contents |
| `DistanceLists.CompareRanks` | FindSimilarVolumesPlus.py:23-25 | the rank-by-rank scan answers True exactly when no difference at equal positions is strictly greater than `tol` |
| `DistanceLists.CheckTwoDistanceLists` | FindSimilarVolumesPlus.py:20-25 | the verdict is `Agree` of the two lists as they were before the call; with different lengths it is False and neither list is touched; with equal lengths both lists are left sorted ascending |
| `DistanceLists.AgreeIgnoresOrder` | FindSimilarVolumesPlus.py:22 | the verdict does not change when either list is rearranged |
| `DistanceLists.AgreeWithPermutation` | FindSimilarVolumesPlus.py:20-25 | a list passes against any rearranged copy of itself for every `tol >= 0` |
| `DistanceLists.AgreeExactly` | FindSimilarVolumesPlus.py:20-25 | at `tol = 0` the check holds exactly when the two lists hold the same multiset, in both directions |
| `DistanceLists.ShiftedListAgrees` | FindSimilarVolumesPlus.py:24 | a non-empty list against itself with `d` added to every element passes exactly when `abs(d) <= tol`, so a difference equal to `tol` is accepted and anything larger is rejected |
| `DistanceLists.AgreeMonotone` | FindSimilarVolumesPlus.py:24 | whatever passes at one tolerance passes at any larger tolerance |
| `DistanceLists.ResortedAgreesAlike` | FindSimilarVolumesPlus.py:99-100 | comparing against the reference list after an earlier call has sorted it gives the same verdict as against the list as first built |
| `Edges.TotalEdgeLength` | FindSimilarVolumesPlus.py:92-96 | the accumulation loop returns the sum of the edge lengths |
| `Edges.SumPermutation` | FindSimilarVolumesPlus.py:94-96 | the accumulated sum does not depend on the order of the summands |
| `Edges.EdgePermutation` | FindSimilarVolumesPlus.py:18 | rearranging the edges rearranges their lengths and their start-to-centroid distances and changes neither multiset |
| `Edges.TotalLengthIgnoresOrder` | FindSimilarVolumesPlus.py:40-42 | the total edge length is the same whatever order the host lists the edges in |
| `Cascade.CheckNamesFirstFailingGate` | FindSimilarVolumesPlus.py:80-107 | a candidate is accepted exactly when it is eligible, has a volume and passes the volume, area, structure and (brep) distance gates; every rejection names the first failing gate, and all the gates before it passed |
| `Cascade.GateThresholds` | FindSimilarVolumesPlus.py:55-56 | a brep's volume and area must be within `tol` (no slack); a mesh's must be within `tol * (1 + refVol)` and `tol * (1 + refArea)` |
| `Cascade.VolumeBoundaryRejected` | FindSimilarVolumesPlus.py:84 | a candidate whose volume is off by exactly `tol + errVTol` is rejected at the volume gate |
| `Cascade.EdgeOrderIrrelevant` | FindSimilarVolumesPlus.py:91-100 | rearranging a brep candidate's edges does not change its verdict |
| `Cascade.LooserToleranceKeepsMatches` | FindSimilarVolumesPlus.py:28-29 | for a reference with non-negative volume and area, a candidate matching at `tol` still matches at any larger tolerance |
| `Setup.ReferenceOf` | FindSimilarVolumesPlus.py:34-56 | corrected setup: the reference is read exactly when its volume computes, with the reference's kind, volume and area; a brep reference gets the edge count, the total edge length and one start-to-centroid distance per edge, a mesh reference its face and vertex counts |
| `Setup.ReferenceAsWritten` | FindSimilarVolumesPlus.py:34-56 | as written: same as the corrected setup for breps; every mesh reference stops, with the missing-volume error when its volume does not compute (line 50, reached first) and with the unbound-edges error otherwise (line 53) |
| `Setup.MeshReferenceNeverScans` | FindSimilarVolumesPlus.py:53 | as written, a closed mesh reference fails before the scan, although the corrected setup accepts an identical copy of it |
| `Setup.SelfMatch` | FindSimilarVolumesPlus.py:79-107 | an eligible body with a volume, used as the reference, matches an identical copy of itself for any positive `tol` (a mesh also needs non-negative volume and area, since its slacks scale with them) |
| `Setup.ExtractReference` | FindSimilarVolumesPlus.py:34-52 | reading the reference, including the edge-length loop, yields the corrected setup's result |
| `Scanner.MatchingIndices` | FindSimilarVolumesPlus.py:78-108 | the collected positions are strictly increasing and in range, and position `i` is among them exactly when candidate `i` matches |
| `Scanner.CheckCandidate` | FindSimilarVolumesPlus.py:80-107 | the nested tests accept exactly the candidates `Matches` accepts; the shared reference distance list keeps its elements |
| `Scanner.CheckEdges` | FindSimilarVolumesPlus.py:89-102 | a brep candidate that reached this point passes exactly when it passes the structure gate and the distance gate; when the structure gate passes and the lengths agree, the shared reference distance list is left sorted ascending, and otherwise it is untouched |
| `Scanner.Scan` | FindSimilarVolumesPlus.py:78-108 | `matchIndex` equals `MatchingIndices` over all candidates; the reference distance list keeps its elements |
| `Scanner.FindSimilarVolumesPlus` | FindSimilarVolumesPlus.py:78-110 | the run succeeds exactly when the reference volume computes; it returns the ids of the matching candidates in input order; with unique ids, an id is returned exactly when its object matches |

## Left out

- Host geometry calls are not modelled. This covers `rs.GetObject`, `rs.ObjectsByType`, `coercebrep`/`coercemesh`, volume and area mass properties, `Edges`, `PointAtStart` and `GetLength`. Their results are fields of the `Body` record.
- The point distance inside `CurveDistanceList` (line 18) is not modelled. Each edge carries its start-to-centroid distance as a given real.
- Floating point is not modelled. Measurements and `tol` are exact reals, compared with `<` and `<=` as the code does.
- Python's sort is Timsort; the model sorts by insertion. Both leave the unique ascending arrangement (`SortedUnique`), so the difference has no effect.
- The candidate's start-point list `eStPts` (lines 93, 95) is built but never read. Line 99 measures from `edges`, so the list is omitted.
- The area computation (lines 51-52, 86-87) is taken to succeed. If it returned nothing, the script would stop with an attribute error; this is not modelled.
- Object collection and the early returns are not modelled (lines 58-72). This covers fetching by type, fewer than two objects and removing the reference id. The model starts from the prepared candidate list and its ids.
- A failed coercion is not modelled. The guard at line 71 compares two lists of equal length, so it never fires. A `None` candidate would stop the run at line 80.
- User interface and reporting are not modelled (lines 74-77, 108, 111-119, 120). This covers prompts, the progress meter, redraw, selection, timing, messages and the top-level call.
- Candidates of a kind other than the reference's are excluded by a precondition (`SameKind`). The script fetches candidates by the reference's type (lines 59-62).
- Scanner.Scan: states only that the shared reference distance list keeps its multiset, not the exact order in which it is left. The order is sorted after the first brep comparison.
- Scanner.CheckCandidate: states only that the shared reference distance list keeps its multiset, not that it ends sorted.
- Scanner.FindSimilarVolumesPlus: the run uses the corrected reference setup (`Setup.ReferenceOf`). As written, a mesh reference stops at line 53 (see Findings).

## Findings

| source | as written | input that shows it | evidently intended | confidence | as-written member | corrected member |
|---|---|---|---|---|---|---|
| FindSimilarVolumesPlus.py:53 | the reference distance list is built from `refEdges` for every reference, but `refEdges` is bound only in the brep branch (line 38) | any mesh reference whose volume computes, e.g. a closed mesh cube: the name is unbound and the run stops before any candidate is checked | build the distance list for brep references only, so that a mesh reference reaches the mesh gates of lines 104-107 (the header says meshes are supported) | high; not executed | `Setup.ReferenceAsWritten` | `Setup.ReferenceOf` |
