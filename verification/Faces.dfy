/** Faces between leaves of one tree: tables, and the structural specification of the face
    iterator as a recursion on two subtrees that touch. */
module Faces {
  import opened Quadrants

  type Dim = d: int | d == 2 || d == 3 witness 2

  function NumChildren(d: Dim): Arity {
    if d == 2 then 4 else 8
  }

  function Half(d: Dim): nat {
    if d == 2 then 2 else 4
  }

  // ---------------------------------------------------------------- tables of the source

  const FACE_CORNERS_2D: seq<seq<nat>> := [[0, 2], [1, 3], [0, 1], [2, 3]]
  const FACE_CORNERS_3D: seq<seq<nat>> :=
      [[0, 2, 4, 6], [1, 3, 5, 7], [0, 1, 4, 5], [2, 3, 6, 7], [0, 1, 2, 3], [4, 5, 6, 7]]
  const FACE_PERMUTATION_REFS: seq<seq<nat>> :=
    [[0, 1, 1, 0, 0, 1], [2, 0, 0, 1, 1, 0], [2, 0, 0, 1, 1, 0], [0, 2, 2, 0, 0, 1], [0, 2, 2, 0, 0, 1],
     [2, 0, 0, 2, 2, 0]]
  const FACE_PERMUTATION_SETS: seq<seq<nat>> := [[1, 2, 5, 6], [0, 3, 4, 7], [0, 4, 3, 7]]
  const FACE_PERMUTATIONS: seq<seq<nat>> :=
    [[0, 1, 2, 3], [0, 2, 1, 3], [1, 0, 3, 2], [1, 3, 0, 2], [2, 0, 3, 1], [2, 3, 0, 1], [3, 1, 2, 0], [3, 2, 1, 0]]
  const FACE_DUAL: seq<nat> := [1, 0, 3, 2, 5, 4]
  const FACE_SEQUENCE_2D: seq<nat> := [1, 3, 3, 1]
  const FACE_SEQUENCE_3D: seq<nat> := [1, 3, 5, 3, 5, 1, 5, 5, 1, 3, 3, 1]
  const FACE_CHILD_2D: seq<nat> := [0, 0, 1, 2]
  const FACE_CHILD_3D: seq<nat> := [0, 0, 0, 1, 1, 2, 2, 3, 4, 4, 5, 6]
  const CHILDREN_FACE_NEIGHBORS_2D: seq<seq<int>> := [[-1, 1, -1, 2], [0, -1, -1, 3], [-1, 3, 0, -1], [2, -1, 1, -1]]
  const CHILDREN_FACE_NEIGHBORS_3D: seq<seq<int>> :=
    [[-1, 1, -1, 2, -1, 4], [0, -1, -1, 3, -1, 5], [-1, 3, 0, -1, -1, 6], [2, -1, 1, -1, -1, 7],
     [-1, 5, -1, 6, 0, -1], [4, -1, -1, 7, 1, -1], [-1, 7, 4, -1, 2, -1], [6, -1, 5, -1, 3, -1]]

  /** p4est3_connectivity_get_face_child_id */
  function FaceCorner(d: Dim, face: nat, i: nat): nat
    requires face < 2 * d && i < Half(d)
  {
    if d == 2 then FACE_CORNERS_2D[face][i] else FACE_CORNERS_3D[face][i]
  }

  /** p4est3_connectivity_get_neighbor_face_corner with orientation 0, in xor form for 2D. */
  function NeighborFaceCorner(d: Dim, face: nat, neighborFace: nat, i: nat): nat
    requires face < 2 * d && neighborFace < 2 * d && i < Half(d)
  {
    if d == 2 then i
    else FACE_PERMUTATIONS[FACE_PERMUTATION_SETS[FACE_PERMUTATION_REFS[face][neighborFace]][0]][i]
  }

  function NumInnerFaces(d: Dim): nat {
    if d == 2 then 4 else 12
  }

  function FaceSequence(d: Dim, i: nat): nat
    requires i < NumInnerFaces(d)
  {
    if d == 2 then FACE_SEQUENCE_2D[i] else FACE_SEQUENCE_3D[i]
  }

  function FaceChild(d: Dim, i: nat): nat
    requires i < NumInnerFaces(d)
  {
    if d == 2 then FACE_CHILD_2D[i] else FACE_CHILD_3D[i]
  }

  function ChildFaceNeighbor(d: Dim, child: nat, face: nat): int
    requires child < NumChildren(d) && face < 2 * d
  {
    if d == 2 then CHILDREN_FACE_NEIGHBORS_2D[child][face] else CHILDREN_FACE_NEIGHBORS_3D[child][face]
  }

  // ---------------------------------------------------------------- what the tables mean

  function LowerFace(k: nat): nat {
    2 * k
  }

  function UpperFace(k: nat): nat {
    2 * k + 1
  }

  /** Length of one step along an axis in child ids. */
  function Step(k: nat): nat
    requires k < 3
  {
    if k == 0 then 1 else if k == 1 then 2 else 4
  }

  /** Child x lies in the upper half along axis k. */
  predicate Upper(x: nat, k: nat)
    requires k < 3
  {
    if k == 0 then x % 2 == 1 else if k == 1 then (x / 2) % 2 == 1 else (x / 4) % 2 == 1
  }

  /** The corners of a face are the children on that side of the axis, each once. */
  lemma FaceCornersAreTheSide(d: Dim, k: nat, x: nat)
    requires k < d && x < NumChildren(d)
    ensures !Upper(x, k) <==> exists i :: 0 <= i < Half(d) && FaceCorner(d, LowerFace(k), i) == x
    ensures Upper(x, k) <==> exists i :: 0 <= i < Half(d) && FaceCorner(d, UpperFace(k), i) == x
  {
    var i := if k == 0 then x / 2 else if k == 1 then x % 2 + x / 4 * 2 else x % 4;
    assert 0 <= i < Half(d);
    if Upper(x, k) {
      assert FaceCorner(d, UpperFace(k), i) == x;
      forall j | 0 <= j < Half(d)
        ensures FaceCorner(d, LowerFace(k), j) != x
      {
      }
    } else {
      assert FaceCorner(d, LowerFace(k), i) == x;
      forall j | 0 <= j < Half(d)
        ensures FaceCorner(d, UpperFace(k), j) != x
      {
      }
    }
  }

  lemma FaceCornerFacts(d: Dim, k: nat, i: nat)
    requires k < d && i < Half(d)
    ensures FaceCorner(d, LowerFace(k), i) < NumChildren(d) && FaceCorner(d, UpperFace(k), i) < NumChildren(d)
    ensures !Upper(FaceCorner(d, LowerFace(k), i), k) && Upper(FaceCorner(d, UpperFace(k), i), k)
    ensures FaceCorner(d, UpperFace(k), i) == FaceCorner(d, LowerFace(k), i) + Step(k)
    ensures NeighborFaceCorner(d, UpperFace(k), LowerFace(k), i) == i
    ensures FACE_DUAL[UpperFace(k)] == LowerFace(k)
  {
  }

  lemma FaceCornerInjective(d: Dim, face: nat, i: nat, j: nat)
    requires face < 2 * d && i < Half(d) && j < Half(d) && FaceCorner(d, face, i) == FaceCorner(d, face, j)
    ensures i == j
  {
  }

  lemma NeighborAcross3D(i: nat)
    requires i < 12
    ensures var f, x := FACE_SEQUENCE_3D[i], FACE_CHILD_3D[i];
            x < 8 && f < 6 && f % 2 == 1 && CHILDREN_FACE_NEIGHBORS_3D[x][f] == x + Step(f / 2)
  {
    match i
    case 0 => case 1 => case 2 => case 3 => case 4 => case 5 =>
    case 6 => case 7 => case 8 => case 9 => case 10 => case 11 =>
  }

  /** The inner faces of a quadrant: every child in the lower half of an axis with its
      upper neighbor along it, each once. */
  lemma InnerFaceFacts(d: Dim, i: nat)
    requires i < NumInnerFaces(d)
    ensures FaceSequence(d, i) % 2 == 1 && FaceSequence(d, i) / 2 < d && FaceChild(d, i) < NumChildren(d)
    ensures var k := FaceSequence(d, i) / 2;
            !Upper(FaceChild(d, i), k) && FaceChild(d, i) + Step(k) < NumChildren(d)
            && ChildFaceNeighbor(d, FaceChild(d, i), FaceSequence(d, i)) == FaceChild(d, i) + Step(k)
  {
    if d == 2 {
      assert i == 0 || i == 1 || i == 2 || i == 3;
    } else {
      NeighborAcross3D(i);
    }
  }

  lemma InnerFaceExists(d: Dim, k: nat, x: nat)
    requires k < d && x < NumChildren(d) && !Upper(x, k)
    ensures exists i :: 0 <= i < NumInnerFaces(d) && FaceSequence(d, i) == UpperFace(k) && FaceChild(d, i) == x
  {
    var i := if d == 2 then (if x == 0 then k else if x == 1 then 2 else 3)
             else if x == 0 then k
             else if x == 1 then 2 + k
             else if x == 2 then (if k == 0 then 5 else 6)
             else if x == 3 then 7
             else if x == 4 then 8 + k
             else if x == 5 then 10
             else 11;
    assert FaceSequence(d, i) == UpperFace(k) && FaceChild(d, i) == x;
  }

  lemma InnerFaceInjective(d: Dim, i: nat, j: nat)
    requires i < NumInnerFaces(d) && j < NumInnerFaces(d)
    requires FaceSequence(d, i) == FaceSequence(d, j) && FaceChild(d, i) == FaceChild(d, j)
    ensures i == j
  {
  }
}
