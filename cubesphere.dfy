/**
 * The tree `make_cubesphere` assembles: an Empty root carrying the given
 * scale, with six Planet children, one per cube face. The face meshes and
 * their upload (`Mesh::cs_plane` and `mkvao`) are not part of this model: the
 * vertex array each face gets is supplied as a function of the arguments of
 * its `cs_plane` call.
 */
module Cubesphere {
  import opened Prelude
  import opened Glm
  import opened SceneNodes
  import opened Forest
  import opened Transforms
  import opened Drawing

  datatype Face = Top | Bottom | Front | Back | Left | Right

  /** The faces in the order their nodes are created and added as children. */
  const Faces: seq<Face> := [Top, Bottom, Front, Back, Left, Right]

  /** Euler angles counted in quarter turns (multiples of pi/2). */
  datatype QuarterTurns = QuarterTurns(x: int, y: int, z: int)

  /** The arguments of one `Mesh::cs_plane` call: scale, rotation, face normal, subdivisions, flag, colour. */
  datatype CsPlane = CsPlane(scale: Vec3, rotation: QuarterTurns, normal: Vec3, subdivisions: nat, flag: bool, color: Option<Vec4>)

  /** The subdivision count actually used, whatever the caller asks for. */
  const Subdivisions: nat := 256

  /** The colour actually used, whatever the caller asks for. */
  const PlanetColor: Vec4 := Vec4(0.2, 0.8, 0.4, 1.0)

  /** The `cs_plane` arguments of each face. */
  function FacePlane(f: Face): (plane: CsPlane)
    ensures plane.scale == Vec3(1.0, 1.0, 1.0) && plane.flag
    ensures plane.subdivisions == Subdivisions && plane.color == Some(PlanetColor)
  {
    var (rotation, normal) := match f
      case Top => (QuarterTurns(0, 0, 0), Vec3(0.0, 1.0, 0.0))
      case Bottom => (QuarterTurns(2, 0, 0), Vec3(0.0, -1.0, 0.0))
      case Front => (QuarterTurns(1, 0, 0), Vec3(0.0, 0.0, 1.0))
      case Back => (QuarterTurns(-1, 0, 0), Vec3(0.0, 0.0, -1.0))
      case Left => (QuarterTurns(0, 0, -1), Vec3(1.0, 0.0, 0.0))
      case Right => (QuarterTurns(0, 0, 1), Vec3(-1.0, 0.0, 0.0));
    CsPlane(Vec3(1.0, 1.0, 1.0), rotation, normal, Subdivisions, true, Some(PlanetColor))
  }

  /** A face node: `from_vao` of the face's vertex array, retyped as Planet. */
  function PlanetFace(v: VaoObj): SceneNode {
    FromVao(v).(nodeType := Planet)
  }

  /**
   * The seven nodes `make_cubesphere` allocates, as they stand when it
   * returns, if the first lands at arena index `base`: the root, then the six
   * faces in `Faces` order.
   */
  function CubesphereNodes(base: nat, scale: Vec3, mkvao: CsPlane -> VaoObj): seq<SceneNode> {
    [CubesphereRoot(base, scale)] + CubesphereFaces(mkvao)
  }

  /** The rank that witnesses acyclicity after the cubesphere is appended to an arena ranked by `rank`. */
  function CubesphereRank(rank: seq<nat>): seq<nat> {
    rank + [1, 0, 0, 0, 0, 0, 0]
  }

  /** The cubesphere root as `make_cubesphere` leaves it, for a root at index `b`. */
  function CubesphereRoot(b: nat, scale: Vec3): SceneNode {
    WithType(Empty).(scale := scale, children := [b + 1, b + 2, b + 3, b + 4, b + 5, b + 6])
  }

  /**
   * The arena holds a cubesphere with its root at `b` and its faces right
   * after, whatever world matrices the transform pass has since stored in them.
   */
  ghost predicate CubesphereAt(all: seq<SceneNode>, b: nat, scale: Vec3, mkvao: CsPlane -> VaoObj) {
    && b + 7 <= |all|
    && all[b].(matrix := Identity()) == CubesphereRoot(b, scale)
    && forall j :: b < j < b + 7 ==> all[j].(matrix := Identity()) == PlanetFace(mkvao(FacePlane(Faces[j - b - 1])))
  }

  /** The six face nodes in `Faces` order. */
  function CubesphereFaces(mkvao: CsPlane -> VaoObj): (faces: seq<SceneNode>)
    ensures |faces| == 6
    ensures forall k :: 0 <= k < 6 ==> faces[k] == PlanetFace(mkvao(FacePlane(Faces[k])))
  {
    seq(6, k requires 0 <= k < 6 => PlanetFace(mkvao(FacePlane(Faces[k]))))
  }

  /** The nodes appended by `make_cubesphere` form a cubesphere at the first free index, and the old nodes stay where they were. */
  lemma CubesphereLayout(nodes: seq<SceneNode>, scale: Vec3, mkvao: CsPlane -> VaoObj)
    ensures var all := nodes + CubesphereNodes(|nodes|, scale, mkvao);
      && |all| == |nodes| + 7
      && (forall p :: 0 <= p < |nodes| ==> all[p] == nodes[p])
      && CubesphereAt(all, |nodes|, scale, mkvao)
  {
  }

  /**
   * The cubesphere root is an Empty node carrying the given scale with
   * exactly six children; each child is a Planet drawing its own face's
   * vertex array, with the defaults of `from_vao` otherwise.
   */
  lemma CubesphereShape(all: seq<SceneNode>, b: nat, scale: Vec3, mkvao: CsPlane -> VaoObj)
    requires CubesphereAt(all, b, scale, mkvao)
    ensures all[b] == New().(scale := scale, children := [b + 1, b + 2, b + 3, b + 4, b + 5, b + 6], matrix := all[b].matrix)
    ensures NChildren(all[b]) == 6
    ensures forall j :: 0 <= j < 6 ==> ChildAt(all[b], j) == b + 1 + j
    ensures forall j :: b < j < b + 7 ==>
              && all[j].nodeType == Planet
              && all[j] == New().(nodeType := Planet, vao := mkvao(FacePlane(Faces[j - b - 1])),
                                  indexCount := mkvao(FacePlane(Faces[j - b - 1])).n, matrix := all[j].matrix)
  {
  }

  /** Appending the cubesphere to an acyclic forest gives an acyclic forest. */
  lemma CubesphereKeepsForest(nodes: seq<SceneNode>, rank: seq<nat>, scale: Vec3, mkvao: CsPlane -> VaoObj)
    requires AcyclicBy(nodes, rank) && UniqueParents(nodes)
    ensures var all := nodes + CubesphereNodes(|nodes|, scale, mkvao);
      AcyclicBy(all, CubesphereRank(rank)) && UniqueParents(all)
  {
    var b := |nodes|;
    var all := nodes + CubesphereNodes(b, scale, mkvao);
    var rank' := CubesphereRank(rank);
    forall p, j | 0 <= p < |all| && 0 <= j < |all[p].children|
      ensures all[p].children[j] < |all| && rank'[all[p].children[j]] < rank'[p]
    {
      if p < b {
        assert all[p] == nodes[p];
      }
    }
    forall p, j, q, l |
      0 <= p < |all| && 0 <= q < |all| &&
      0 <= j < |all[p].children| && 0 <= l < |all[q].children| &&
      all[p].children[j] == all[q].children[l]
      ensures p == q && j == l
    {
      if p < b { assert all[p] == nodes[p]; }
      if q < b { assert all[q] == nodes[q]; }
    }
  }

  /** The walks over childless nodes visit just those nodes. */
  lemma {:induction false} PreorderAllOfLeaves(all: seq<SceneNode>, cs: seq<nat>, bound: nat, rank: seq<nat>)
    requires AcyclicBy(all, rank) && ChildrenBelow(all, cs, bound, rank)
    requires forall j :: 0 <= j < |cs| ==> all[cs[j]].children == []
    ensures PreorderAll(all, cs, bound, rank) == cs
    decreases |cs|
  {
    if cs != [] {
      assert PreorderAll(all, all[cs[0]].children, rank[cs[0]], rank) == [];
      PreorderAllOfLeaves(all, cs[1..], bound, rank);
    }
  }

  /**
   * What the transform and draw passes read of a cubesphere at `b`: an Empty
   * root whose children are the six faces right after it, each a childless
   * Planet drawing its own face's vertex array. Position, rotation, scale,
   * reference point, name, texture and matrices are free, so the caller may
   * have placed, spun or textured the planet since `make_cubesphere`.
   */
  ghost predicate PlanetShapeAt(all: seq<SceneNode>, b: nat, mkvao: CsPlane -> VaoObj) {
    && b + 7 <= |all|
    && all[b].nodeType == Empty
    && all[b].children == [b + 1, b + 2, b + 3, b + 4, b + 5, b + 6]
    && forall j :: b < j < b + 7 ==>
         && all[j].nodeType == Planet
         && all[j].children == []
         && all[j].vao == mkvao(FacePlane(Faces[j - b - 1]))
         && all[j].indexCount == mkvao(FacePlane(Faces[j - b - 1])).n
  }

  /** A cubesphere as `make_cubesphere` leaves it has the planet's shape. */
  lemma CubesphereHasPlanetShape(all: seq<SceneNode>, b: nat, scale: Vec3, mkvao: CsPlane -> VaoObj)
    requires CubesphereAt(all, b, scale, mkvao)
    ensures PlanetShapeAt(all, b, mkvao)
  {
    CubesphereShape(all, b, scale, mkvao);
  }

  /** Writing the fields of the nodes that the passes do not read, or their matrices, keeps the planet's shape. */
  lemma PlanetShapeSurvivesPass(all: seq<SceneNode>, after: seq<SceneNode>, b: nat, mkvao: CsPlane -> VaoObj)
    requires PlanetShapeAt(all, b, mkvao) && SameExceptMatrices(after, all)
    ensures PlanetShapeAt(after, b, mkvao)
  {
    assert after[b].children == all[b].children;
    forall j | b < j < b + 7
      ensures && after[j].nodeType == Planet && after[j].children == []
              && after[j].vao == mkvao(FacePlane(Faces[j - b - 1]))
              && after[j].indexCount == mkvao(FacePlane(Faces[j - b - 1])).n
    {
      assert after[j] == all[j].(matrix := after[j].matrix);
    }
  }

  /** The pre-order walk from the root visits the root, then the six faces in order. */
  lemma CubespherePreorder(all: seq<SceneNode>, b: nat, rank: seq<nat>, mkvao: CsPlane -> VaoObj)
    requires AcyclicBy(all, rank) && PlanetShapeAt(all, b, mkvao)
    ensures Preorder(all, b, rank) == [b, b + 1, b + 2, b + 3, b + 4, b + 5, b + 6]
  {
    var cs := all[b].children;
    forall j | 0 <= j < |cs| ensures all[cs[j]].children == [] {
      assert b < cs[j] < b + 7;
    }
    PreorderAllOfLeaves(all, cs, rank[b], rank);
  }

  /** A visit order of a non-drawable root followed by six drawable nodes draws the six. */
  lemma DrawablesAfterRoot(all: seq<SceneNode>, b: nat)
    requires b + 7 <= |all| && !IsDrawable(all[b].nodeType)
    requires forall j :: b < j < b + 7 ==> IsDrawable(all[j].nodeType)
    ensures AllBelow([b, b + 1, b + 2, b + 3, b + 4, b + 5, b + 6], |all|)
    ensures DrawableOnly(all, [b, b + 1, b + 2, b + 3, b + 4, b + 5, b + 6]) == [b + 1, b + 2, b + 3, b + 4, b + 5, b + 6]
  {
    var order := [b, b + 1, b + 2, b + 3, b + 4, b + 5, b + 6];
    forall j | 0 <= j < 6 ensures IsDrawable(all[order[1..][j]].nodeType) {
      assert b < order[1..][j] < b + 7;
    }
    DrawableOnlyOfDrawables(all, order[1..]);
    assert order[0] == b && !IsDrawable(all[order[0]].nodeType);
    assert DrawableOnly(all, order) == [] + DrawableOnly(all, order[1..]);
    assert DrawableOnly(all, order) == DrawableOnly(all, order[1..]);
  }

  /** Of the cubesphere's visit order only the six faces are drawable. */
  lemma CubesphereDrawables(all: seq<SceneNode>, b: nat, mkvao: CsPlane -> VaoObj)
    requires PlanetShapeAt(all, b, mkvao)
    ensures AllBelow([b, b + 1, b + 2, b + 3, b + 4, b + 5, b + 6], |all|)
    ensures DrawableOnly(all, [b, b + 1, b + 2, b + 3, b + 4, b + 5, b + 6]) == [b + 1, b + 2, b + 3, b + 4, b + 5, b + 6]
  {
    DrawablesAfterRoot(all, b);
  }

  /** Draw records that follow the cubesphere's visit order, one per drawable node, are its six faces. */
  lemma CubesphereTrace(all: seq<SceneNode>, b: nat, mkvao: CsPlane -> VaoObj, viewProjection: Mat, trace: seq<DrawCall>)
    requires PlanetShapeAt(all, b, mkvao)
    requires DrawnNodes(trace) == [b + 1, b + 2, b + 3, b + 4, b + 5, b + 6]
    requires forall k :: 0 <= k < |trace| ==> CallMatchesNode(all, viewProjection, trace[k])
    ensures |trace| == 6 && NoDuplicates(DrawnNodes(trace))
    ensures forall k :: 0 <= k < 6 ==>
              && trace[k].node == b + 1 + k
              && trace[k].nodeTypeCode == 3
              && trace[k].vao == mkvao(FacePlane(Faces[k])).vao
              && trace[k].count == mkvao(FacePlane(Faces[k])).n
              && trace[k].mvp == Mul(viewProjection, all[b + 1 + k].matrix)
  {
    forall k | 0 <= k < 6
      ensures trace[k].node == b + 1 + k
      ensures trace[k].nodeTypeCode == 3
      ensures trace[k].vao == mkvao(FacePlane(Faces[k])).vao
      ensures trace[k].count == mkvao(FacePlane(Faces[k])).n
      ensures trace[k].mvp == Mul(viewProjection, all[b + 1 + k].matrix)
    {
      assert DrawnNodes(trace)[k] == b + 1 + k;
      assert b < b + 1 + k < b + 7;
    }
  }

  /**
   * Drawing a cubesphere issues exactly six draws, one per face in `Faces`
   * order, each as a Planet (`u_node_type` 3) seen through the camera, with
   * its face's vertex array and index count.
   */
  lemma CubesphereDraws(all: seq<SceneNode>, b: nat, rank: seq<nat>, mkvao: CsPlane -> VaoObj, viewProjection: Mat)
    requires AcyclicBy(all, rank) && PlanetShapeAt(all, b, mkvao)
    ensures var trace := DrawScene(all, b, viewProjection, rank);
      && |trace| == 6
      && NoDuplicates(DrawnNodes(trace))
      && forall k :: 0 <= k < 6 ==>
           && trace[k].node == b + 1 + k
           && trace[k].nodeTypeCode == 3
           && trace[k].vao == mkvao(FacePlane(Faces[k])).vao
           && trace[k].count == mkvao(FacePlane(Faces[k])).n
           && trace[k].mvp == Mul(viewProjection, all[b + 1 + k].matrix)
  {
    CubespherePreorder(all, b, rank, mkvao);
    DrawSceneDrawsDrawablesInPreorder(all, b, viewProjection, rank);
    CubesphereDrawables(all, b, mkvao);
    CubesphereTrace(all, b, mkvao, viewProjection, DrawScene(all, b, viewProjection, rank));
  }

  /**
   * After the transform pass on a root whose children are the six faces
   * laid out by `make_cubesphere`, with parent matrix `parent`, face `k`
   * holds `parent * local(root) * local(face k)`.
   */
  lemma CubesphereWorld(all: seq<SceneNode>, b: nat, rank: seq<nat>, mats: seq<Mat>, parent: Mat, k: nat)
    requires AcyclicBy(all, rank) && UniqueParents(all) && |mats| == |all|
    requires b + 7 <= |all| && all[b].children == [b + 1, b + 2, b + 3, b + 4, b + 5, b + 6] && k < 6
    ensures Updated(all, mats, b, parent, rank)[b + 1 + k]
         == Mul(parent, Mul(LocalTransform(all[b]), LocalTransform(all[b + 1 + k])))
  {
    ChildWorld(all, mats, parent, rank, b, k);
  }

  /** The transform pass changes only matrices, so a cubesphere stays one. */
  lemma CubesphereSurvivesPass(all: seq<SceneNode>, after: seq<SceneNode>, b: nat, scale: Vec3, mkvao: CsPlane -> VaoObj)
    requires CubesphereAt(all, b, scale, mkvao) && SameExceptMatrices(after, all)
    ensures CubesphereAt(after, b, scale, mkvao)
  {
    assert after[b].(matrix := Identity()) == all[b].(matrix := Identity());
    forall j | b < j < b + 7
      ensures after[j].(matrix := Identity()) == PlanetFace(mkvao(FacePlane(Faces[j - b - 1])))
    {
      assert after[j].(matrix := Identity()) == all[j].(matrix := Identity());
    }
  }

  /** After the pass on a root whose children are the six faces, each face holds the product down to it. */
  lemma FacesWorld(all: seq<SceneNode>, after: seq<SceneNode>, b: nat, rank: seq<nat>, parent: Mat)
    requires AcyclicBy(all, rank) && UniqueParents(all) && |after| == |all|
    requires b + 7 <= |all| && all[b].children == [b + 1, b + 2, b + 3, b + 4, b + 5, b + 6]
    requires Matrices(after) == Updated(all, Matrices(all), b, parent, rank)
    ensures forall j :: b < j < b + 7 ==> after[j].matrix == Mul(parent, Mul(LocalTransform(all[b]), LocalTransform(all[j])))
  {
    forall j | b < j < b + 7
      ensures after[j].matrix == Mul(parent, Mul(LocalTransform(all[b]), LocalTransform(all[j])))
    {
      CubesphereWorld(all, b, rank, Matrices(all), parent, j - b - 1);
      assert after[j].matrix == Matrices(after)[j];
    }
  }
}
