/**
 * The scene graph as the program keeps it: nodes live in heap boxes that are
 * never moved or freed, and a node names its children by raw pointers. Here
 * the heap is an arena, a sequence of nodes that only grows, and a pointer is
 * an index into it. The operations that change nodes in place are methods of
 * the arena; each is proved against the value-level definitions of the other
 * modules.
 */
module SceneGraph {
  import opened Prelude
  import opened Glm
  import opened SceneNodes
  import opened Forest
  import opened Transforms
  import opened Drawing
  import opened Cubesphere

  class NodeArena {
    /** Every node ever placed, at the index that stands for its address. */
    var nodes: seq<SceneNode>

    /** Every child pointer names a node of the arena. */
    ghost predicate Valid()
      reads this
    {
      forall p, j :: 0 <= p < |nodes| && 0 <= j < |nodes[p].children| ==> nodes[p].children[j] < |nodes|
    }

    constructor()
      ensures nodes == [] && Valid()
    {
      nodes := [];
    }

    /**
     * Moves a node built by `new`, `with_type` or `from_vao`, and so still
     * childless, into its own box; its index is the first free one.
     */
    method Alloc(n: SceneNode) returns (id: nat)
      requires Valid() && n.children == []
      modifies this
      ensures id == |old(nodes)| && nodes == old(nodes) + [n]
      ensures Valid()
    {
      id := |nodes|;
      nodes := nodes + [n];
    }

    /** `add_child`: pushes a pointer to `child` at the end of `parent`'s children. */
    method AddChild(parent: nat, child: nat)
      requires Valid() && parent < |nodes| && child < |nodes|
      modifies this
      ensures nodes == old(nodes)[parent := WithChild(old(nodes)[parent], child)]
      ensures NChildren(nodes[parent]) == NChildren(old(nodes)[parent]) + 1
      ensures ChildAt(nodes[parent], NChildren(old(nodes)[parent])) == child
      ensures Valid()
    {
      AddChildAppends(nodes[parent], child);
      nodes := nodes[parent := WithChild(nodes[parent], child)];
    }

    /**
     * `get_child` and indexing a node by a child number: the node the
     * `index`-th child pointer of `parent` names. Indexing past the end of the
     * child list panics in the program; here it is excluded.
     */
    method GetChild(parent: nat, index: nat) returns (child: nat)
      requires Valid() && parent < |nodes| && index < NChildren(nodes[parent])
      ensures child in nodes[parent].children
      ensures child == ChildAt(nodes[parent], index)
      ensures child < |nodes|
    {
      child := nodes[parent].children[index];
    }

    /** `get_n_children`: how many child pointers `parent` holds. */
    method GetNChildren(parent: nat) returns (count: nat)
      requires parent < |nodes|
      ensures count == NChildren(nodes[parent]) == |nodes[parent].children|
    {
      count := NChildren(nodes[parent]);
    }

    /**
     * `update_node_transformations`: node `i` gets `transformationSoFar`
     * times its local transform, then each child, in order, is updated with
     * the matrix just stored in `i`. The new matrices are exactly those of the
     * value-level pass `Updated`, and nothing but matrices changes.
     */
    method UpdateNodeTransformations(i: nat, transformationSoFar: Mat, ghost rank: seq<nat>)
      requires AcyclicBy(nodes, rank) && i < |nodes|
      modifies this
      ensures SameExceptMatrices(nodes, old(nodes))
      ensures Matrices(nodes) == Updated(old(nodes), Matrices(old(nodes)), i, transformationSoFar, rank)
      decreases rank[i]
    {
      ghost var shape := nodes;
      var transform := ComposeLocal(nodes[i]);
      var world := Mul(transformationSoFar, transform);
      nodes := nodes[i := nodes[i].(matrix := world)];
      assert Matrices(nodes) == Matrices(shape)[i := world];
      var children := nodes[i].children;
      for k := 0 to |children|
        invariant SameExceptMatrices(nodes, shape)
        invariant nodes[i].matrix == world
        invariant UpdateChildren(shape, Matrices(nodes), children[k..], world, rank[i], rank)
               == Updated(shape, Matrices(shape), i, transformationSoFar, rank)
      {
        AcyclicBySameShape(nodes, shape, rank);
        ghost var before := nodes;
        var c := children[k];
        assert children[k..][0] == c && children[k..][1..] == children[k + 1..];
        UpdateNodeTransformations(c, nodes[i].matrix, rank);
        UpdatedIgnoresStoredMatrices(before, shape, Matrices(before), c, world, rank);
        assert i !in Preorder(before, c, rank);
      }
    }

    /**
     * The six face blocks of `make_cubesphere`, in order: each builds its
     * face's plane mesh, uploads it, and boxes a node over the vertex array
     * retyped as Planet.
     */
    method AllocFaces(mkvao: CsPlane -> VaoObj) returns (top: nat, bottom: nat, front: nat, back: nat, left: nat, right: nat)
      requires Valid()
      modifies this
      ensures nodes == old(nodes) + [PlanetFace(mkvao(FacePlane(Top))), PlanetFace(mkvao(FacePlane(Bottom))),
                                     PlanetFace(mkvao(FacePlane(Front))), PlanetFace(mkvao(FacePlane(Back))),
                                     PlanetFace(mkvao(FacePlane(Left))), PlanetFace(mkvao(FacePlane(Right)))]
      ensures top == |old(nodes)| && bottom == top + 1 && front == top + 2
      ensures back == top + 3 && left == top + 4 && right == top + 5
      ensures Valid()
    {
      top := Alloc(PlanetFace(mkvao(FacePlane(Top))));
      bottom := Alloc(PlanetFace(mkvao(FacePlane(Bottom))));
      front := Alloc(PlanetFace(mkvao(FacePlane(Front))));
      back := Alloc(PlanetFace(mkvao(FacePlane(Back))));
      left := Alloc(PlanetFace(mkvao(FacePlane(Left))));
      right := Alloc(PlanetFace(mkvao(FacePlane(Right))));
    }

    /** The six `add_child` calls that close `make_cubesphere`, attaching the faces to the root in order. */
    method AddFaces(root: nat, top: nat, bottom: nat, front: nat, back: nat, left: nat, right: nat)
      requires Valid() && root < |nodes|
      requires top < |nodes| && bottom < |nodes| && front < |nodes| && back < |nodes| && left < |nodes| && right < |nodes|
      modifies this
      ensures nodes == old(nodes)[root := old(nodes)[root].(children := old(nodes)[root].children + [top, bottom, front, back, left, right])]
      ensures Valid()
    {
      ghost var assembled := nodes[root];
      ghost var start := nodes;
      AddChild(root, top);
      assembled := WithChild(assembled, top);
      assert nodes == start[root := assembled];
      AddChild(root, bottom);
      assembled := WithChild(assembled, bottom);
      assert nodes == start[root := assembled];
      AddChild(root, front);
      assembled := WithChild(assembled, front);
      assert nodes == start[root := assembled];
      AddChild(root, back);
      assembled := WithChild(assembled, back);
      assert nodes == start[root := assembled];
      AddChild(root, left);
      assembled := WithChild(assembled, left);
      assert nodes == start[root := assembled];
      AddChild(root, right);
      assembled := WithChild(assembled, right);
      assert nodes == start[root := assembled];
      assert assembled.children == start[root].children + [top, bottom, front, back, left, right];
    }

    /**
     * `make_cubesphere`: allocates an Empty root carrying `scale`, then the
     * six Planet faces, and adds the faces to the root in `Faces` order. The
     * requested rotation, position, subdivision count and colour play no part:
     * every face is built with 256 subdivisions and the fixed planet colour.
     */
    method MakeCubesphere(scale: Vec3, rotation: Vec3, position: Vec3, subdivisions: nat, color: Option<Vec4>,
                          mkvao: CsPlane -> VaoObj) returns (root: nat)
      requires Valid()
      modifies this
      ensures root == |old(nodes)| && nodes == old(nodes) + CubesphereNodes(root, scale, mkvao)
      ensures nodes[..root] == old(nodes) && CubesphereAt(nodes, root, scale, mkvao)
      ensures Valid()
    {
      var cubesphere := WithType(Empty).(scale := scale);
      root := Alloc(cubesphere);
      var top, bottom, front, back, left, right := AllocFaces(mkvao);
      ghost var placed := nodes;
      FacesInOrder(mkvao);
      assert placed == old(nodes) + [cubesphere] + CubesphereFaces(mkvao);
      assert placed[root] == cubesphere;
      AddFaces(root, top, bottom, front, back, left, right);
      assert [] + [top, bottom, front, back, left, right] == CubesphereRoot(root, scale).children;
      assert nodes == placed[root := CubesphereRoot(root, scale)];
      RootFilledIn(old(nodes), scale, mkvao);
      CubesphereLayout(old(nodes), scale, mkvao);
    }

    /**
     * One frame for a cubesphere at `root`, wherever the caller has placed,
     * spun or scaled it: the transform pass on the root with parent matrix
     * `parent`, then the draw pass from the root over the updated nodes.
     * Face `k` is drawn once, `k`-th, as a Planet with MVP
     * `viewProjection * parent * local(root) * local(face k)`.
     */
    method RenderCubesphere(root: nat, parent: Mat, viewProjection: Mat, ghost rank: seq<nat>,
                            ghost mkvao: CsPlane -> VaoObj) returns (trace: seq<DrawCall>)
      requires AcyclicBy(nodes, rank) && UniqueParents(nodes) && PlanetShapeAt(nodes, root, mkvao)
      modifies this
      ensures SameExceptMatrices(nodes, old(nodes)) && AcyclicBy(nodes, rank)
      ensures trace == DrawScene(nodes, root, viewProjection, rank)
      ensures FacesDrawn(trace, old(nodes), root, mkvao, parent, viewProjection)
    {
      ghost var before := nodes;
      UpdateNodeTransformations(root, parent, rank);
      CubesphereAfterPass(before, nodes, root, rank, mkvao, parent, viewProjection);
      trace := DrawScene(nodes, root, viewProjection, rank);
    }
  }

  /**
   * `trace` draws the six faces of the cubesphere that sat at `b` in `before`
   * once each, in order, as Planets with their own vertex arrays and index
   * counts and with MVP
   * `viewProjection * parent * local(root) * local(face k)`.
   */
  ghost predicate FacesDrawn(trace: seq<DrawCall>, before: seq<SceneNode>, b: nat, mkvao: CsPlane -> VaoObj,
                             parent: Mat, viewProjection: Mat)
    requires b + 7 <= |before|
  {
    && |trace| == 6
    && NoDuplicates(DrawnNodes(trace))
    && (forall k :: 0 <= k < 6 ==> trace[k].node == b + 1 + k && trace[k].nodeTypeCode == 3)
    && (forall k :: 0 <= k < 6 ==> trace[k].vao == mkvao(FacePlane(Faces[k])).vao && trace[k].count == mkvao(FacePlane(Faces[k])).n)
    && (forall k :: 0 <= k < 6 ==>
          trace[k].mvp == Mul(viewProjection, Mul(parent, Mul(LocalTransform(before[b]), LocalTransform(before[b + 1 + k])))))
  }

  /**
   * The draws of a cubesphere after the transform pass on its root has
   * turned `before` into `after`.
   */
  lemma CubesphereFrame(before: seq<SceneNode>, after: seq<SceneNode>, b: nat, rank: seq<nat>,
                        mkvao: CsPlane -> VaoObj, parent: Mat, viewProjection: Mat)
    requires AcyclicBy(before, rank) && UniqueParents(before) && |after| == |before|
    requires b + 7 <= |before| && before[b].children == [b + 1, b + 2, b + 3, b + 4, b + 5, b + 6]
    requires Matrices(after) == Updated(before, Matrices(before), b, parent, rank)
    requires AcyclicBy(after, rank) && PlanetShapeAt(after, b, mkvao)
    ensures FacesDrawn(DrawScene(after, b, viewProjection, rank), before, b, mkvao, parent, viewProjection)
  {
    FacesWorld(before, after, b, rank, parent);
    CubesphereDraws(after, b, rank, mkvao, viewProjection);
  }

  /**
   * The transform pass on the root of a cubesphere keeps the arena's shape
   * and the cubesphere, and the draw pass that follows it draws the faces as
   * `FacesDrawn` says.
   */
  lemma CubesphereAfterPass(before: seq<SceneNode>, after: seq<SceneNode>, b: nat, rank: seq<nat>,
                            mkvao: CsPlane -> VaoObj, parent: Mat, viewProjection: Mat)
    requires AcyclicBy(before, rank) && UniqueParents(before) && PlanetShapeAt(before, b, mkvao)
    requires SameExceptMatrices(after, before)
    requires Matrices(after) == Updated(before, Matrices(before), b, parent, rank)
    ensures AcyclicBy(after, rank)
    ensures FacesDrawn(DrawScene(after, b, viewProjection, rank), before, b, mkvao, parent, viewProjection)
  {
    AcyclicBySameShape(after, before, rank);
    PlanetShapeSurvivesPass(before, after, b, mkvao);
    CubesphereFrame(before, after, b, rank, mkvao, parent, viewProjection);
  }

  /** Filling in the root's children in place of the bare root gives the finished cubesphere. */
  lemma RootFilledIn(before: seq<SceneNode>, scale: Vec3, mkvao: CsPlane -> VaoObj)
    ensures (before + [WithType(Empty).(scale := scale)] + CubesphereFaces(mkvao))[|before| := CubesphereRoot(|before|, scale)]
         == before + CubesphereNodes(|before|, scale, mkvao)
  {
    var b := |before|;
    var lhs := (before + [WithType(Empty).(scale := scale)] + CubesphereFaces(mkvao))[b := CubesphereRoot(b, scale)];
    var rhs := before + CubesphereNodes(b, scale, mkvao);
    assert |lhs| == |rhs|;
    forall j | 0 <= j < |lhs| ensures lhs[j] == rhs[j] {
      if j > b {
        assert rhs[j] == CubesphereFaces(mkvao)[j - b - 1];
      }
    }
  }

  /** The face nodes, written out in creation order. */
  lemma FacesInOrder(mkvao: CsPlane -> VaoObj)
    ensures CubesphereFaces(mkvao)
         == [PlanetFace(mkvao(FacePlane(Top))), PlanetFace(mkvao(FacePlane(Bottom))),
             PlanetFace(mkvao(FacePlane(Front))), PlanetFace(mkvao(FacePlane(Back))),
             PlanetFace(mkvao(FacePlane(Left))), PlanetFace(mkvao(FacePlane(Right)))]
  {
  }
}
