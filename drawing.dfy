/**
 * The draw pass as a trace: instead of issuing OpenGL calls, `DrawScene`
 * returns, in order, one record per draw call with everything the call
 * depends on (the bound vertex array, the uniforms, the bound texture and the
 * index count). The pass only reads the tree.
 */
module Drawing {
  import opened Prelude
  import opened Glm
  import opened SceneNodes
  import opened Forest

  /**
   * One draw: node drawn, `u_node_type`, `u_mvp`, `u_model`, the texture this
   * draw binds to unit 0 (None when it issues no bind, and unit 0 keeps
   * whatever an earlier draw bound), `u_has_texture`, index count.
   */
  datatype DrawCall = DrawCall(
    node: nat,
    vao: u32,
    nodeTypeCode: u32,
    mvp: Mat,
    model: Mat,
    boundTexture: Option<u32>,
    hasTexture: i32,
    count: i32
  )

  /** The node types that carry geometry. */
  predicate IsDrawable(t: SceneNodeType) {
    match t
    case Geometry | Geometry2d | Planet | Ocean | Skybox => true
    case LightSource | Empty => false
  }

  /** The draws node `id` itself issues: one if its type carries geometry, none otherwise. */
  function NodeDraw(nodes: seq<SceneNode>, id: nat, viewProjection: Mat): seq<DrawCall>
    requires id < |nodes|
  {
    var n := nodes[id];
    if IsDrawable(n.nodeType) then
      var mvp := match n.nodeType
        case Geometry2d => n.matrix
        case _ => Mul(viewProjection, n.matrix);
      var (bound, hasTexture) := match n.textureId
        case Some(texture) => (Some(texture), 1 as i32)
        case None => (None, 1 as i32);
      [DrawCall(id, n.vao.vao, TypeCode(n.nodeType), mvp, n.matrix, bound, hasTexture, n.indexCount)]
    else []
  }

  /** What a draw of a node must look like, read off the node and the camera. */
  ghost predicate CallMatchesNode(nodes: seq<SceneNode>, viewProjection: Mat, c: DrawCall) {
    && c.node < |nodes|
    && var n := nodes[c.node];
    && IsDrawable(n.nodeType)
    && c.nodeTypeCode == TypeCode(n.nodeType)
    && c.mvp == (if n.nodeType == Geometry2d then n.matrix else Mul(viewProjection, n.matrix))
    && c.model == n.matrix
    && c.vao == n.vao.vao
    && c.boundTexture == n.textureId
    && c.hasTexture == 1
    && c.count == n.indexCount
  }

  /**
   * `draw_scene(view_projection)` on node `i`: the node's own draw, then the
   * draws of every child's subtree in child order, whatever the node's type.
   */
  function DrawScene(nodes: seq<SceneNode>, i: nat, viewProjection: Mat, ghost rank: seq<nat>): (r: seq<DrawCall>)
    requires AcyclicBy(nodes, rank) && i < |nodes|
    ensures forall k :: 0 <= k < |r| ==> r[k].node in Preorder(nodes, i, rank) && CallMatchesNode(nodes, viewProjection, r[k])
    decreases rank[i], 1
  {
    NodeDraw(nodes, i, viewProjection) + DrawChildren(nodes, nodes[i].children, viewProjection, rank[i], rank)
  }

  /** The draws of the subtrees of `cs`, one after the other. */
  function DrawChildren(nodes: seq<SceneNode>, cs: seq<nat>, viewProjection: Mat, ghost bound: nat, ghost rank: seq<nat>): (r: seq<DrawCall>)
    requires AcyclicBy(nodes, rank) && ChildrenBelow(nodes, cs, bound, rank)
    ensures forall k :: 0 <= k < |r| ==> r[k].node in PreorderAll(nodes, cs, bound, rank) && CallMatchesNode(nodes, viewProjection, r[k])
    decreases bound, 0, |cs|
  {
    if cs == [] then []
    else DrawScene(nodes, cs[0], viewProjection, rank) + DrawChildren(nodes, cs[1..], viewProjection, bound, rank)
  }

  /** Every one of `ids` indexes a node. */
  predicate AllBelow(ids: seq<nat>, n: nat) {
    forall j :: 0 <= j < |ids| ==> ids[j] < n
  }

  /** The draws of the nodes `ids`, visited in that order. */
  function DrawAll(nodes: seq<SceneNode>, ids: seq<nat>, viewProjection: Mat): seq<DrawCall>
    requires AllBelow(ids, |nodes|)
  {
    if ids == [] then [] else NodeDraw(nodes, ids[0], viewProjection) + DrawAll(nodes, ids[1..], viewProjection)
  }

  /** The drawable nodes among `ids`, in order. */
  function DrawableOnly(nodes: seq<SceneNode>, ids: seq<nat>): seq<nat>
    requires AllBelow(ids, |nodes|)
  {
    if ids == [] then []
    else (if IsDrawable(nodes[ids[0]].nodeType) then [ids[0]] else []) + DrawableOnly(nodes, ids[1..])
  }

  /** The node of each draw, in order. */
  function DrawnNodes(trace: seq<DrawCall>): (r: seq<nat>)
    ensures |r| == |trace| && forall k :: 0 <= k < |trace| ==> r[k] == trace[k].node
  {
    seq(|trace|, k requires 0 <= k < |trace| => trace[k].node)
  }

  lemma {:induction false} DrawAllAppend(nodes: seq<SceneNode>, a: seq<nat>, b: seq<nat>, viewProjection: Mat)
    requires AllBelow(a, |nodes|) && AllBelow(b, |nodes|)
    ensures DrawAll(nodes, a + b, viewProjection) == DrawAll(nodes, a, viewProjection) + DrawAll(nodes, b, viewProjection)
    decreases |a|
  {
    if a != [] {
      assert (a + b)[0] == a[0] && (a + b)[1..] == a[1..] + b;
      assert AllBelow(a + b, |nodes|);
      DrawAllAppend(nodes, a[1..], b, viewProjection);
    } else {
      assert a + b == b;
    }
  }

  /** The draw trace is the per-node draws of the pre-order walk. */
  lemma {:induction false} DrawSceneFollowsPreorder(nodes: seq<SceneNode>, i: nat, viewProjection: Mat, rank: seq<nat>)
    requires AcyclicBy(nodes, rank) && i < |nodes|
    ensures DrawScene(nodes, i, viewProjection, rank) == DrawAll(nodes, Preorder(nodes, i, rank), viewProjection)
    decreases rank[i], 1
  {
    var cs := nodes[i].children;
    var rest := PreorderAll(nodes, cs, rank[i], rank);
    DrawChildrenFollowsPreorder(nodes, cs, viewProjection, rank[i], rank);
    DrawAllAppend(nodes, [i], rest, viewProjection);
    assert DrawAll(nodes, [i], viewProjection) == NodeDraw(nodes, i, viewProjection);
  }

  lemma {:induction false} DrawChildrenFollowsPreorder(nodes: seq<SceneNode>, cs: seq<nat>, viewProjection: Mat, bound: nat, rank: seq<nat>)
    requires AcyclicBy(nodes, rank) && ChildrenBelow(nodes, cs, bound, rank)
    ensures DrawChildren(nodes, cs, viewProjection, bound, rank) == DrawAll(nodes, PreorderAll(nodes, cs, bound, rank), viewProjection)
    decreases bound, 0, |cs|
  {
    if cs != [] {
      DrawSceneFollowsPreorder(nodes, cs[0], viewProjection, rank);
      DrawChildrenFollowsPreorder(nodes, cs[1..], viewProjection, bound, rank);
      DrawAllAppend(nodes, Preorder(nodes, cs[0], rank), PreorderAll(nodes, cs[1..], bound, rank), viewProjection);
    }
  }

  /** The per-node draws of a visit order draw exactly its drawable nodes, in that order. */
  lemma {:induction false} DrawAllDrawsDrawable(nodes: seq<SceneNode>, ids: seq<nat>, viewProjection: Mat)
    requires AllBelow(ids, |nodes|)
    ensures DrawnNodes(DrawAll(nodes, ids, viewProjection)) == DrawableOnly(nodes, ids)
    decreases |ids|
  {
    if ids != [] {
      DrawAllDrawsDrawable(nodes, ids[1..], viewProjection);
      var head := NodeDraw(nodes, ids[0], viewProjection);
      DrawnNodesAppend(head, DrawAll(nodes, ids[1..], viewProjection));
      assert DrawnNodes(head) == (if IsDrawable(nodes[ids[0]].nodeType) then [ids[0]] else []);
    }
  }

  lemma DrawnNodesAppend(a: seq<DrawCall>, b: seq<DrawCall>)
    ensures DrawnNodes(a + b) == DrawnNodes(a) + DrawnNodes(b)
  {
    assert |DrawnNodes(a + b)| == |DrawnNodes(a) + DrawnNodes(b)|;
    forall k | 0 <= k < |a + b| ensures DrawnNodes(a + b)[k] == (DrawnNodes(a) + DrawnNodes(b))[k] {
      if k < |a| {
        assert (a + b)[k] == a[k];
      } else {
        assert (a + b)[k] == b[k - |a|];
      }
    }
  }

  /**
   * `draw_scene` issues one draw for each node of type Geometry, Geometry2d,
   * Planet, Ocean or Skybox, in pre-order, and none for LightSource or Empty
   * nodes, whose subtrees are still drawn; every draw is built from its node
   * as `CallMatchesNode` says.
   */
  lemma DrawSceneDrawsDrawablesInPreorder(nodes: seq<SceneNode>, i: nat, viewProjection: Mat, rank: seq<nat>)
    requires AcyclicBy(nodes, rank) && i < |nodes|
    ensures DrawnNodes(DrawScene(nodes, i, viewProjection, rank)) == DrawableOnly(nodes, Preorder(nodes, i, rank))
    ensures forall k :: 0 <= k < |DrawScene(nodes, i, viewProjection, rank)| ==>
              CallMatchesNode(nodes, viewProjection, DrawScene(nodes, i, viewProjection, rank)[k])
  {
    DrawSceneFollowsPreorder(nodes, i, viewProjection, rank);
    DrawAllDrawsDrawable(nodes, Preorder(nodes, i, rank), viewProjection);
  }

  /** Filtering a visit order whose nodes are all drawable keeps it whole. */
  lemma {:induction false} DrawableOnlyOfDrawables(nodes: seq<SceneNode>, ids: seq<nat>)
    requires AllBelow(ids, |nodes|)
    requires forall j :: 0 <= j < |ids| ==> IsDrawable(nodes[ids[j]].nodeType)
    ensures DrawableOnly(nodes, ids) == ids
    decreases |ids|
  {
    if ids != [] {
      DrawableOnlyOfDrawables(nodes, ids[1..]);
    }
  }

  /** The filter keeps exactly the drawable members of `ids` and introduces no repeat. */
  lemma {:induction false} DrawableOnlyMembers(nodes: seq<SceneNode>, ids: seq<nat>)
    requires AllBelow(ids, |nodes|)
    ensures forall x :: x in DrawableOnly(nodes, ids) <==> x in ids && IsDrawable(nodes[x].nodeType)
    ensures NoDuplicates(ids) ==> NoDuplicates(DrawableOnly(nodes, ids))
    decreases |ids|
  {
    if ids != [] {
      var rest := ids[1..];
      DrawableOnlyMembers(nodes, rest);
      assert ids == [ids[0]] + rest;
      if NoDuplicates(ids) {
        assert NoDuplicates(rest) by {
          forall i, j | 0 <= i < j < |rest| ensures rest[i] != rest[j] {
            assert rest[i] == ids[i + 1] && rest[j] == ids[j + 1];
          }
        }
        assert ids[0] !in rest by {
          forall j | 0 <= j < |rest| ensures rest[j] != ids[0] {
            assert rest[j] == ids[j + 1];
          }
        }
        var head := if IsDrawable(nodes[ids[0]].nodeType) then [ids[0]] else [];
        ConcatNoDuplicates(head, DrawableOnly(nodes, rest));
      }
    }
  }

  /**
   * In a tree, `draw_scene` from `i` draws every drawable node the walk
   * reaches, and each of them exactly once: the trace names no node twice.
   */
  lemma DrawSceneDrawsEachDrawableOnce(nodes: seq<SceneNode>, i: nat, viewProjection: Mat, rank: seq<nat>)
    requires AcyclicBy(nodes, rank) && UniqueParents(nodes) && i < |nodes|
    ensures NoDuplicates(DrawnNodes(DrawScene(nodes, i, viewProjection, rank)))
    ensures forall x :: x in DrawnNodes(DrawScene(nodes, i, viewProjection, rank)) <==>
              x in Preorder(nodes, i, rank) && IsDrawable(nodes[x].nodeType)
  {
    DrawSceneDrawsDrawablesInPreorder(nodes, i, viewProjection, rank);
    PreorderDistinct(nodes, rank, i);
    DrawableOnlyMembers(nodes, Preorder(nodes, i, rank));
  }
}
