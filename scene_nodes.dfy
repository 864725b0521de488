/**
 * Scene nodes as values: the node-type tags with their shader codes, the
 * three factories, the child list, and the local transform of a node.
 * Child references are indices into the arena that holds the nodes
 * (see module SceneGraph) instead of raw pointers.
 */
module SceneNodes {
  import opened Prelude
  import opened Glm

  datatype SceneNodeType = Geometry | Skybox | Geometry2d | Planet | Ocean | LightSource | Empty

  /** The enum discriminant, which the draw pass sends to the shader as `u_node_type`. */
  function TypeCode(t: SceneNodeType): (code: u32)
    ensures code <= 6
    ensures t == Geometry <==> code == 0
    ensures t == Skybox <==> code == 1
    ensures t == Geometry2d <==> code == 2
    ensures t == Planet <==> code == 3
    ensures t == Ocean <==> code == 4
    ensures t == LightSource <==> code == 5
    ensures t == Empty <==> code == 6
  {
    match t
    case Geometry => 0
    case Skybox => 1
    case Geometry2d => 2
    case Planet => 3
    case Ocean => 4
    case LightSource => 5
    case Empty => 6
  }

  /** A vertex-array-object handle and the number of indices it holds. */
  datatype VaoObj = VaoObj(vao: u32, n: i32)

  /** `VAOobj::default()`; its definition is not part of this model and is taken to zero every field. */
  const DefaultVao: VaoObj := VaoObj(0, 0)

  datatype SceneNode = SceneNode(
    position: Vec3,
    rotation: Vec3,
    scale: Vec3,
    referencePoint: Vec3,
    nodeType: SceneNodeType,
    name: string,
    matrix: Mat,            // current_transformation_matrix
    vao: VaoObj,
    indexCount: i32,
    textureId: Option<u32>,
    children: seq<nat>      // arena indices of the children, in insertion order
  )

  /** `SceneNode::new()`. */
  function New(): (n: SceneNode)
    ensures n.nodeType == Empty
    ensures n.position == Zero() && n.rotation == Zero() && n.referencePoint == Zero()
    ensures n.scale == Vec3(1.0, 1.0, 1.0)
    ensures n.name == "" && n.matrix == Identity()
    ensures n.vao == DefaultVao && n.indexCount == -1
    ensures n.textureId == None && n.children == []
  {
    SceneNode(Zero(), Zero(), Vec3(1.0, 1.0, 1.0), Zero(), Empty, "", Identity(),
              DefaultVao, -1, None, [])
  }

  /** `SceneNode::with_type(t)`: exactly `new()` but for the node type. */
  function WithType(t: SceneNodeType): (n: SceneNode)
    ensures n == New().(nodeType := t)
  {
    SceneNode(Zero(), Zero(), Vec3(1.0, 1.0, 1.0), Zero(), t, "", Identity(),
              DefaultVao, -1, None, [])
  }

  /** `SceneNode::from_vao(v)`: a Geometry node that draws `v.n` indices of `v`. */
  function FromVao(v: VaoObj): (n: SceneNode)
    ensures n == New().(nodeType := Geometry, vao := v, indexCount := v.n)
  {
    SceneNode(Zero(), Zero(), Vec3(1.0, 1.0, 1.0), Zero(), Geometry, "", Identity(),
              v, v.n, None, [])
  }

  /** `get_n_children`. */
  function NChildren(n: SceneNode): nat { |n.children| }

  /** `self[k]` (the `Index` impl) and `get_child(k)`: the k-th child reference. */
  function ChildAt(n: SceneNode, k: nat): nat
    requires k < NChildren(n)
  {
    n.children[k]
  }

  /** The node after `add_child(c)`. */
  function WithChild(n: SceneNode, c: nat): SceneNode {
    n.(children := n.children + [c])
  }

  /** `add_child` appends: one more child, the new one last, the earlier ones and every other field untouched. */
  lemma AddChildAppends(n: SceneNode, c: nat)
    ensures NChildren(WithChild(n, c)) == NChildren(n) + 1
    ensures ChildAt(WithChild(n, c), NChildren(n)) == c
    ensures forall k :: 0 <= k < NChildren(n) ==> ChildAt(WithChild(n, c), k) == ChildAt(n, k)
    ensures WithChild(n, c).(children := n.children) == n
  {
  }

  /**
   * The local transform, composed in a fixed order:
   * translate by the position, translate to the reference point, rotate about
   * Y, then Z, then X, translate back from the reference point, scale.
   */
  function LocalTransform(n: SceneNode): Mat {
    [ Translation(n.position),
      Translation(n.referencePoint),
      RotationY(n.rotation.y),
      RotationZ(n.rotation.z),
      RotationX(n.rotation.x),
      Translation(Neg(n.referencePoint)),
      Scaling(n.scale) ]
  }

  /**
   * A node at rest (zero position, rotation and reference point, unit scale),
   * as every factory builds it, has a local transform made only of identity
   * factors: translations by zero, rotations by zero and scaling by one.
   */
  lemma RestingLocalTransformIsIdentity(n: SceneNode)
    requires n.position == Zero() && n.rotation == Zero() && n.referencePoint == Zero()
    requires n.scale == Vec3(1.0, 1.0, 1.0)
    ensures forall k :: 0 <= k < |LocalTransform(n)| ==> IsIdentityFactor(LocalTransform(n)[k])
  {
  }

  /** The transform of a node is built by post-multiplying the identity step by step, as the update pass does. */
  method ComposeLocal(n: SceneNode) returns (transform: Mat)
    ensures transform == LocalTransform(n)
  {
    transform := Identity();
    transform := Translate(transform, n.position);
    transform := Translate(transform, n.referencePoint);
    transform := RotateY(transform, n.rotation.y);
    transform := RotateZ(transform, n.rotation.z);
    transform := RotateX(transform, n.rotation.x);
    transform := Translate(transform, Neg(n.referencePoint));
    transform := Scale(transform, n.scale);
  }
}
