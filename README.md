# Scene graph and event handling of a procedural-planet renderer, in Dafny

This project models the core of a small OpenGL renderer written in Rust that
draws procedurally generated planets. The model covers two parts.

- **The scene graph** (`src/scene_graph.rs`).
  - Scene nodes carry a local position, rotation, scale and reference point. They also carry a node-type tag, a vertex array, an index count, an optional texture, a cached world matrix and an ordered list of child pointers.
  - Three factories build nodes, and `add_child`/`get_child`/`get_n_children`/indexing manage the child list.
  - `update_node_transformations` recomputes every world matrix top-down.
  - `draw_scene` issues one draw call per drawable node in pre-order.
  - `make_cubesphere` assembles a planet from an Empty root and six Planet faces.
- **The window-event handler of the main loop** (`src/main.rs`). It keeps the vector of keys held down, which the render thread reads. It also decides after each event whether the loop waits for the next event or exits.

## How the model is built

- **Matrices** (`glm.dfy`, module `Glm`) form the free monoid over the elementary transforms: translation, rotation about X/Y/Z, scaling, and an opaque matrix supplied from outside.
  - The product is concatenation and the identity is the empty product.
  - `glm::translate(m, v)` and its siblings post-multiply.
  - Any equation proved between such products holds in every associative matrix algebra, so the proofs say nothing about floating point or trigonometry.
- **Nodes** (`scene_nodes.dfy`, module `SceneNodes`) are values. A child pointer becomes an index into an arena.
- **The arena** (`scene_graph.dfy`, class `SceneGraph.NodeArena`) holds every node ever boxed, at the index that stands for its address.
  - The in-place operations are methods of this class: boxing a node, `add_child`, the child accessors, `update_node_transformations` and `make_cubesphere`.
  - The program never frees or moves a node, so the arena only grows.
- **Tree shape** (`forest.dfy`, module `Forest`).
  - The program leaves it to the caller not to build a cycle. Here that obligation is a ghost rank that strictly decreases along every child link (`AcyclicBy`).
  - "No node has two parents" is `UniqueParents`.
  - Reachability and visiting order are both given by the pre-order walk `Preorder`.
- **The transform pass** (`transforms.dfy`, module `Transforms`) is specified by the value-level function `Updated`, which works on a separate sequence of matrices. The arena method `UpdateNodeTransformations` is proved to produce exactly those matrices and to change nothing else.
- **The draw pass** (`drawing.dfy`, module `Drawing`) is the pure function `DrawScene`. It returns the trace of draw records the OpenGL calls would consume. Each record holds the bound vertex array, `u_node_type`, `u_mvp`, `u_model`, the texture the draw binds to unit 0 (None when it issues no bind), `u_has_texture` and the index count.
- **The cubesphere** (`cubesphere.dfy`, module `Cubesphere`).
  - The mesh generator and the upload to the GPU are outside this model. The vertex array a face receives is a function `mkvao` of the arguments of its `cs_plane` call.
  - Face rotations are counted in quarter turns.
- **The event handler** (`event_loop.dfy`, module `EventLoop`).
  - It is the class `InputState`, with the key vector and the control-flow value as fields.
  - Its single method `HandleEvent` is proved against the functions `NextKeys` and `NextControlFlow`.
  - Whether the key-vector lock was obtained (`keysLocked`) is an input, and so is the health flag read from the render-thread watchdog (`None` when the read fails).

Behaviour kept exactly as the code has it:

- `u_has_texture` is set to 1 on both branches, whether or not the node has a texture.
- `make_cubesphere` ignores its `rotation` and `position` arguments. It replaces `subdivisions` with 256 and `color` with the fixed planet colour.
- An Escape key event requests exit whether the key was pressed or released.
- The `Q` arm does nothing.

## Model

| member | source | states |
|---|---|---|
| SceneNodes.TypeCode | src/scene_graph.rs:42-51 | the shader code of each node type: Geometry 0, Skybox 1, Geometry2d 2, Planet 3, Ocean 4, LightSource 5, Empty 6, each code for exactly one type |
| SceneNodes.New | src/scene_graph.rs:74-88 | a new node is Empty, at zero position, rotation and reference point, scale (1,1,1), identity matrix, default vertex array, index count -1, no texture, no name, no children |
| SceneNodes.WithType | src/scene_graph.rs:90-104 | identical to a new node except for the requested type |
| SceneNodes.FromVao | src/scene_graph.rs:106-120 | a Geometry node drawing the given vertex array with that array's index count, all else as a new node |
| SceneNodes.AddChildAppends | src/scene_graph.rs:122-124 | pushing a child adds exactly one child, last; earlier children and every other field are unchanged |
| SceneNodes.ComposeLocal | src/scene_graph.rs:179-191 | the step-by-step composition yields T(position) T(ref) Ry Rz Rx T(-ref) S(scale), in that order |
| SceneNodes.RestingLocalTransformIsIdentity | src/scene_graph.rs:179-191 | a node at rest (as every factory makes it) has a local transform made only of identity factors |
| Forest.Preorder | src/scene_graph.rs:197-199 | the walk from a node starts at that node and visits only valid nodes of rank no higher |
| Forest.PathInPreorder | src/scene_graph.rs:197-199 | every node reachable along child links is visited by the walk |
| Forest.SiblingsDisjoint | src/scene_graph.rs:197-199 | in a tree, the subtrees of two different children of a node share no node |
| Forest.PreorderDistinct | src/scene_graph.rs:197-199 | in a tree, the walk from any node visits each node at most once |
| Transforms.Updated | src/scene_graph.rs:174-200 | the transform pass from a node changes the matrices of the nodes it reaches and of no other node |
| Transforms.WorldIsPathProduct | src/scene_graph.rs:195-199 | after the pass, a node's matrix is the parent matrix times the local transforms along the path from the start node down to it |
| Transforms.ChildWorld | src/scene_graph.rs:195-199 | after the pass, each child holds parent * local(node) * local(child) |
| Transforms.UpdatedIgnoresStoredMatrices | src/scene_graph.rs:180-198 | the pass reads positions, rotations, scales and child lists, never the matrices it overwrites |
| Drawing.DrawScene | src/scene_graph.rs:202-251 | every draw record comes from a node the walk visits, drawable, with its type code, MVP (own matrix for Geometry2d, view-projection times matrix otherwise), model matrix, vertex array, texture, u_has_texture 1 and index count |
| Drawing.DrawSceneFollowsPreorder | src/scene_graph.rs:247-250 | the trace is the per-node draws of the pre-order walk, parent before children, children in order |
| Drawing.DrawAllDrawsDrawable | src/scene_graph.rs:212-245 | along any visit order, exactly the Geometry, Geometry2d, Planet, Ocean and Skybox nodes are drawn, in that order |
| Drawing.DrawSceneDrawsDrawablesInPreorder | src/scene_graph.rs:212-250 | the drawn nodes are exactly the drawable nodes of the pre-order walk; LightSource and Empty nodes draw nothing, yet their subtrees are drawn |
| Drawing.DrawSceneDrawsEachDrawableOnce | src/scene_graph.rs:212-250 | in a tree, every drawable node the walk reaches is drawn, and no node is drawn twice |
| Cubesphere.FacePlane | src/scene_graph.rs:319-385 | every face mesh is requested with unit scale, 256 subdivisions, the flag set and the fixed planet colour |
| Cubesphere.CubesphereLayout | src/scene_graph.rs:315-393 | the seven nodes land after the existing ones, which stay where they were |
| Cubesphere.CubesphereShape | src/scene_graph.rs:315-393 | whatever world matrices are stored in them, the root is an Empty node with the given scale and exactly six children, and each child is a Planet node drawing its own face's vertex array |
| Cubesphere.CubesphereKeepsForest | src/scene_graph.rs:387-392 | adding a cubesphere to an acyclic forest keeps it an acyclic forest |
| Cubesphere.CubespherePreorder | src/scene_graph.rs:387-393 | for any Empty root whose children are the six childless faces after it, the walk visits the root, then the six faces in order; position, rotation, scale, name, texture and matrices are free, so this also holds for a planet the caller has moved and after the transform pass |
| Cubesphere.CubesphereDraws | src/scene_graph.rs:212-250 | drawing a cubesphere issues exactly six draws, one per face and each face once, in creation order, each as a Planet seen through the camera with its face's vertex array and index count; it asks only for the planet's shape, so it also holds after the caller moves the planet and after the transform pass |
| Cubesphere.CubesphereWorld | src/scene_graph.rs:195-199 | after the pass on the root, face k holds parent * local(root) * local(face k) |
| Cubesphere.CubesphereSurvivesPass | src/scene_graph.rs:175-200 | a pass that changes only matrices leaves a cubesphere a cubesphere |
| Cubesphere.CubesphereHasPlanetShape | src/scene_graph.rs:307-394 | a cubesphere as `make_cubesphere` leaves it has the planet's shape: an Empty root, then six childless Planet faces, each with its own face's vertex array and index count |
| Cubesphere.PlanetShapeSurvivesPass | src/scene_graph.rs:175-200 | a pass that changes only matrices keeps the planet's shape |
| Cubesphere.FacesWorld | src/scene_graph.rs:195-199 | after the pass on the root, every face node's stored matrix is parent * local(root) * local(face) |
| SceneGraph.NodeArena.constructor | src/scene_graph.rs:19 | an empty arena, in which every child pointer is valid |
| SceneGraph.NodeArena.Alloc | src/scene_graph.rs:75 | boxing a fresh node puts it at the first free index and moves nothing |
| SceneGraph.NodeArena.AddChild | src/scene_graph.rs:122-124 | the parent's child list gains the child at its end; no other node changes; child pointers stay valid |
| SceneGraph.NodeArena.GetChild | src/scene_graph.rs:126-131 | the child at the given position of the parent's list, a valid node |
| SceneGraph.NodeArena.GetNChildren | src/scene_graph.rs:133-136 | the number of children of the node |
| SceneGraph.NodeArena.UpdateNodeTransformations | src/scene_graph.rs:174-200 | the matrices afterwards are those of the pass `Updated` on the old arena, and nothing but matrices changes |
| SceneGraph.NodeArena.AllocFaces | src/scene_graph.rs:319-385 | the six face nodes are boxed in the order Top, Bottom, Front, Back, Left, Right |
| SceneGraph.NodeArena.AddFaces | src/scene_graph.rs:387-392 | the six faces are appended to the root's children in creation order |
| SceneGraph.NodeArena.MakeCubesphere | src/scene_graph.rs:307-394 | the arena gains exactly a cubesphere rooted at the returned index, and the old nodes are untouched |
| SceneGraph.NodeArena.RenderCubesphere | src/scene_graph.rs:175-251 | one frame on a cubesphere (the transform pass on its root, then the draw pass) changes only matrices, and draws face k once, k-th, as a Planet with its own vertex array and index count and MVP viewProjection * parent * local(root) * local(face k), wherever the caller has placed, spun or scaled the root |
| SceneGraph.CubesphereAfterPass | src/scene_graph.rs:175-251 | the same frame stated on values: after the pass the arena is still acyclic, and the draws that follow are those of `FacesDrawn` |
| SceneGraph.CubesphereFrame | src/scene_graph.rs:175-251 | the draws from the root of an updated cubesphere, placed or not, are the six faces, once each, in order, with MVP viewProjection * parent * local(root) * local(face k) |
| EventLoop.IndexOf | src/main.rs:164 | the position of the first occurrence of a key |
| EventLoop.Position | src/main.rs:164 | the search returns the first index holding the key |
| EventLoop.NextControlFlow | src/main.rs:121-179 | the handler never sets the flow to Poll; it exits exactly when the health flag reads false, the window is asked to close, or the event is a keyboard event for Escape |
| EventLoop.InputState.constructor | src/main.rs:51 | no key is held at start |
| EventLoop.InputState.HandleEvent | src/main.rs:120-197 | the key vector and control flow after one event are those of `NextKeys` and `NextControlFlow`; a duplicate-free key vector stays duplicate-free |
| EventLoop.PressAppends | src/main.rs:167-171 | pressing an absent key appends it at the end; pressing a present key changes nothing; pressing twice is the same as once |
| EventLoop.PressKeepsNoDuplicates | src/main.rs:167-171 | after a press the vector holds the old keys and the pressed one, without duplicates |
| EventLoop.ReleaseIsWithout | src/main.rs:162-166 | with no duplicates, a release removes the key and keeps the remaining keys in their order |
| EventLoop.WithoutMembers | src/main.rs:162-166 | a key remains after removal iff it was there and is not the removed key |
| EventLoop.ReleaseRemoves | src/main.rs:162-166 | after a release the released key is gone, every other key stays, and releasing an absent key changes nothing |
| EventLoop.ReleaseUndoesPress | src/main.rs:160-174 | releasing a key just pressed restores the vector as it was |
| EventLoop.NextKeysKeepsNoDuplicates | src/main.rs:160-174 | no single event introduces a duplicate key |
| EventLoop.RunKeysKeepsNoDuplicates | src/main.rs:160-174 | no sequence of events ever introduces a duplicate key |

## Left out

- OpenGL calls: binding the vertex array and texture, setting the uniforms, `DrawElements`, and the `update_buffers`/`update_*_buffer` family (src/scene_graph.rs:253-305). These are device side effects. The draw pass is modelled as the trace of what those calls receive.
- Floating-point matrix arithmetic and trigonometry. Matrices are formal products, so the laws proved here hold in exact arithmetic. With f32 the product is associative only up to rounding.
- `ManuallyDrop<Pin<Box<…>>>` and raw-pointer aliasing (src/scene_graph.rs:19). Pointers are arena indices, and acyclicity is an explicit precondition on the passes.
- `print` (src/scene_graph.rs:139-172), which only formats output.
- `LightSource::new` (src/scene_graph.rs:33-39), a wrapper around `with_type`.
- The cubesphere mesh generation and `mkvao`. `src/mesh.rs` is not part of this model, so the geometry of a face is not modelled. `mkvao` is taken to be a deterministic function of the `cs_plane` arguments. In the program each call creates fresh GPU objects.
- `VAOobj` and its `Default`. They are defined in `src/mesh.rs`, which is not part of this model. The model keeps only the handle and the index count, and takes the default to be all zero.
- Window and context creation, the GL setup, the render and watchdog threads, and the `Arc<Mutex>`/`RwLock` sharing (src/main.rs:34-115). The outcome of each lock is an input of `HandleEvent`.
- Mouse-delta accumulation (src/main.rs:190-193), which is f32 addition behind a lock, and the `println!` on resize.
- SceneGraph.NodeArena.Alloc: only childless nodes are boxed, as every factory makes them.
- SceneGraph.NodeArena.GetChild: an index past the end of the child list panics in the program; the model excludes it by precondition. The same holds for `Index` and `IndexMut` (src/scene_graph.rs:400-414), which the same method stands for.
- Transforms.WorldIsPathProduct: the path law needs `UniqueParents`. When a node is shared by two parents, the program leaves it with the matrix of the last visit. The model covers that case only through the frame property of `Updated`.
- SceneNodes.RestingLocalTransformIsIdentity: the model states that every factor is an identity factor, not that the world matrix of a node at rest equals its parent's. Factors are uninterpreted here.
- Drawing.DrawScene: a drawable node without a vertex array is drawn like any other, as the code does. The program performs no "missing draw handle" check.
