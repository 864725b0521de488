/**
 * The transform pass as a function: which matrix each node holds after
 * `update_node_transformations(parent)` is run on node `i`, and the law it
 * obeys: a node's matrix is the parent matrix times the local transforms of
 * every node on the path from `i` down to it.
 *
 * The structure (`nodes`) is fixed during the pass; only the matrices change,
 * so they are kept in a separate sequence `mats` indexed like `nodes`.
 */
module Transforms {
  import opened Glm
  import opened SceneNodes
  import opened Forest

  /**
   * The matrices after the pass on `i`: `i` gets `parent * local(i)`, then
   * each child in turn is updated with that matrix as its parent.
   * Only nodes the walk from `i` visits change.
   */
  ghost function Updated(nodes: seq<SceneNode>, mats: seq<Mat>, i: nat, parent: Mat, rank: seq<nat>): (r: seq<Mat>)
    requires AcyclicBy(nodes, rank) && i < |nodes| && |mats| == |nodes|
    ensures |r| == |nodes|
    ensures forall k :: 0 <= k < |nodes| && k !in Preorder(nodes, i, rank) ==> r[k] == mats[k]
    decreases rank[i], 1
  {
    var world := Mul(parent, LocalTransform(nodes[i]));
    UpdateChildren(nodes, mats[i := world], nodes[i].children, world, rank[i], rank)
  }

  /** The pass applied to each of `cs`, first to last, with the same parent matrix. */
  ghost function UpdateChildren(nodes: seq<SceneNode>, mats: seq<Mat>, cs: seq<nat>, parent: Mat, bound: nat, rank: seq<nat>): (r: seq<Mat>)
    requires AcyclicBy(nodes, rank) && ChildrenBelow(nodes, cs, bound, rank) && |mats| == |nodes|
    ensures |r| == |nodes|
    ensures forall k :: 0 <= k < |nodes| && k !in PreorderAll(nodes, cs, bound, rank) ==> r[k] == mats[k]
    decreases bound, 0, |cs|
  {
    if cs == [] then mats
    else UpdateChildren(nodes, Updated(nodes, mats, cs[0], parent, rank), cs[1..], parent, bound, rank)
  }

  /** The product of the local transforms along a path, top first. */
  ghost function PathProduct(nodes: seq<SceneNode>, path: seq<nat>): Mat
    requires |path| >= 1 && forall j :: 0 <= j < |path| ==> path[j] < |nodes|
    decreases |path|
  {
    if |path| == 1 then LocalTransform(nodes[path[0]])
    else Mul(LocalTransform(nodes[path[0]]), PathProduct(nodes, path[1..]))
  }

  /**
   * The world-matrix law: after the pass on `path[0]` with parent matrix
   * `parent`, the last node of the path holds
   * `parent * local(path[0]) * ... * local(path[|path|-1])`.
   */
  lemma {:induction false} WorldIsPathProduct(nodes: seq<SceneNode>, mats: seq<Mat>, parent: Mat, rank: seq<nat>, path: seq<nat>)
    requires AcyclicBy(nodes, rank) && UniqueParents(nodes) && |mats| == |nodes| && IsPath(nodes, path)
    ensures Updated(nodes, mats, path[0], parent, rank)[path[|path| - 1]] == Mul(parent, PathProduct(nodes, path))
    decreases rank[path[0]], 1
  {
    var i := path[0];
    var world := Mul(parent, LocalTransform(nodes[i]));
    var cs := nodes[i].children;
    if |path| > 1 {
      var rest := path[1..];
      assert IsPath(nodes, rest) by {
        forall j | 0 <= j < |rest| - 1 ensures rest[j + 1] in nodes[rest[j]].children {
          assert rest[j + 1] == path[j + 2] && rest[j] == path[j + 1];
        }
      }
      assert path[1] in cs;
      var j :| 0 <= j < |cs| && cs[j] == path[1];
      assert cs[0..] == cs;
      ChildrenLaw(nodes, mats[i := world], i, 0, j, world, rank, rest);
      MulAssociative(parent, LocalTransform(nodes[i]), PathProduct(nodes, rest));
    }
  }

  /** The two-level case of the law: child `k` of `p` ends with `parent * local(p) * local(child)`. */
  lemma ChildWorld(nodes: seq<SceneNode>, mats: seq<Mat>, parent: Mat, rank: seq<nat>, p: nat, k: nat)
    requires AcyclicBy(nodes, rank) && UniqueParents(nodes) && |mats| == |nodes|
    requires p < |nodes| && k < |nodes[p].children|
    ensures Updated(nodes, mats, p, parent, rank)[nodes[p].children[k]]
         == Mul(parent, Mul(LocalTransform(nodes[p]), LocalTransform(nodes[nodes[p].children[k]])))
  {
    var c := nodes[p].children[k];
    var path := [p, c];
    var tail := [c];
    assert path[1..] == tail;
    assert PathProduct(nodes, path) == Mul(LocalTransform(nodes[p]), PathProduct(nodes, tail));
    WorldIsPathProduct(nodes, mats, parent, rank, path);
  }

  /**
   * The pass over the children `s..` of `p`: a node below child `j` ends with
   * `parent` times the path product from that child, because the later
   * siblings' passes never touch it.
   */
  lemma {:induction false} ChildrenLaw(nodes: seq<SceneNode>, mats: seq<Mat>, p: nat, s: nat, j: nat, parent: Mat, rank: seq<nat>, path: seq<nat>)
    requires AcyclicBy(nodes, rank) && UniqueParents(nodes) && |mats| == |nodes|
    requires p < |nodes| && s <= j < |nodes[p].children|
    requires IsPath(nodes, path) && path[0] == nodes[p].children[j]
    ensures ChildrenBelow(nodes, nodes[p].children[s..], rank[p], rank)
    ensures UpdateChildren(nodes, mats, nodes[p].children[s..], parent, rank[p], rank)[path[|path| - 1]]
         == Mul(parent, PathProduct(nodes, path))
    decreases rank[p], 0, |nodes[p].children| - s
  {
    UnfoldUpdateChildren(nodes, mats, p, s, parent, rank);
    var next := Updated(nodes, mats, nodes[p].children[s], parent, rank);
    if j == s {
      WorldIsPathProduct(nodes, mats, parent, rank, path);
      LaterSiblingsUntouched(nodes, next, p, s, parent, rank, path);
    } else {
      ChildrenLaw(nodes, next, p, s + 1, j, parent, rank, path);
    }
  }

  /** One step of the pass over the children `s..` of `p`: child `s` first, then the rest. */
  lemma UnfoldUpdateChildren(nodes: seq<SceneNode>, mats: seq<Mat>, p: nat, s: nat, parent: Mat, rank: seq<nat>)
    requires AcyclicBy(nodes, rank) && |mats| == |nodes| && p < |nodes| && s < |nodes[p].children|
    ensures ChildrenBelow(nodes, nodes[p].children[s..], rank[p], rank)
    ensures ChildrenBelow(nodes, nodes[p].children[s + 1..], rank[p], rank)
    ensures UpdateChildren(nodes, mats, nodes[p].children[s..], parent, rank[p], rank)
         == UpdateChildren(nodes, Updated(nodes, mats, nodes[p].children[s], parent, rank),
                           nodes[p].children[s + 1..], parent, rank[p], rank)
  {
    var cs := nodes[p].children[s..];
    assert cs[0] == nodes[p].children[s];
    assert cs[1..] == nodes[p].children[s + 1..];
  }

  /** The passes over the siblings after child `s` leave every node below child `s` alone. */
  lemma LaterSiblingsUntouched(nodes: seq<SceneNode>, mats: seq<Mat>, p: nat, s: nat, parent: Mat, rank: seq<nat>, path: seq<nat>)
    requires AcyclicBy(nodes, rank) && UniqueParents(nodes) && |mats| == |nodes|
    requires p < |nodes| && s < |nodes[p].children|
    requires IsPath(nodes, path) && path[0] == nodes[p].children[s]
    ensures ChildrenBelow(nodes, nodes[p].children[s + 1..], rank[p], rank)
    ensures UpdateChildren(nodes, mats, nodes[p].children[s + 1..], parent, rank[p], rank)[path[|path| - 1]]
         == mats[path[|path| - 1]]
  {
    var later := nodes[p].children[s + 1..];
    var d := path[|path| - 1];
    PathInPreorder(nodes, rank, path);
    if d in PreorderAll(nodes, later, rank[p], rank) {
      var l := PreorderAllMember(nodes, later, rank[p], rank, d);
      assert later[l] == nodes[p].children[s + 1 + l];
      SiblingsDisjoint(nodes, rank, p, s, s + 1 + l, d);
      assert false;
    }
  }

  /** The matrices held by the nodes, in arena order. */
  function Matrices(nodes: seq<SceneNode>): (r: seq<Mat>)
    ensures |r| == |nodes| && forall k :: 0 <= k < |nodes| ==> r[k] == nodes[k].matrix
  {
    seq(|nodes|, k requires 0 <= k < |nodes| => nodes[k].matrix)
  }

  /** `a` is `b` with possibly different matrices and nothing else changed. */
  ghost predicate SameExceptMatrices(a: seq<SceneNode>, b: seq<SceneNode>) {
    && |a| == |b|
    && forall k :: 0 <= k < |a| ==> a[k] == b[k].(matrix := a[k].matrix)
  }

  lemma AcyclicBySameShape(a: seq<SceneNode>, b: seq<SceneNode>, rank: seq<nat>)
    requires SameExceptMatrices(a, b) && AcyclicBy(b, rank)
    ensures AcyclicBy(a, rank)
  {
    forall p, j | 0 <= p < |a| && 0 <= j < |a[p].children|
      ensures a[p].children[j] < |a| && rank[a[p].children[j]] < rank[p]
    {
      assert a[p].children == b[p].children;
    }
  }

  /** The pass reads the structure and the local fields, never the matrices it is about to overwrite. */
  lemma {:induction false} UpdatedIgnoresStoredMatrices(a: seq<SceneNode>, b: seq<SceneNode>, mats: seq<Mat>, i: nat, parent: Mat, rank: seq<nat>)
    requires SameExceptMatrices(a, b) && AcyclicBy(a, rank) && AcyclicBy(b, rank) && i < |a| && |mats| == |a|
    ensures Updated(a, mats, i, parent, rank) == Updated(b, mats, i, parent, rank)
    decreases rank[i], 1
  {
    assert a[i].children == b[i].children && LocalTransform(a[i]) == LocalTransform(b[i]);
    var world := Mul(parent, LocalTransform(a[i]));
    UpdateChildrenIgnoresStoredMatrices(a, b, mats[i := world], a[i].children, world, rank[i], rank);
  }

  lemma {:induction false} UpdateChildrenIgnoresStoredMatrices(a: seq<SceneNode>, b: seq<SceneNode>, mats: seq<Mat>, cs: seq<nat>, parent: Mat, bound: nat, rank: seq<nat>)
    requires SameExceptMatrices(a, b) && AcyclicBy(a, rank) && AcyclicBy(b, rank) && |mats| == |a|
    requires ChildrenBelow(a, cs, bound, rank)
    ensures ChildrenBelow(b, cs, bound, rank)
    ensures UpdateChildren(a, mats, cs, parent, bound, rank) == UpdateChildren(b, mats, cs, parent, bound, rank)
    decreases bound, 0, |cs|
  {
    if cs != [] {
      UpdatedIgnoresStoredMatrices(a, b, mats, cs[0], parent, rank);
      UpdateChildrenIgnoresStoredMatrices(a, b, Updated(a, mats, cs[0], parent, rank), cs[1..], parent, bound, rank);
    }
  }
}
