/**
 * The shape of a scene graph stored in an arena: which nodes reach which,
 * and in what order a depth-first traversal visits them.
 *
 * The program links nodes by raw pointers and leaves it to the caller not to
 * build a cycle. Here that obligation is explicit: `AcyclicBy(nodes, rank)`
 * says that `rank` strictly decreases along every child link, which is
 * possible exactly when no node reaches itself. Traversals take the rank as a
 * ghost argument and terminate on it.
 */
module Forest {
  import opened Prelude
  import opened SceneNodes

  /** Every child reference is a valid index and has a smaller rank than its parent. */
  ghost predicate AcyclicBy(nodes: seq<SceneNode>, rank: seq<nat>) {
    && |rank| == |nodes|
    && forall p, j :: 0 <= p < |nodes| && 0 <= j < |nodes[p].children| ==>
         nodes[p].children[j] < |nodes| && rank[nodes[p].children[j]] < rank[p]
  }

  /** No node is referenced from two child slots: the arena holds a forest, not a DAG. */
  ghost predicate UniqueParents(nodes: seq<SceneNode>) {
    forall p, j, q, l ::
      0 <= p < |nodes| && 0 <= q < |nodes| &&
      0 <= j < |nodes[p].children| && 0 <= l < |nodes[q].children| &&
      nodes[p].children[j] == nodes[q].children[l]
      ==> p == q && j == l
  }

  /** Each of `cs` is a valid index ranked below `bound`. */
  ghost predicate ChildrenBelow(nodes: seq<SceneNode>, cs: seq<nat>, bound: nat, rank: seq<nat>)
    requires |rank| == |nodes|
  {
    forall j :: 0 <= j < |cs| ==> cs[j] < |nodes| && rank[cs[j]] < bound
  }

  /** The nodes visited by a pre-order depth-first walk from `i`: `i`, then each child's walk in child order. */
  ghost function Preorder(nodes: seq<SceneNode>, i: nat, rank: seq<nat>): (r: seq<nat>)
    requires AcyclicBy(nodes, rank) && i < |nodes|
    ensures |r| >= 1 && r[0] == i
    ensures forall k :: k in r ==> k < |nodes| && rank[k] <= rank[i]
    ensures forall j :: 0 <= j < |r| ==> r[j] < |nodes|
    decreases rank[i], 1
  {
    [i] + PreorderAll(nodes, nodes[i].children, rank[i], rank)
  }

  /** The pre-order walks of `cs`, one after the other. */
  ghost function PreorderAll(nodes: seq<SceneNode>, cs: seq<nat>, bound: nat, rank: seq<nat>): (r: seq<nat>)
    requires AcyclicBy(nodes, rank) && ChildrenBelow(nodes, cs, bound, rank)
    ensures forall k :: k in r ==> k < |nodes| && rank[k] < bound
    ensures forall j :: 0 <= j < |r| ==> r[j] < |nodes|
    decreases bound, 0, |cs|
  {
    if cs == [] then [] else Preorder(nodes, cs[0], rank) + PreorderAll(nodes, cs[1..], bound, rank)
  }

  /** A downward path: each entry is a child of the one before. */
  ghost predicate IsPath(nodes: seq<SceneNode>, path: seq<nat>) {
    && |path| >= 1
    && (forall j :: 0 <= j < |path| ==> path[j] < |nodes|)
    && (forall j :: 0 <= j < |path| - 1 ==> path[j + 1] in nodes[path[j]].children)
  }

  /** Whatever the walk of one of `cs` visits, the walk of all of `cs` visits. */
  lemma {:induction false} PreorderAllContains(nodes: seq<SceneNode>, cs: seq<nat>, bound: nat, rank: seq<nat>, l: nat, x: nat)
    requires AcyclicBy(nodes, rank) && ChildrenBelow(nodes, cs, bound, rank)
    requires l < |cs| && x in Preorder(nodes, cs[l], rank)
    ensures x in PreorderAll(nodes, cs, bound, rank)
    decreases |cs|
  {
    if l > 0 {
      PreorderAllContains(nodes, cs[1..], bound, rank, l - 1, x);
    }
  }

  /** Conversely, whatever the walk of all of `cs` visits, the walk of some `cs[l]` visits. */
  lemma {:induction false} PreorderAllMember(nodes: seq<SceneNode>, cs: seq<nat>, bound: nat, rank: seq<nat>, x: nat)
    returns (l: nat)
    requires AcyclicBy(nodes, rank) && ChildrenBelow(nodes, cs, bound, rank)
    requires x in PreorderAll(nodes, cs, bound, rank)
    ensures l < |cs| && x in Preorder(nodes, cs[l], rank)
    decreases |cs|
  {
    if x in Preorder(nodes, cs[0], rank) {
      l := 0;
    } else {
      var l' := PreorderAllMember(nodes, cs[1..], bound, rank, x);
      l := l' + 1;
    }
  }

  /** Reachability is transitive through a child link. */
  lemma ChildPreorderIncluded(nodes: seq<SceneNode>, rank: seq<nat>, p: nat, l: nat, x: nat)
    requires AcyclicBy(nodes, rank) && p < |nodes| && l < |nodes[p].children|
    requires x in Preorder(nodes, nodes[p].children[l], rank)
    ensures x in Preorder(nodes, p, rank)
  {
    PreorderAllContains(nodes, nodes[p].children, rank[p], rank, l, x);
  }

  /** The last node of a downward path is visited by the walk from its first node. */
  lemma {:induction false} PathInPreorder(nodes: seq<SceneNode>, rank: seq<nat>, path: seq<nat>)
    requires AcyclicBy(nodes, rank) && IsPath(nodes, path)
    ensures path[|path| - 1] in Preorder(nodes, path[0], rank)
    decreases |path|
  {
    if |path| > 1 {
      var rest := path[1..];
      assert IsPath(nodes, rest) by {
        forall j | 0 <= j < |rest| - 1 ensures rest[j + 1] in nodes[rest[j]].children {
          assert rest[j + 1] == path[j + 2] && rest[j] == path[j + 1];
        }
      }
      PathInPreorder(nodes, rank, rest);
      var cs := nodes[path[0]].children;
      assert path[1] in cs;
      var l :| 0 <= l < |cs| && cs[l] == path[1];
      ChildPreorderIncluded(nodes, rank, path[0], l, path[|path| - 1]);
    }
  }

  /** Every node other than `b` that the walk from `b` visits has a parent slot inside that walk. */
  lemma {:induction false} ParentInPreorder(nodes: seq<SceneNode>, rank: seq<nat>, b: nat, a: nat)
    returns (q: nat, m: nat)
    requires AcyclicBy(nodes, rank) && b < |nodes|
    requires a in Preorder(nodes, b, rank) && a != b
    ensures q < |nodes| && m < |nodes[q].children| && nodes[q].children[m] == a
    ensures q in Preorder(nodes, b, rank)
    decreases rank[b]
  {
    var cs := nodes[b].children;
    var l := PreorderAllMember(nodes, cs, rank[b], rank, a);
    var c := cs[l];
    if a == c {
      q, m := b, l;
    } else {
      q, m := ParentInPreorder(nodes, rank, c, a);
      ChildPreorderIncluded(nodes, rank, b, l, q);
    }
  }

  /** In a forest, two walks that meet are nested: one start reaches the other. */
  lemma {:induction false} CommonAncestor(nodes: seq<SceneNode>, rank: seq<nat>, a: nat, b: nat, d: nat)
    requires AcyclicBy(nodes, rank) && UniqueParents(nodes) && a < |nodes| && b < |nodes|
    requires d in Preorder(nodes, a, rank) && d in Preorder(nodes, b, rank)
    ensures a in Preorder(nodes, b, rank) || b in Preorder(nodes, a, rank)
    decreases rank[a] + rank[b] - 2 * rank[d]
  {
    if d != a && d != b {
      var q1, m1 := ParentInPreorder(nodes, rank, a, d);
      var q2, m2 := ParentInPreorder(nodes, rank, b, d);
      assert q1 == q2;
      CommonAncestor(nodes, rank, a, b, q1);
    }
  }

  /** In a forest, the walks from two different children of one node share no node. */
  lemma SiblingsDisjoint(nodes: seq<SceneNode>, rank: seq<nat>, p: nat, j: nat, l: nat, d: nat)
    requires AcyclicBy(nodes, rank) && UniqueParents(nodes) && p < |nodes|
    requires j < |nodes[p].children| && l < |nodes[p].children| && j != l
    requires d in Preorder(nodes, nodes[p].children[j], rank)
    ensures d !in Preorder(nodes, nodes[p].children[l], rank)
  {
    var cj, cl := nodes[p].children[j], nodes[p].children[l];
    if d in Preorder(nodes, cl, rank) {
      CommonAncestor(nodes, rank, cj, cl, d);
      if cj in Preorder(nodes, cl, rank) {
        var q, m := ParentInPreorder(nodes, rank, cl, cj);
        assert false;
      } else {
        var q, m := ParentInPreorder(nodes, rank, cj, cl);
        assert false;
      }
    }
  }

  /** In a forest, the walk from any node visits each node at most once. */
  lemma {:induction false} PreorderDistinct(nodes: seq<SceneNode>, rank: seq<nat>, i: nat)
    requires AcyclicBy(nodes, rank) && UniqueParents(nodes) && i < |nodes|
    ensures NoDuplicates(Preorder(nodes, i, rank))
    decreases rank[i], 1
  {
    var cs := nodes[i].children;
    assert cs[0..] == cs;
    ChildrenPreorderDistinct(nodes, rank, i, 0);
    ConcatNoDuplicates([i], PreorderAll(nodes, cs, rank[i], rank));
  }

  /** In a forest, the walks of the children `s..` of `p`, one after the other, repeat no node. */
  lemma {:induction false} ChildrenPreorderDistinct(nodes: seq<SceneNode>, rank: seq<nat>, p: nat, s: nat)
    requires AcyclicBy(nodes, rank) && UniqueParents(nodes) && p < |nodes| && s <= |nodes[p].children|
    ensures ChildrenBelow(nodes, nodes[p].children[s..], rank[p], rank)
    ensures NoDuplicates(PreorderAll(nodes, nodes[p].children[s..], rank[p], rank))
    decreases rank[p], 0, |nodes[p].children| - s
  {
    var cs := nodes[p].children[s..];
    if cs != [] {
      assert cs[0] == nodes[p].children[s] && cs[1..] == nodes[p].children[s + 1..];
      var first := Preorder(nodes, cs[0], rank);
      var later := PreorderAll(nodes, cs[1..], rank[p], rank);
      PreorderDistinct(nodes, rank, cs[0]);
      ChildrenPreorderDistinct(nodes, rank, p, s + 1);
      forall x | x in first ensures x !in later {
        if x in later {
          var l := PreorderAllMember(nodes, cs[1..], rank[p], rank, x);
          assert cs[1..][l] == nodes[p].children[s + 1 + l];
          SiblingsDisjoint(nodes, rank, p, s, s + 1 + l, x);
        }
      }
      ConcatNoDuplicates(first, later);
    }
  }

  /** Two duplicate-free sequences with no element in common concatenate to a duplicate-free one. */
  lemma ConcatNoDuplicates<T>(a: seq<T>, b: seq<T>)
    requires NoDuplicates(a) && NoDuplicates(b)
    requires forall x :: x in a ==> x !in b
    ensures NoDuplicates(a + b)
  {
    forall i, j | 0 <= i < j < |a + b| ensures (a + b)[i] != (a + b)[j] {
      if j >= |a| && i < |a| {
        assert (a + b)[i] == a[i] && (a + b)[j] == b[j - |a|];
        assert b[j - |a|] in b;
      } else if i >= |a| {
        assert (a + b)[i] == b[i - |a|] && (a + b)[j] == b[j - |a|];
      }
    }
  }
}
