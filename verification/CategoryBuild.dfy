/** `BuildCategoryTree` on mutable nodes: the grouping by parent and the recursive `build` that links the children. */
module CategoryBuild {
  import opened CategoryTree

  class TreeNode<A> {
    const cat: Category<A>
    var children: seq<TreeNode<A>>

    constructor (cat: Category<A>)
      ensures this.cat == cat && children == []
    {
      this.cat, this.children := cat, [];
    }
  }

  /** The nodes of a category map, by ID. */
  type NodeMap<A> = map<nat, TreeNode<A>>

  ghost predicate NodesOf<A>(m: CategoryMap<A>, nodeOf: NodeMap<A>) {
    && nodeOf.Keys == m.Keys
    && (forall id :: id in m ==> nodeOf[id].cat == m[id])
    && (forall a, b :: a in nodeOf && b in nodeOf && nodeOf[a] == nodeOf[b] ==> a == b)
  }

  ghost function Objects<A>(nodeOf: NodeMap<A>): set<TreeNode<A>> {
    set id | id in nodeOf :: nodeOf[id]
  }

  ghost function Nodes<A>(nodeOf: NodeMap<A>, ids: seq<nat>): (ns: seq<TreeNode<A>>)
    requires forall i :: 0 <= i < |ids| ==> ids[i] in nodeOf
    ensures |ns| == |ids| && forall i :: 0 <= i < |ids| ==> ns[i] == nodeOf[ids[i]]
  {
    seq(|ids|, i requires 0 <= i < |ids| => nodeOf[ids[i]])
  }

  /** `childrenMap`: the nodes of every parent, in iteration order. */
  ghost predicate Grouped<A>(m: CategoryMap<A>, order: seq<nat>, nodeOf: NodeMap<A>,
                             groups: map<nat, seq<TreeNode<A>>>) {
    forall p: nat ::
      && (forall i :: 0 <= i < |Kids(m, order, p)| ==> Kids(m, order, p)[i] in nodeOf)
      && (if p in groups then groups[p] else []) == Nodes(nodeOf, Kids(m, order, p))
  }

  /** The children of `id` have been linked. */
  ghost predicate Linked<A>(m: CategoryMap<A>, order: seq<nat>, nodeOf: NodeMap<A>, id: nat)
    requires NodesOf(m, nodeOf) && id in m
    reads Objects(nodeOf)
  {
    && (forall i :: 0 <= i < |Kids(m, order, id)| ==> Kids(m, order, id)[i] in nodeOf)
    && nodeOf[id].children == Nodes(nodeOf, Kids(m, order, id))
  }

  /** The objects `ns` and their descendants are the forest `f`. */
  ghost predicate Represents<A>(objects: set<TreeNode<A>>, ns: seq<TreeNode<A>>, f: seq<Tree<A>>)
    reads objects
    decreases f
  {
    && |ns| == |f|
    && (f != [] ==>
          && ns[0] in objects
          && ns[0].cat == f[0].cat
          && Represents(objects, ns[0].children, f[0].children)
          && Represents(objects, ns[1..], f[1..]))
  }

  /** Linked nodes represent the forest of their IDs. */
  lemma {:induction false} LinkedRepresents<A>(m: CategoryMap<A>, order: seq<nat>, nodeOf: NodeMap<A>, ids: seq<nat>,
                                               d: nat)
    requires Snapshot(m) && NodesOf(m, nodeOf) && d > 0 && AtDepth(m, ids, d)
    requires forall id :: id in Ids(Forest(m, order, ids, d)) ==> id in m && Linked(m, order, nodeOf, id)
    ensures Represents(Objects(nodeOf), Nodes(nodeOf, ids), Forest(m, order, ids, d))
    decreases |m| + 1 - d, |ids|
  {
    hide Kids, Forest, Ids;
    if ids == [] {
      assert Forest(m, order, ids, d) == [] by { EmptyForest(m, order, d); }
    } else {
      var a := ids[0];
      var kids := Kids(m, order, a);
      Unfold(m, order, ids, d);
      var t := Node(m[a], Forest(m, order, kids, d + 1));
      var rest := Forest(m, order, ids[1..], d);
      IdsUnfold(t, rest, a);
      assert a in Ids(Forest(m, order, ids, d));
      LinkedRepresents(m, order, nodeOf, kids, d + 1);
      LinkedRepresents(m, order, nodeOf, ids[1..], d);
      assert Nodes(nodeOf, ids)[1..] == Nodes(nodeOf, ids[1..]);
      assert ([t] + rest)[1..] == rest;
    }
  }

  lemma EmptyForest<A>(m: CategoryMap<A>, order: seq<nat>, d: nat)
    requires 0 !in m && d > 0
    ensures Forest(m, order, [], d) == []
  {
  }

  lemma {:induction false} MemberIds<A>(m: CategoryMap<A>, order: seq<nat>, ids: seq<nat>, d: nat, x: nat)
    returns (i: nat)
    requires Snapshot(m) && d > 0 && AtDepth(m, ids, d) && x in Ids(Forest(m, order, ids, d))
    ensures i < |ids| && AtDepth(m, Kids(m, order, ids[i]), d + 1)
    ensures x == ids[i] || x in Ids(Forest(m, order, Kids(m, order, ids[i]), d + 1))
    decreases |ids|
  {
    hide Kids, Forest, Ids;
    if ids == [] {
      NoIds(m, order, d);
    } else {
      var kids := Kids(m, order, ids[0]);
      Unfold(m, order, ids, d);
      IdsUnfold(Node(m[ids[0]], Forest(m, order, kids, d + 1)), Forest(m, order, ids[1..], d), x);
      if x == ids[0] || x in Ids(Forest(m, order, kids, d + 1)) {
        i := 0;
      } else {
        i := MemberIds(m, order, ids[1..], d, x);
        i := i + 1;
      }
    }
  }

  /** The categories whose children have been linked. */
  ghost function Done<A>(m: CategoryMap<A>, order: seq<nat>, nodeOf: NodeMap<A>): set<nat>
    requires NodesOf(m, nodeOf)
    reads Objects(nodeOf)
  {
    set id | id in m && Linked(m, order, nodeOf, id)
  }

  /** `done` has all of the forest below `p`. */
  ghost predicate DoneBelow<A>(m: CategoryMap<A>, order: seq<nat>, done: set<nat>, p: nat, d: nat)
    requires Snapshot(m) && ReachesIn(m, p, d)
  {
    forall x :: x in Ids(Below(m, order, p, d)) ==> x in done
  }

  /** `done` has `ids` and everything below them. */
  ghost predicate DoneFrom<A>(m: CategoryMap<A>, order: seq<nat>, done: set<nat>, ids: seq<nat>, d: nat)
    requires Snapshot(m) && AtDepth(m, ids, d)
  {
    forall j :: 0 <= j < |ids| ==> ids[j] in done && DoneBelow(m, order, done, ids[j], d)
  }

  /** `node.Children = ...`: every other node keeps its links. */
  method Link<A>(m: CategoryMap<A>, ghost order: seq<nat>, ghost nodeOf: NodeMap<A>, ghost id: nat,
                 node: TreeNode<A>, sub: seq<TreeNode<A>>)
    requires NodesOf(m, nodeOf) && id in m && node == nodeOf[id]
    requires forall i :: 0 <= i < |Kids(m, order, id)| ==> Kids(m, order, id)[i] in nodeOf
    requires sub == Nodes(nodeOf, Kids(m, order, id))
    modifies node
    ensures Done(m, order, nodeOf) == old(Done(m, order, nodeOf)) + {id}
  {
    hide Kids;
    node.children := sub;
    assert forall x :: x in m && x != id ==> (Linked(m, order, nodeOf, x) <==> old(Linked(m, order, nodeOf, x)));
  }

  lemma GroupOf<A>(m: CategoryMap<A>, order: seq<nat>, nodeOf: NodeMap<A>, groups: map<nat, seq<TreeNode<A>>>, p: nat)
    requires NodesOf(m, nodeOf) && Grouped(m, order, nodeOf, groups)
    ensures forall i :: 0 <= i < |Kids(m, order, p)| ==> Kids(m, order, p)[i] in nodeOf
    ensures (if p in groups then groups[p] else []) == Nodes(nodeOf, Kids(m, order, p))
  {
    hide Kids;
  }

  lemma NodeFacts<A>(m: CategoryMap<A>, nodeOf: NodeMap<A>, id: nat)
    requires Snapshot(m) && NodesOf(m, nodeOf) && id in m
    ensures id in nodeOf && nodeOf[id] in Objects(nodeOf) && nodeOf[id].cat.id == id
  {
  }

  lemma DoneFromKids<A>(m: CategoryMap<A>, order: seq<nat>, done: set<nat>, p: nat, d: nat)
    requires Snapshot(m) && ReachesIn(m, p, d)
    requires AtDepth(m, Kids(m, order, p), d + 1) && DoneFrom(m, order, done, Kids(m, order, p), d + 1)
    ensures DoneBelow(m, order, done, p, d)
  {
    hide Kids, Forest, Ids;
    forall x | x in Ids(Below(m, order, p, d))
      ensures x in done
    {
      var i := MemberIds(m, order, Kids(m, order, p), d + 1, x);
    }
  }

  lemma DoneFromMore<A>(m: CategoryMap<A>, order: seq<nat>, done: set<nat>, more: set<nat>, ids: seq<nat>, c: nat,
                        d: nat)
    requires Snapshot(m) && AtDepth(m, ids + [c], d) && AtDepth(m, ids, d) && done <= more && c in more
    requires ReachesIn(m, c, d)
    requires DoneFrom(m, order, done, ids, d) && DoneBelow(m, order, more, c, d)
    ensures DoneFrom(m, order, more, ids + [c], d)
  {
    hide Below, Ids;
  }

  /**
   `build`: links the children of every category below `p` and returns the nodes of `p`. It ends because a
   parent chain that reaches 0 visits no category twice; links made earlier stay as they are.
   */
  method Build<A>(m: CategoryMap<A>, ghost order: seq<nat>, ghost nodeOf: NodeMap<A>,
                  groups: map<nat, seq<TreeNode<A>>>, p: nat, ghost d: nat)
    returns (nodes: seq<TreeNode<A>>)
    requires Snapshot(m) && NodesOf(m, nodeOf) && Grouped(m, order, nodeOf, groups)
    requires ReachesIn(m, p, d)
    modifies Objects(nodeOf)
    ensures forall i :: 0 <= i < |Kids(m, order, p)| ==> Kids(m, order, p)[i] in nodeOf
    ensures nodes == Nodes(nodeOf, Kids(m, order, p))
    ensures DoneBelow(m, order, Done(m, order, nodeOf), p, d)
    ensures old(Done(m, order, nodeOf)) <= Done(m, order, nodeOf)
    decreases |m| + 1 - d
  {
    hide Kids, Done, NodesOf, Grouped, DoneBelow, DoneFrom, Objects;
    ghost var ids := Kids(m, order, p);
    KidsAtDepth(m, order, p, d);
    DepthBound(m, p, d);
    GroupOf(m, order, nodeOf, groups, p);
    nodes := if p in groups then groups[p] else [];
    assert DoneFrom(m, order, Done(m, order, nodeOf), ids[..0], d + 1) by {
      DoneNothing(m, order, Done(m, order, nodeOf), d + 1);
    }
    for i := 0 to |nodes|
      invariant DoneFrom(m, order, Done(m, order, nodeOf), ids[..i], d + 1)
      invariant old(Done(m, order, nodeOf)) <= Done(m, order, nodeOf)
    {
      ghost var c := ids[i];
      ghost var before := Done(m, order, nodeOf);
      NodeFacts(m, nodeOf, c);
      DepthBound(m, c, d + 1);
      var sub := Build(m, order, nodeOf, groups, nodes[i].cat.id, d + 1);
      ghost var middle := Done(m, order, nodeOf);
      Link(m, order, nodeOf, c, nodes[i], sub);
      DoneBelowMore(m, order, middle, Done(m, order, nodeOf), c, d + 1);
      DoneFromMore(m, order, before, Done(m, order, nodeOf), ids[..i], c, d + 1);
      assert ids[..i + 1] == ids[..i] + [c];
    }
    assert ids[..|ids|] == ids;
    DoneFromKids(m, order, Done(m, order, nodeOf), p, d);
  }

  lemma DoneNothing<A>(m: CategoryMap<A>, order: seq<nat>, done: set<nat>, d: nat)
    requires Snapshot(m)
    ensures DoneFrom(m, order, done, [], d)
  {
  }

  lemma DoneBelowMore<A>(m: CategoryMap<A>, order: seq<nat>, done: set<nat>, more: set<nat>, p: nat, d: nat)
    requires Snapshot(m) && ReachesIn(m, p, d) && done <= more && DoneBelow(m, order, done, p, d)
    ensures DoneBelow(m, order, more, p, d)
  {
    hide Below, Ids;
  }

  // ----- grouping, and the whole of it -----

  lemma KidsSnoc<A>(m: CategoryMap<A>, order: seq<nat>, id: nat, p: nat)
    requires id in m
    ensures Kids(m, order + [id], p) == Kids(m, order, p) + if m[id].parent == p then [id] else []
  {
    assert (order + [id])[..|order|] == order;
  }

  lemma {:induction false} GroupedSnoc<A>(m: CategoryMap<A>, order: seq<nat>, nodeOf: NodeMap<A>,
                                          groups: map<nat, seq<TreeNode<A>>>,
                                          id: nat, node: TreeNode<A>, groups': map<nat, seq<TreeNode<A>>>)
    requires id in m && id !in nodeOf && Grouped(m, order, nodeOf, groups)
    requires var q := m[id].parent; groups' == groups[q := (if q in groups then groups[q] else []) + [node]]
    ensures Grouped(m, order + [id], nodeOf[id := node], groups')
  {
    hide Kids;
    var nodeOf' := nodeOf[id := node];
    forall p: nat
      ensures forall i :: 0 <= i < |Kids(m, order + [id], p)| ==> Kids(m, order + [id], p)[i] in nodeOf'
      ensures (if p in groups' then groups'[p] else []) == Nodes(nodeOf', Kids(m, order + [id], p))
    {
      KidsSnoc(m, order, id, p);
      assert Nodes(nodeOf, Kids(m, order, p)) == Nodes(nodeOf', Kids(m, order, p));
    }
  }

  /** Nodes for some of the categories. */
  ghost predicate SomeNodes<A>(m: CategoryMap<A>, nodeOf: NodeMap<A>, done: set<nat>) {
    && nodeOf.Keys == done <= m.Keys
    && (forall id :: id in nodeOf ==> nodeOf[id].cat == m[id])
    && (forall a, b :: a in nodeOf && b in nodeOf && nodeOf[a] == nodeOf[b] ==> a == b)
  }

  lemma OneMore<A>(m: CategoryMap<A>, nodeOf: NodeMap<A>, done: set<nat>, order: seq<nat>, id: nat, node: TreeNode<A>)
    requires SomeNodes(m, nodeOf, done) && multiset(order) == multiset(done)
    requires id in m && id !in done && node.cat == m[id] && node !in Objects(nodeOf)
    ensures SomeNodes(m, nodeOf[id := node], done + {id}) && multiset(order + [id]) == multiset(done + {id})
    ensures Objects(nodeOf[id := node]) == Objects(nodeOf) + {node}
  {
    assert multiset(done + {id}) == multiset(done) + multiset{id};
    forall a | a in nodeOf
      ensures nodeOf[a] != node
    {
      assert nodeOf[a] in Objects(nodeOf);
    }
  }

  lemma AllNodes<A>(m: CategoryMap<A>, nodeOf: NodeMap<A>, done: set<nat>)
    requires SomeNodes(m, nodeOf, done) && forall id :: id in m ==> id in done
    ensures NodesOf(m, nodeOf) && done == m.Keys
  {
  }

  lemma NoNodes<A>(m: CategoryMap<A>)
    ensures SomeNodes(m, map[], {}) && Objects<A>(map[]) == {} && Grouped(m, [], map[], map[])
  {
  }

  /** The loop that fills `childrenMap`, in the random order of the map iteration. */
  method GroupByParent<A>(m: CategoryMap<A>)
    returns (groups: map<nat, seq<TreeNode<A>>>, ghost order: seq<nat>, ghost nodeOf: NodeMap<A>)
    ensures Enumerates(order, m) && NodesOf(m, nodeOf) && Grouped(m, order, nodeOf, groups)
    ensures fresh(Objects(nodeOf))
  {
    hide Grouped, SomeNodes, NodesOf, Objects;
    groups, order, nodeOf := map[], [], map[];
    NoNodes(m);
    var todo := m.Keys;
    ghost var done: set<nat> := {};
    ghost var objects: set<TreeNode<A>> := {};
    while todo != {}
      invariant forall id :: id in todo <==> id in m && id !in done
      invariant nodeOf.Keys == done
      invariant multiset(order) == multiset(done)
      invariant objects == Objects(nodeOf) && fresh(objects)
      invariant SomeNodes(m, nodeOf, done)
      invariant Grouped(m, order, nodeOf, groups)
    {
      var id :| id in todo;
      var node := new TreeNode(m[id]);
      assert node !in objects;
      var q := m[id].parent;
      ghost var before := groups;
      groups := groups[q := (if q in groups then groups[q] else []) + [node]];
      GroupedSnoc(m, order, nodeOf, before, id, node, groups);
      OneMore(m, nodeOf, done, order, id, node);
      nodeOf := nodeOf[id := node];
      objects := objects + {node};
      order := order + [id];
      todo := todo - {id};
      done := done + {id};
    }
    AllNodes(m, nodeOf, done);
  }

  /** `BuildCategoryTree` for parent 0 on an empty tree cache: the objects are the abstract tree. */
  method BuildCategoryTree<A>(m: CategoryMap<A>)
    returns (tree: seq<TreeNode<A>>, ghost order: seq<nat>, ghost objects: set<TreeNode<A>>)
    requires Snapshot(m)
    ensures Enumerates(order, m) && fresh(objects)
    ensures Represents(objects, tree, BuildTree(m, order))
  {
    hide Kids, Forest, Ids, Grouped, Linked, NodesOf, Represents;
    ghost var nodeOf;
    var groups;
    groups, order, nodeOf := GroupByParent(m);
    tree := Build(m, order, nodeOf, groups, 0, 0);
    objects := Objects(nodeOf);
    KidsAtDepth(m, order, 0, 0);
    LinkedRepresents(m, order, nodeOf, Kids(m, order, 0), 1);
  }

  /** `findSubtree` on the objects finds what `FindSubtree` finds in the tree they represent. */
  method FindSubtreeNodes<A>(ghost objects: set<TreeNode<A>>, nodes: seq<TreeNode<A>>, ghost f: seq<Tree<A>>, pid: nat)
    returns (sub: seq<TreeNode<A>>)
    requires Represents(objects, nodes, f)
    ensures Represents(objects, sub, FindSubtree(f, pid))
    decreases f
  {
    if nodes == [] {
      return [];
    }
    if nodes[0].cat.id == pid {
      return nodes[0].children;
    }
    sub := FindSubtreeNodes(objects, nodes[0].children, f[0].children, pid);
    if sub != [] {
      return;
    }
    sub := FindSubtreeNodes(objects, nodes[1..], f[1..], pid);
  }
}
