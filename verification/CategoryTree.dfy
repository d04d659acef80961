/**
 The category tree (`BuildCategoryTree`) as a value: the recursive build, the subtree search, and what the
 tree holds for parent links that may contain cycles. `CategoryBuild` links it in place.
 */
module CategoryTree {

  /** A row of the category map; `attrs` is everything but the two IDs. */
  datatype Category<A> = Category(id: nat, parent: nat, attrs: A)
  type CategoryMap<A> = map<nat, Category<A>>

  /** The abstract value of a tree node and its children. */
  datatype Tree<A> = Node(cat: Category<A>, children: seq<Tree<A>>)

  /** The map is keyed by ID and no category has ID 0, the parent of the roots. */
  predicate Snapshot<A>(m: CategoryMap<A>) {
    0 !in m && forall id :: id in m ==> m[id].id == id
  }

  // ----- parent chains -----

  /** The parent chain of `id` reaches 0 after `d` steps. */
  predicate ReachesIn<A>(m: CategoryMap<A>, id: nat, d: nat)
    decreases d
  {
    if d == 0 then id == 0 else id in m && ReachesIn(m, m[id].parent, d - 1)
  }

  ghost predicate Reachable<A>(m: CategoryMap<A>, id: nat) {
    exists d: nat :: ReachesIn(m, id, d)
  }

  lemma {:induction false} DepthUnique<A>(m: CategoryMap<A>, id: nat, d: nat, e: nat)
    requires 0 !in m && ReachesIn(m, id, d) && ReachesIn(m, id, e)
    ensures d == e
    decreases d
  {
    if d > 0 && e > 0 {
      DepthUnique(m, m[id].parent, d - 1, e - 1);
    }
  }

  /** A chain that starts below depth `d` does not pass through a category of depth `d`. */
  lemma {:induction false} ChainAvoids<A>(m: CategoryMap<A>, id: nat, d: nat, x: nat, e: nat)
    requires 0 !in m && ReachesIn(m, id, d) && ReachesIn(m, x, e) && e < d
    ensures ReachesIn(m - {id}, x, e)
    decreases e
  {
    if e > 0 {
      if x == id {
        DepthUnique(m, id, d, e);
      }
      ChainAvoids(m, id, d, m[x].parent, e - 1);
    }
  }

  /** A chain never visits a category twice, so its length is bounded by the number of categories. */
  lemma {:induction false} DepthBound<A>(m: CategoryMap<A>, id: nat, d: nat)
    requires 0 !in m && ReachesIn(m, id, d)
    ensures d <= |m|
    decreases d
  {
    if d > 0 {
      ChainAvoids(m, id, d, m[id].parent, d - 1);
      DepthBound(m - {id}, m[id].parent, d - 1);
      assert (m - {id}).Keys == m.Keys - {id};
      assert |m.Keys - {id}| == |m.Keys| - 1;
    }
  }

  /** The category at depth `d` on the chain of `x`, which has depth `e`. */
  function AncestorAt<A>(m: CategoryMap<A>, x: nat, e: nat, d: nat): nat
    requires ReachesIn(m, x, e) && d <= e
    decreases e
  {
    if d == e then x else AncestorAt(m, m[x].parent, e - 1, d)
  }

  lemma {:induction false} AncestorStep<A>(m: CategoryMap<A>, x: nat, e: nat, d: nat)
    requires ReachesIn(m, x, e) && d < e
    ensures ReachesIn(m, AncestorAt(m, x, e, d + 1), d + 1)
    ensures m[AncestorAt(m, x, e, d + 1)].parent == AncestorAt(m, x, e, d)
    decreases e
  {
    if d + 1 < e {
      AncestorStep(m, m[x].parent, e - 1, d);
    }
  }

  // ----- the tree as a value -----

  /** `order` is an iteration order of the category map. */
  ghost predicate Enumerates<A>(order: seq<nat>, m: CategoryMap<A>) {
    multiset(order) == multiset(m.Keys)
  }

  /** The children of `p`, in the order in which the map iteration met them. */
  function Kids<A>(m: CategoryMap<A>, order: seq<nat>, p: nat): seq<nat> {
    if order == [] then []
    else
      var id := order[|order| - 1];
      Kids(m, order[..|order| - 1], p) + if id in m && m[id].parent == p then [id] else []
  }

  lemma {:induction false} KidsCount<A>(m: CategoryMap<A>, order: seq<nat>, p: nat, x: nat)
    ensures multiset(Kids(m, order, p))[x] == if x in m && m[x].parent == p then multiset(order)[x] else 0
    decreases |order|
  {
    if order != [] {
      var n := |order| - 1;
      KidsCount(m, order[..n], p, x);
      assert order == order[..n] + [order[n]];
    }
  }

  lemma KidsAre<A>(m: CategoryMap<A>, order: seq<nat>, p: nat)
    requires Enumerates(order, m)
    ensures forall x :: multiset(Kids(m, order, p))[x] == if x in m && m[x].parent == p then 1 else 0
    ensures forall x :: x in Kids(m, order, p) <==> x in m && m[x].parent == p
  {
    forall x
      ensures multiset(Kids(m, order, p))[x] == if x in m && m[x].parent == p then 1 else 0
      ensures x in Kids(m, order, p) <==> x in m && m[x].parent == p
    {
      KidsCount(m, order, p, x);
      assert x in Kids(m, order, p) <==> multiset(Kids(m, order, p))[x] > 0;
    }
  }

  /** All of `ids` sit at depth `d`. */
  predicate AtDepth<A>(m: CategoryMap<A>, ids: seq<nat>, d: nat) {
    forall i :: 0 <= i < |ids| ==> ids[i] in m && ReachesIn(m, ids[i], d)
  }

  lemma {:induction false} KidsAtDepth<A>(m: CategoryMap<A>, order: seq<nat>, p: nat, d: nat)
    requires ReachesIn(m, p, d)
    ensures AtDepth(m, Kids(m, order, p), d + 1)
    decreases |order|
  {
    if order != [] {
      KidsAtDepth(m, order[..|order| - 1], p, d);
    }
  }

  /** The subtrees rooted at `ids`: what `build` returns, if it comes to an end. */
  ghost function Forest<A>(m: CategoryMap<A>, order: seq<nat>, ids: seq<nat>, d: nat): seq<Tree<A>>
    requires 0 !in m && d > 0 && AtDepth(m, ids, d)
    decreases |m| + 1 - d, |ids|
  {
    if ids == [] then []
    else
      DepthBound(m, ids[0], d);
      KidsAtDepth(m, order, ids[0], d);
      [Node(m[ids[0]], Forest(m, order, Kids(m, order, ids[0]), d + 1))] + Forest(m, order, ids[1..], d)
  }

  /** The forest below `p`, a category of depth `d` or the virtual root 0. */
  ghost function Below<A>(m: CategoryMap<A>, order: seq<nat>, p: nat, d: nat): seq<Tree<A>>
    requires 0 !in m && ReachesIn(m, p, d)
  {
    KidsAtDepth(m, order, p, d);
    Forest(m, order, Kids(m, order, p), d + 1)
  }

  /** The whole tree: `build(0)`. */
  ghost function BuildTree<A>(m: CategoryMap<A>, order: seq<nat>): seq<Tree<A>>
    requires 0 !in m
  {
    Below(m, order, 0, 0)
  }

  /** The IDs in a forest, parents before their children. */
  function Ids<A>(f: seq<Tree<A>>): seq<nat> {
    if f == [] then [] else [f[0].cat.id] + Ids(f[0].children) + Ids(f[1..])
  }

  /** Every node of the forest is the category of its ID and hangs under its own parent. */
  ghost predicate UnderOwnParent<A>(m: CategoryMap<A>, f: seq<Tree<A>>, p: nat) {
    f == [] ||
    (&& f[0].cat.id in m && f[0].cat == m[f[0].cat.id] && f[0].cat.parent == p
     && UnderOwnParent(m, f[0].children, f[0].cat.id)
     && UnderOwnParent(m, f[1..], p))
  }

  lemma {:induction false} ForestUnderOwnParent<A>(m: CategoryMap<A>, order: seq<nat>, ids: seq<nat>, d: nat, p: nat)
    requires Snapshot(m) && Enumerates(order, m) && d > 0 && AtDepth(m, ids, d)
    requires forall i :: 0 <= i < |ids| ==> m[ids[i]].parent == p
    ensures UnderOwnParent(m, Forest(m, order, ids, d), p)
    decreases |m| + 1 - d, |ids|
  {
    if ids != [] {
      DepthBound(m, ids[0], d);
      KidsAtDepth(m, order, ids[0], d);
      KidsAre(m, order, ids[0]);
      var kids := Kids(m, order, ids[0]);
      assert forall i :: 0 <= i < |kids| ==> kids[i] in kids;
      ForestUnderOwnParent(m, order, kids, d + 1, ids[0]);
      ForestUnderOwnParent(m, order, ids[1..], d, p);
    }
  }

  /** A non-empty forest, taken apart. */
  lemma Unfold<A>(m: CategoryMap<A>, order: seq<nat>, ids: seq<nat>, d: nat)
    requires 0 !in m && d > 0 && AtDepth(m, ids, d) && ids != []
    ensures d <= |m|
    ensures AtDepth(m, Kids(m, order, ids[0]), d + 1) && AtDepth(m, ids[1..], d)
    ensures Forest(m, order, ids, d) ==
            [Node(m[ids[0]], Forest(m, order, Kids(m, order, ids[0]), d + 1))] + Forest(m, order, ids[1..], d)
  {
    hide Kids;
    DepthBound(m, ids[0], d);
    KidsAtDepth(m, order, ids[0], d);
  }

  lemma IdsUnfold<A>(t: Tree<A>, rest: seq<Tree<A>>, x: nat)
    ensures Ids([t] + rest) == [t.cat.id] + Ids(t.children) + Ids(rest)
    ensures multiset(Ids([t] + rest))[x] ==
            (if x == t.cat.id then 1 else 0) + multiset(Ids(t.children))[x] + multiset(Ids(rest))[x]
  {
    assert ([t] + rest)[1..] == rest;
  }

  lemma HeadCount(ids: seq<nat>, x: nat)
    requires ids != []
    ensures multiset(ids)[x] == (if x == ids[0] then 1 else 0) + multiset(ids[1..])[x]
  {
    assert ids == [ids[0]] + ids[1..];
  }

  /** A category is in a forest as often as its ancestor of that depth is among the roots. */
  lemma {:induction false} CountInForest<A>(m: CategoryMap<A>, order: seq<nat>, ids: seq<nat>, d: nat, x: nat, e: nat)
    requires Snapshot(m) && Enumerates(order, m) && d > 0 && AtDepth(m, ids, d) && ReachesIn(m, x, e)
    ensures multiset(Ids(Forest(m, order, ids, d)))[x] == if e < d then 0 else multiset(ids)[AncestorAt(m, x, e, d)]
    decreases |m| + 1 - d, |ids|
  {
    hide Forest, Kids, Ids;
    if ids == [] {
      NoIds(m, order, d);
    } else {
      var a := ids[0];
      var kids := Kids(m, order, a);
      Unfold(m, order, ids, d);
      KidsAre(m, order, a);
      IdsUnfold(Node(m[a], Forest(m, order, kids, d + 1)), Forest(m, order, ids[1..], d), x);
      CountInForest(m, order, kids, d + 1, x, e);
      CountInForest(m, order, ids[1..], d, x, e);
      if d < e {
        AncestorStep(m, x, e, d);
        HeadCount(ids, AncestorAt(m, x, e, d));
        if x == a {
          DepthUnique(m, x, d, e);
        }
      } else if d == e {
        HeadCount(ids, x);
      } else if x == a {
        DepthUnique(m, x, d, e);
      }
    }
  }

  lemma NoIds<A>(m: CategoryMap<A>, order: seq<nat>, d: nat)
    requires 0 !in m && d > 0
    ensures Ids(Forest(m, order, [], d)) == []
  {
  }

  lemma {:induction false} ForestReachable<A>(m: CategoryMap<A>, order: seq<nat>, ids: seq<nat>, d: nat, x: nat)
    requires Snapshot(m) && d > 0 && AtDepth(m, ids, d) && x in Ids(Forest(m, order, ids, d))
    ensures x in m && Reachable(m, x)
    decreases |m| + 1 - d, |ids|
  {
    if ids != [] {
      DepthBound(m, ids[0], d);
      KidsAtDepth(m, order, ids[0], d);
      var f := Forest(m, order, ids, d);
      assert f[1..] == Forest(m, order, ids[1..], d);
      if x in Ids(f[0].children) {
        ForestReachable(m, order, Kids(m, order, ids[0]), d + 1, x);
      } else if x in Ids(f[1..]) {
        ForestReachable(m, order, ids[1..], d, x);
      }
    }
  }

  /**
   The tree holds exactly the categories whose parent chain reaches 0, each once, under its own parent:
   categories on a cycle, or below one, are not in it.
   */
  lemma TreeHoldsReachable<A>(m: CategoryMap<A>, order: seq<nat>)
    requires Snapshot(m) && Enumerates(order, m)
    ensures forall x :: multiset(Ids(BuildTree(m, order)))[x] == if x in m && Reachable(m, x) then 1 else 0
    ensures UnderOwnParent(m, BuildTree(m, order), 0)
  {
    hide Kids, Forest, Ids, UnderOwnParent;
    KidsAtDepth(m, order, 0, 0);
    KidsAre(m, order, 0);
    var kids := Kids(m, order, 0);
    assert forall i :: 0 <= i < |kids| ==> kids[i] in kids;
    ForestUnderOwnParent(m, order, kids, 1, 0);
    forall x
      ensures multiset(Ids(BuildTree(m, order)))[x] == if x in m && Reachable(m, x) then 1 else 0
    {
      CountInTree(m, order, x);
    }
  }

  lemma CountInTree<A>(m: CategoryMap<A>, order: seq<nat>, x: nat)
    requires Snapshot(m) && Enumerates(order, m)
    ensures multiset(Ids(BuildTree(m, order)))[x] == if x in m && Reachable(m, x) then 1 else 0
  {
    hide Kids, Forest, Ids;
    KidsAtDepth(m, order, 0, 0);
    KidsAre(m, order, 0);
    if x in m && Reachable(m, x) {
      var e: nat :| ReachesIn(m, x, e);
      CountInForest(m, order, Kids(m, order, 0), 1, x, e);
      AncestorStep(m, x, e, 0);
      AncestorDepth(m, x, e, 0);
    } else if x in Ids(BuildTree(m, order)) {
      ForestReachable(m, order, Kids(m, order, 0), 1, x);
    }
  }

  lemma {:induction false} AncestorDepth<A>(m: CategoryMap<A>, x: nat, e: nat, d: nat)
    requires ReachesIn(m, x, e) && d <= e
    ensures ReachesIn(m, AncestorAt(m, x, e, d), d)
    decreases e
  {
    if d < e {
      AncestorDepth(m, m[x].parent, e - 1, d);
    }
  }

  // ----- findSubtree -----

  /** `findSubtree`: an absent list of children and an empty one are the same thing here. */
  function FindSubtree<A>(nodes: seq<Tree<A>>, pid: nat): seq<Tree<A>> {
    if nodes == [] then []
    else if nodes[0].cat.id == pid then nodes[0].children
    else
      var sub := FindSubtree(nodes[0].children, pid);
      if sub != [] then sub else FindSubtree(nodes[1..], pid)
  }

  lemma FindUnfold<A>(t: Tree<A>, rest: seq<Tree<A>>, pid: nat)
    ensures FindSubtree([t] + rest, pid) ==
            if t.cat.id == pid then t.children
            else if FindSubtree(t.children, pid) != [] then FindSubtree(t.children, pid)
            else FindSubtree(rest, pid)
  {
    assert ([t] + rest)[1..] == rest;
  }

  lemma {:induction false} FindInForest<A>(m: CategoryMap<A>, order: seq<nat>, ids: seq<nat>, d: nat, x: nat, e: nat)
    requires Snapshot(m) && Enumerates(order, m) && d > 0 && AtDepth(m, ids, d) && ReachesIn(m, x, e)
    ensures FindSubtree(Forest(m, order, ids, d), x) ==
            if e >= d && AncestorAt(m, x, e, d) in ids then Below(m, order, x, e) else []
    decreases |m| + 1 - d, |ids|
  {
    hide Forest, Kids, FindSubtree;
    if ids == [] {
      FindNothing(m, order, d, x);
    } else {
      var a := ids[0];
      var kids := Kids(m, order, a);
      Unfold(m, order, ids, d);
      KidsAre(m, order, a);
      FindUnfold(Node(m[a], Forest(m, order, kids, d + 1)), Forest(m, order, ids[1..], d), x);
      FindInForest(m, order, kids, d + 1, x, e);
      FindInForest(m, order, ids[1..], d, x, e);
      assert ids == [a] + ids[1..];
      if x == a {
        DepthUnique(m, x, d, e);
      }
      if d < e {
        AncestorStep(m, x, e, d);
      }
    }
  }

  lemma FindNothing<A>(m: CategoryMap<A>, order: seq<nat>, d: nat, x: nat)
    requires 0 !in m && d > 0
    ensures FindSubtree(Forest(m, order, [], d), x) == []
  {
  }

  lemma {:induction false} FindUnreachable<A>(m: CategoryMap<A>, order: seq<nat>, ids: seq<nat>, d: nat, x: nat)
    requires Snapshot(m) && d > 0 && AtDepth(m, ids, d) && !Reachable(m, x)
    ensures FindSubtree(Forest(m, order, ids, d), x) == []
    decreases |m| + 1 - d, |ids|
  {
    if ids != [] {
      DepthBound(m, ids[0], d);
      KidsAtDepth(m, order, ids[0], d);
      var f := Forest(m, order, ids, d);
      assert f[1..] == Forest(m, order, ids[1..], d);
      FindUnreachable(m, order, Kids(m, order, ids[0]), d + 1, x);
      FindUnreachable(m, order, ids[1..], d, x);
    }
  }

  /**
   Searching the whole tree for a category gives the forest that building from that category would give,
   and nothing for a category that is not reachable from 0.
   */
  lemma FindSubtreeExact<A>(m: CategoryMap<A>, order: seq<nat>, pid: nat)
    requires Snapshot(m) && Enumerates(order, m) && pid != 0
    ensures forall d: nat :: ReachesIn(m, pid, d) ==> FindSubtree(BuildTree(m, order), pid) == Below(m, order, pid, d)
    ensures !Reachable(m, pid) ==> FindSubtree(BuildTree(m, order), pid) == []
  {
    KidsAtDepth(m, order, 0, 0);
    KidsAre(m, order, 0);
    forall d: nat | ReachesIn(m, pid, d)
      ensures FindSubtree(BuildTree(m, order), pid) == Below(m, order, pid, d)
    {
      FindInForest(m, order, Kids(m, order, 0), 1, pid, d);
      AncestorStep(m, pid, d, 0);
      AncestorDepth(m, pid, d, 0);
    }
    if !Reachable(m, pid) {
      FindUnreachable(m, order, Kids(m, order, 0), 1, pid);
    }
  }

  function RootIds<A>(f: seq<Tree<A>>): seq<nat> {
    if f == [] then [] else [f[0].cat.id] + RootIds(f[1..])
  }

  lemma {:induction false} ForestRoots<A>(m: CategoryMap<A>, order: seq<nat>, ids: seq<nat>, d: nat)
    requires Snapshot(m) && d > 0 && AtDepth(m, ids, d)
    ensures RootIds(Forest(m, order, ids, d)) == ids
    decreases |ids|
  {
    if ids != [] {
      ForestRoots(m, order, ids[1..], d);
      assert Forest(m, order, ids, d)[1..] == Forest(m, order, ids[1..], d);
    }
  }

  /**
   The children that a subtree request returns do not depend on the order in which the tree was built:
   exactly the categories whose parent is `pid`, each once, or none if `pid` is not reachable. So a cached
   tree and a freshly built one of the same snapshot answer alike.
   */
  lemma SubtreeChildren<A>(m: CategoryMap<A>, order: seq<nat>, pid: nat, x: nat)
    requires Snapshot(m) && Enumerates(order, m) && pid != 0
    ensures multiset(RootIds(FindSubtree(BuildTree(m, order), pid)))[x] ==
            if Reachable(m, pid) && x in m && m[x].parent == pid then 1 else 0
  {
    FindSubtreeExact(m, order, pid);
    if Reachable(m, pid) {
      var d: nat :| ReachesIn(m, pid, d);
      KidsAtDepth(m, order, pid, d);
      KidsAre(m, order, pid);
      ForestRoots(m, order, Kids(m, order, pid), d + 1);
    }
  }

  /** The subtrees under those children hold exactly the categories that have `pid` on their parent chain, each once. */
  lemma SubtreeDescendants<A>(m: CategoryMap<A>, order: seq<nat>, pid: nat, d: nat, x: nat)
    requires Snapshot(m) && Enumerates(order, m) && pid != 0 && ReachesIn(m, pid, d)
    ensures multiset(Ids(FindSubtree(BuildTree(m, order), pid)))[x] ==
            if exists e: nat :: e > d && ReachesIn(m, x, e) && AncestorAt(m, x, e, d) == pid then 1 else 0
  {
    hide Kids, Forest, Ids, FindSubtree;
    FindSubtreeExact(m, order, pid);
    KidsAtDepth(m, order, pid, d);
    KidsAre(m, order, pid);
    if e: nat :| ReachesIn(m, x, e) {
      CountInForest(m, order, Kids(m, order, pid), d + 1, x, e);
      if e > d {
        AncestorStep(m, x, e, d);
      }
      forall e': nat | ReachesIn(m, x, e')
        ensures e' == e
      {
        DepthUnique(m, x, e, e');
      }
    } else if x in Ids(Below(m, order, pid, d)) {
      ForestReachable(m, order, Kids(m, order, pid), d + 1, x);
    }
  }
}
