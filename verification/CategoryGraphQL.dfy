/** The GraphQL view of the category tree (`categoryTreeToGraphQL`): same shape, same IDs. */
module CategoryGraphQL {
  import opened Text
  import opened CategoryTree
  import opened Uid

  /** The IDs are printed in decimal; `children` stays unset for a leaf. */
  datatype GqlCategory = GqlCategory(entityID: string, parentID: string, children: Option<seq<GqlCategory>>)

  /** The two forests match node by node. */
  ghost predicate SameShape<A>(f: seq<Tree<A>>, g: seq<GqlCategory>)
    decreases f
  {
    && |f| == |g|
    && (f != [] ==>
          && g[0].entityID == FormatUint(f[0].cat.id)
          && g[0].parentID == FormatUint(f[0].cat.parent)
          && (match g[0].children
              case None => f[0].children == []
              case Some(c) => c != [] && SameShape(f[0].children, c))
          && SameShape(f[1..], g[1..]))
  }

  lemma {:induction false} SameShapeSnoc<A>(f: seq<Tree<A>>, g: seq<GqlCategory>, t: Tree<A>, c: GqlCategory)
    requires SameShape(f, g) && SameShape([t], [c])
    ensures SameShape(f + [t], g + [c])
    decreases |f|
  {
    if f == [] {
      assert f + [t] == [t] && g + [c] == [c];
    } else {
      SameShapeSnoc(f[1..], g[1..], t, c);
      assert (f + [t])[1..] == f[1..] + [t] && (g + [c])[1..] == g[1..] + [c];
    }
  }

  /** `categoryTreeToGraphQL`, with the slice filled in a loop and the children converted recursively. */
  method CategoryTreeToGraphQL<A>(nodes: seq<Tree<A>>) returns (result: seq<GqlCategory>)
    ensures SameShape(nodes, result)
    decreases nodes
  {
    result := [];
    for i := 0 to |nodes|
      invariant SameShape(nodes[..i], result)
    {
      var n := nodes[i];
      var c := GqlCategory(FormatUint(n.cat.id), FormatUint(n.cat.parent), None);
      if |n.children| > 0 {
        var children := CategoryTreeToGraphQL(n.children);
        c := c.(children := Some(children));
      }
      SameShapeSnoc(nodes[..i], result, n, c);
      assert nodes[..i + 1] == nodes[..i] + [n];
      result := result + [c];
    }
    assert nodes[..|nodes|] == nodes;
  }

  /** A tree without its attributes. */
  datatype Skeleton = Skeleton(id: nat, parent: nat, children: seq<Skeleton>)

  function Bare<A>(f: seq<Tree<A>>): seq<Skeleton> {
    if f == [] then [] else [Skeleton(f[0].cat.id, f[0].cat.parent, Bare(f[0].children))] + Bare(f[1..])
  }

  /** Nothing of the structure is lost: trees with the same GraphQL view have the same IDs and links. */
  lemma {:induction false} ViewDeterminesTree<A>(f1: seq<Tree<A>>, f2: seq<Tree<A>>, g: seq<GqlCategory>)
    requires SameShape(f1, g) && SameShape(f2, g)
    ensures Bare(f1) == Bare(f2)
    decreases f1
  {
    hide FormatUint;
    if f1 != [] {
      FormatUintInjective(f1[0].cat.id, f2[0].cat.id);
      FormatUintInjective(f1[0].cat.parent, f2[0].cat.parent);
      if g[0].children.Some? {
        ViewDeterminesTree(f1[0].children, f2[0].children, g[0].children.value);
      }
      ViewDeterminesTree(f1[1..], f2[1..], g[1..]);
    }
  }
}
