/**
 The category repository and its two caches: the category map and the tree of each store.

 Every call is atomic. What the database would return is an argument of each call, so that rows may
 change between calls in any way.
 */
module CategoryRepository {
  import opened Text
  import opened CategoryTree
  import CategoryBuild

  type TreeNode<A> = CategoryBuild.TreeNode<A>

  /** The two caches. A nil map and an empty one behave alike. */
  datatype State<A> = State(cache: map<nat, CategoryMap<A>>, trees: map<nat, seq<Tree<A>>>)

  /** A call, with the rows that the database holds for its store at that moment. */
  datatype Op<A> =
    | Fetch(store: nat, db: CategoryMap<A>)
    | Build(store: nat, parent: nat, db: CategoryMap<A>, order: seq<nat>)
    | GetByIDs(store: nat, ids: seq<nat>, db: CategoryMap<A>)
    | Invalidate

  /** The rows are keyed by a primary key that is never 0, and `order` is an order of the map that is iterated. */
  ghost predicate ValidOp<A>(s: State<A>, op: Op<A>) {
    match op
    case Fetch(_, db) => Snapshot(db)
    case Build(store, _, db, order) =>
      Snapshot(db) && (store !in s.trees ==> Enumerates(order, if store in s.cache then s.cache[store] else db))
    case GetByIDs(_, _, db) => Snapshot(db)
    case Invalidate => true
  }

  function Fetched<A>(s: State<A>, store: nat, db: CategoryMap<A>): State<A> {
    if store in s.cache then s else s.(cache := s.cache[store := db])
  }

  ghost function Step<A>(s: State<A>, op: Op<A>): State<A>
    requires Inv(s) && ValidOp(s, op)
  {
    match op
    case Fetch(store, db) => Fetched(s, store, db)
    case Build(store, _, db, order) =>
      if store in s.trees then s
      else
        var f := Fetched(s, store, db);
        f.(trees := f.trees[store := BuildTree(f.cache[store], order)])
    case GetByIDs(_, _, _) => s
    case Invalidate => State(map[], map[])
  }

  /** A cached tree comes with a cached map of the same store, and is the tree built from that map. */
  ghost predicate Inv<A>(s: State<A>) {
    && (forall st :: st in s.cache ==> Snapshot(s.cache[st]))
    && (forall st :: st in s.trees ==>
          && st in s.cache
          && exists order :: Enumerates(order, s.cache[st]) && s.trees[st] == BuildTree(s.cache[st], order))
  }

  lemma FetchKeepsInv<A>(s: State<A>, store: nat, db: CategoryMap<A>)
    requires Inv(s) && Snapshot(db)
    ensures Inv(Fetched(s, store, db))
    ensures store in Fetched(s, store, db).cache
    ensures Fetched(s, store, db).cache[store] == if store in s.cache then s.cache[store] else db
    ensures Fetched(s, store, db).trees == s.trees
  {
    hide BuildTree, Enumerates;
  }

  lemma StepKeepsInv<A>(s: State<A>, op: Op<A>)
    requires Inv(s) && ValidOp(s, op)
    ensures Inv(Step(s, op))
  {
    hide BuildTree, Enumerates, Fetched, Inv;
    match op
    case Fetch(store, db) => FetchKeepsInv(s, store, db);
    case Build(store, _, db, order) =>
      if store !in s.trees {
        FetchKeepsInv(s, store, db);
        CachedSnapshot(Fetched(s, store, db), store);
        TreeKeepsInv(Fetched(s, store, db), store, order);
      }
    case GetByIDs(_, _, _) =>
    case Invalidate => EmptyInv<A>();
  }

  lemma EmptyInv<A>()
    ensures Inv<A>(State(map[], map[]))
  {
  }

  lemma CachedSnapshot<A>(s: State<A>, store: nat)
    requires Inv(s) && store in s.cache
    ensures Snapshot(s.cache[store])
  {
  }

  lemma TreeKeepsInv<A>(s: State<A>, store: nat, order: seq<nat>)
    requires Inv(s) && store in s.cache && Snapshot(s.cache[store]) && Enumerates(order, s.cache[store])
    ensures Inv(s.(trees := s.trees[store := BuildTree(s.cache[store], order)]))
  {
    hide BuildTree, Enumerates;
    assert s.trees[store := BuildTree(s.cache[store], order)][store] == BuildTree(s.cache[store], order);
  }

  // ----- runs -----

  ghost predicate ValidRun<A>(run: seq<Op<A>>)
    decreases |run|, 0
  {
    run == [] || (ValidRun(run[..|run| - 1]) && ValidOp(After(run[..|run| - 1]), run[|run| - 1]))
  }

  ghost function After<A>(run: seq<Op<A>>): (s: State<A>)
    requires ValidRun(run)
    ensures Inv(s)
    decreases |run|, 1
  {
    if run == [] then State(map[], map[])
    else
      var before := After(run[..|run| - 1]);
      StepKeepsInv(before, run[|run| - 1]);
      Step(before, run[|run| - 1])
  }

  /** The rows that the first fetch or build of a store read after the last invalidation. */
  ghost function Taken<A>(run: seq<Op<A>>, store: nat): Option<CategoryMap<A>>
    decreases |run|
  {
    if run == [] then None
    else
      var op := run[|run| - 1];
      var before := Taken(run[..|run| - 1], store);
      if op.Invalidate? then None
      else if before.Some? then before
      else if (op.Fetch? || op.Build?) && op.store == store then Some(op.db)
      else None
  }

  /**
   Over every run, whatever is written to the database meanwhile: a store's cached map is the snapshot of
   its first use since the last invalidation, and so is its cached tree, if there is one.
   */
  lemma {:induction false} CachesShareOneSnapshot<A>(run: seq<Op<A>>, store: nat)
    requires ValidRun(run)
    ensures var s := After(run);
            match Taken(run, store)
            case None => store !in s.cache && store !in s.trees
            case Some(m) =>
              && store in s.cache && s.cache[store] == m
              && (store in s.trees ==> exists order :: Enumerates(order, m) && s.trees[store] == BuildTree(m, order))
    decreases |run|
  {
    hide BuildTree, Enumerates;
    if run != [] {
      CachesShareOneSnapshot(run[..|run| - 1], store);
    }
  }

  lemma StepStays<A>(s: State<A>, op: Op<A>, store: nat)
    requires Inv(s) && ValidOp(s, op) && !op.Invalidate?
    ensures var r := Step(s, op);
            && (store in s.cache ==> store in r.cache && r.cache[store] == s.cache[store])
            && (store in s.trees ==> store in r.trees && r.trees[store] == s.trees[store])
  {
    hide BuildTree, Enumerates;
  }

  /**
   What is cached for a store, map or tree, is the same, order of the children included, after any further calls but
   `InvalidateCache`.
   */
  lemma {:induction false} CachesStay<A>(run: seq<Op<A>>, more: seq<Op<A>>, store: nat)
    requires ValidRun(run + more) && forall i :: 0 <= i < |more| ==> !more[i].Invalidate?
    ensures ValidRun(run)
    ensures var s, r := After(run), After(run + more);
            && (store in s.cache ==> store in r.cache && r.cache[store] == s.cache[store])
            && (store in s.trees ==> store in r.trees && r.trees[store] == s.trees[store])
    decreases |more|
  {
    hide BuildTree, Enumerates, Inv, ValidOp, Step;
    if more == [] {
      assert run + more == run;
    } else {
      var n := |more| - 1;
      assert (run + more)[..|run + more| - 1] == run + more[..n];
      assert (run + more)[|run + more| - 1] == more[n];
      CachesStay(run, more[..n], store);
      StepStays(After(run + more[..n]), more[n], store);
    }
  }

  /** What `BuildCategoryTree` returns. */
  ghost function BuildAnswer<A>(s: State<A>, op: Op<A>): seq<Tree<A>>
    requires Inv(s) && ValidOp(s, op) && op.Build?
  {
    StepKeepsInv(s, op);
    var tree := Step(s, op).trees[op.store];
    if op.parent == 0 then tree else FindSubtree(tree, op.parent)
  }

  lemma TreeOfSnapshot<A>(run: seq<Op<A>>, op: Op<A>) returns (m: CategoryMap<A>, order: seq<nat>)
    requires ValidRun(run + [op]) && ValidRun(run) && ValidOp(After(run), op) && op.Build?
    ensures Taken(run + [op], op.store) == Some(m) && Snapshot(m) && Enumerates(order, m)
    ensures Step(After(run), op).trees[op.store] == BuildTree(m, order)
  {
    hide BuildTree, Enumerates;
    assert (run + [op])[..|run|] == run;
    CachesShareOneSnapshot(run + [op], op.store);
    assert After(run + [op]) == Step(After(run), op);
    m := Taken(run + [op], op.store).value;
    order :| Enumerates(order, m) && Step(After(run), op).trees[op.store] == BuildTree(m, order);
  }

  /**
   Every answer of `BuildCategoryTree` in every run, cached or freshly built, describes the store's snapshot:
   for parent 0 exactly the categories whose chain reaches 0, for any other parent exactly its children, if
   it is reachable.
   */
  lemma BuildAnswersFromSnapshot<A>(run: seq<Op<A>>, op: Op<A>, x: nat)
    requires ValidRun(run + [op]) && ValidRun(run) && ValidOp(After(run), op) && op.Build?
    ensures Taken(run + [op], op.store).Some?
    ensures var m := Taken(run + [op], op.store).value;
            var answer := BuildAnswer(After(run), op);
            && (op.parent == 0 ==> multiset(Ids(answer))[x] == if x in m && Reachable(m, x) then 1 else 0)
            && (op.parent != 0 ==>
                  multiset(RootIds(answer))[x] ==
                  if Reachable(m, op.parent) && x in m && m[x].parent == op.parent then 1 else 0)
  {
    hide BuildTree, Enumerates, Step, ValidOp, ValidRun, After, Inv, Ids, RootIds, FindSubtree;
    var m, order := TreeOfSnapshot(run, op);
    if op.parent == 0 {
      CountInTree(m, order, x);
    } else {
      SubtreeChildren(m, order, op.parent, x);
    }
  }

  // ----- GetByIDsWithAttributesAndFlat -----

  /** Whether the cache answers for an ID; ID 0 asks for the whole store and is never a hit. */
  predicate Hit<A>(s: State<A>, store: nat, id: nat) {
    id != 0 && store in s.cache && id in s.cache[store]
  }

  function CachedOf<A>(s: State<A>, store: nat, ids: seq<nat>): seq<Category<A>> {
    if ids == [] then []
    else
      var id := ids[|ids| - 1];
      CachedOf(s, store, ids[..|ids| - 1]) + if Hit(s, store, id) then [s.cache[store][id]] else []
  }

  function MissingOf<A>(s: State<A>, store: nat, ids: seq<nat>): seq<nat> {
    if ids == [] then []
    else
      var id := ids[|ids| - 1];
      MissingOf(s, store, ids[..|ids| - 1]) + if Hit(s, store, id) then [] else [id]
  }

  /** The rows of `ids`, in the order asked for; IDs without a row are left out. */
  function RowsOf<A>(db: CategoryMap<A>, ids: seq<nat>): seq<Category<A>> {
    if ids == [] then []
    else
      var id := ids[|ids| - 1];
      RowsOf(db, ids[..|ids| - 1]) + if id in db then [db[id]] else []
  }

  function GetAnswer<A>(s: State<A>, store: nat, ids: seq<nat>, db: CategoryMap<A>): seq<Category<A>> {
    CachedOf(s, store, ids) + RowsOf(db, MissingOf(s, store, ids))
  }

  lemma {:induction false} ColdGet<A>(s: State<A>, store: nat, ids: seq<nat>)
    requires store !in s.cache
    ensures CachedOf(s, store, ids) == [] && MissingOf(s, store, ids) == ids
    decreases |ids|
  {
    if ids != [] {
      ColdGet(s, store, ids[..|ids| - 1]);
      assert ids == ids[..|ids| - 1] + [ids[|ids| - 1]];
    }
  }

  lemma {:induction false} WarmGet<A>(s: State<A>, store: nat, ids: seq<nat>, db: CategoryMap<A>)
    requires store in s.cache && s.cache[store] == db && Snapshot(db)
    ensures CachedOf(s, store, ids) == RowsOf(db, ids) && RowsOf(db, MissingOf(s, store, ids)) == []
    decreases |ids|
  {
    if ids != [] {
      var n := |ids| - 1;
      WarmGet(s, store, ids[..n], db);
      var before := MissingOf(s, store, ids[..n]);
      if Hit(s, store, ids[n]) {
        assert before + [] == before;
      } else {
        assert (before + [ids[n]])[..|before|] == before;
      }
    }
  }

  /** With no cache for the store, or with one that agrees with the database, the answer is the database's, in order. */
  lemma GetIsDatabaseView<A>(s: State<A>, store: nat, ids: seq<nat>, db: CategoryMap<A>)
    requires Snapshot(db) && (store in s.cache ==> s.cache[store] == db)
    ensures GetAnswer(s, store, ids, db) == RowsOf(db, ids)
  {
    if store in s.cache {
      WarmGet(s, store, ids, db);
    } else {
      ColdGet(s, store, ids);
    }
  }

  /** What reading by IDs looks at: the database, with the cached categories of the store over it. */
  function Overlaid<A>(s: State<A>, store: nat, db: CategoryMap<A>): CategoryMap<A> {
    if store in s.cache then db + s.cache[store] else db
  }

  lemma {:induction false} RowsAt<A>(db: CategoryMap<A>, ids: seq<nat>)
    ensures (forall id :: id in ids ==> id in db) ==>
              |RowsOf(db, ids)| == |ids| && forall i :: 0 <= i < |ids| ==> RowsOf(db, ids)[i] == db[ids[i]]
    ensures forall c :: c in RowsOf(db, ids) <==> exists id :: id in ids && id in db && db[id] == c
    decreases |ids|
  {
    if ids != [] {
      var n := |ids| - 1;
      RowsAt(db, ids[..n]);
      assert ids == ids[..n] + [ids[n]];
      assert forall id :: id in ids <==> id in ids[..n] || id == ids[n];
    }
  }

  lemma RowsSnoc<A>(db: CategoryMap<A>, ids: seq<nat>, id: nat)
    ensures RowsOf(db, ids + [id]) == RowsOf(db, ids) + if id in db then [db[id]] else []
  {
    assert (ids + [id])[..|ids|] == ids;
  }

  /** The hits are cached rows, the others were asked for and are not cached. */
  lemma {:induction false} HitsAndMisses<A>(s: State<A>, store: nat, ids: seq<nat>)
    requires store in s.cache ==> Snapshot(s.cache[store])
    ensures forall c :: c in CachedOf(s, store, ids) ==>
                          store in s.cache && c.id in s.cache[store] && c == s.cache[store][c.id]
    ensures forall id :: id in MissingOf(s, store, ids) ==> id in ids && (store in s.cache ==> id !in s.cache[store])
    decreases |ids|
  {
    if ids != [] {
      HitsAndMisses(s, store, ids[..|ids| - 1]);
    }
  }

  lemma SplitRows<A>(s: State<A>, store: nat, ids: seq<nat>, id: nat, db: CategoryMap<A>)
    ensures CachedOf(s, store, ids + [id]) ==
            CachedOf(s, store, ids) + if Hit(s, store, id) then [s.cache[store][id]] else []
    ensures RowsOf(db, MissingOf(s, store, ids + [id])) ==
            RowsOf(db, MissingOf(s, store, ids)) + if !Hit(s, store, id) && id in db then [db[id]] else []
  {
    assert (ids + [id])[..|ids|] == ids;
    RowsSnoc(db, MissingOf(s, store, ids), id);
    if Hit(s, store, id) {
      assert MissingOf(s, store, ids) + [] == MissingOf(s, store, ids);
    }
  }

  lemma OneMore<A>(hits: seq<A>, rows: seq<A>, hit: seq<A>, row: seq<A>, all: seq<A>, more: seq<A>)
    requires multiset(hits + rows) == multiset(all) && multiset(hit + row) == multiset(more)
    ensures multiset((hits + hit) + (rows + row)) == multiset(all + more)
  {
  }

  lemma OneRow<A>(s: State<A>, store: nat, id: nat, db: CategoryMap<A>)
    requires store in s.cache ==> Snapshot(s.cache[store])
    ensures (if Hit(s, store, id) then [s.cache[store][id]] else []) +
            (if !Hit(s, store, id) && id in db then [db[id]] else []) ==
            if id in Overlaid(s, store, db) then [Overlaid(s, store, db)[id]] else []
  {
  }

  /** Reading by IDs returns a row for each ID that the cache or the database knows, from the cache if it is there. */
  lemma {:induction false} GetIsOverlaid<A>(s: State<A>, store: nat, ids: seq<nat>, db: CategoryMap<A>)
    requires Snapshot(db) && (store in s.cache ==> Snapshot(s.cache[store]))
    ensures multiset(GetAnswer(s, store, ids, db)) == multiset(RowsOf(Overlaid(s, store, db), ids))
    decreases |ids|
  {
    if ids != [] {
      var n := |ids| - 1;
      var id := ids[n];
      var hit := if Hit(s, store, id) then [s.cache[store][id]] else [];
      var row := if !Hit(s, store, id) && id in db then [db[id]] else [];
      var view := Overlaid(s, store, db);
      GetIsOverlaid(s, store, ids[..n], db);
      RowsSnoc(db, MissingOf(s, store, ids[..n]), id);
      RowsSnoc(view, ids[..n], id);
      OneRow(s, store, id, db);
      OneMore(CachedOf(s, store, ids[..n]), RowsOf(db, MissingOf(s, store, ids[..n])), hit, row,
              RowsOf(view, ids[..n]), if id in view then [view[id]] else []);
      hide Hit, Overlaid, RowsOf, Snapshot;
      assert ids == ids[..n] + [id];
      SplitRows(s, store, ids[..n], id, db);
    }
  }

  /** The result of asking for one category: indexing an empty answer panics. */
  datatype OneResult<A> = Found(cat: Category<A>) | IndexPanic

  function GetOne<A>(s: State<A>, store: nat, id: nat, db: CategoryMap<A>): OneResult<A> {
    var answer := GetAnswer(s, store, [id], db);
    if answer == [] then IndexPanic else Found(answer[0])
  }

  /** `GetByIDWithAttributesAndFlat` panics exactly for an ID that neither the cache nor the database knows. */
  lemma GetOnePanics<A>(s: State<A>, store: nat, id: nat, db: CategoryMap<A>)
    requires Snapshot(db)
    ensures GetOne(s, store, id, db).IndexPanic? <==> !Hit(s, store, id) && id !in db
    ensures Hit(s, store, id) ==> GetOne(s, store, id, db) == Found(s.cache[store][id])
    ensures !Hit(s, store, id) && id in db ==> GetOne(s, store, id, db) == Found(db[id])
  {
    assert [id][..0] == [];
    assert CachedOf(s, store, [id]) == if Hit(s, store, id) then [s.cache[store][id]] else [];
    assert MissingOf(s, store, [id]) == if Hit(s, store, id) then [] else [id];
    assert RowsOf(db, [id]) == if id in db then [db[id]] else [];
  }

  // ----- the repository object -----

  /** `categoryRepoInstance` together with the package-level tree cache, which holds linked nodes. */
  class Repository<A> {
    var cache: map<nat, CategoryMap<A>>
    var trees: map<nat, seq<TreeNode<A>>>
    /** The abstract value of each cached tree, and the nodes it consists of. */
    ghost var shapes: map<nat, seq<Tree<A>>>
    ghost var objects: map<nat, set<TreeNode<A>>>

    ghost predicate Valid()
      reads this, set st, o | st in objects && o in objects[st] :: o
    {
      && trees.Keys == shapes.Keys == objects.Keys
      && Inv(Abstract())
      && forall st :: st in trees ==> CategoryBuild.Represents(objects[st], trees[st], shapes[st])
    }

    ghost function Abstract(): State<A>
      reads this
    {
      State(cache, shapes)
    }

    constructor ()
      ensures Valid() && Abstract() == State(map[], map[])
    {
      cache, trees, shapes, objects := map[], map[], map[], map[];
    }

    /** `FetchAllWithAttributesMap` */
    method FetchAll(store: nat, db: CategoryMap<A>) returns (cats: CategoryMap<A>)
      requires Valid() && Snapshot(db)
      modifies this`cache
      ensures Valid() && Abstract() == Fetched(old(Abstract()), store, db) == Step(old(Abstract()), Fetch(store, db))
      ensures store in cache && cats == cache[store]
    {
      hide BuildTree, Enumerates, CategoryBuild.Represents;
      StepKeepsInv(Abstract(), Fetch(store, db));
      if store in cache {
        return cache[store];
      }
      cats := LoadMap(db);
      cache := cache[store := cats];
    }

    /** The loop over the loaded rows; the map is keyed by each row's own ID. */
    method LoadMap(db: CategoryMap<A>) returns (cats: CategoryMap<A>)
      requires Snapshot(db)
      ensures cats == db
    {
      cats := map[];
      var todo := db.Keys;
      while todo != {}
        invariant todo <= db.Keys && cats.Keys == db.Keys - todo
        invariant forall id :: id in cats ==> cats[id] == db[id]
      {
        var id :| id in todo;
        cats := cats[db[id].id := db[id]];
        todo := todo - {id};
      }
    }

    /** The part of `BuildCategoryTree` that runs when the store has no cached tree. */
    method BuildAndCache(store: nat, db: CategoryMap<A>) returns (ghost order: seq<nat>)
      requires Valid() && Snapshot(db) && store !in trees
      modifies this
      ensures store in cache && Enumerates(order, cache[store])
      ensures Valid() && Abstract() == Fetched(old(Abstract()), store, db).(trees := shapes)
      ensures shapes == old(shapes)[store := BuildTree(cache[store], order)]
    {
      hide BuildTree, Enumerates, CategoryBuild.Represents, Inv;
      var catMap := FetchAll(store, db);
      ghost var fetched := Abstract();
      CachedSnapshot(fetched, store);
      var tree;
      ghost var nodes;
      tree, order, nodes := CategoryBuild.BuildCategoryTree(catMap);
      trees := trees[store := tree];
      shapes := shapes[store := BuildTree(catMap, order)];
      objects := objects[store := nodes];
      TreeKeepsInv(fetched, store, order);
    }

    /** `BuildCategoryTree`: the nodes that are returned represent the answer of the model. */
    method BuildCategoryTree(store: nat, parent: nat, db: CategoryMap<A>)
      returns (tree: seq<TreeNode<A>>, ghost order: seq<nat>)
      requires Valid() && Snapshot(db)
      modifies this
      ensures ValidOp(old(Abstract()), Build(store, parent, db, order))
      ensures Valid() && Abstract() == Step(old(Abstract()), Build(store, parent, db, order))
      ensures store in objects
      ensures CategoryBuild.Represents(objects[store], tree,
                                       BuildAnswer(old(Abstract()), Build(store, parent, db, order)))
    {
      hide BuildTree, FindSubtree, Enumerates, CategoryBuild.Represents;
      order := [];
      if store !in trees {
        order := BuildAndCache(store, db);
      }
      tree := trees[store];
      if parent != 0 {
        tree := CategoryBuild.FindSubtreeNodes(objects[store], tree, shapes[store], parent);
      }
    }

    /** `InvalidateCache` */
    method InvalidateCache()
      requires Valid()
      modifies this
      ensures Valid() && Abstract() == Step(old(Abstract()), Invalidate)
    {
      cache := map[];
      trees, shapes, objects := map[], map[], map[];
    }

    /** `GetByIDsWithAttributesAndFlat`: cache hits first, then the rows of the other IDs. Nothing is cached. */
    method GetByIDsWithAttributesAndFlat(store: nat, ids: seq<nat>, db: CategoryMap<A>) returns (cats: seq<Category<A>>)
      ensures cats == GetAnswer(Abstract(), store, ids, db)
    {
      cats := [];
      var missing := [];
      for i := 0 to |ids|
        invariant cats == CachedOf(Abstract(), store, ids[..i])
        invariant missing == MissingOf(Abstract(), store, ids[..i])
      {
        assert ids[..i + 1][..i] == ids[..i];
        var id := ids[i];
        if id != 0 && store in cache && id in cache[store] {
          cats := cats + [cache[store][id]];
          continue;
        }
        missing := missing + [id];
      }
      assert ids[..|ids|] == ids;
      ghost var hits := cats;
      for i := 0 to |missing|
        invariant cats == hits + RowsOf(db, missing[..i])
      {
        assert missing[..i + 1][..i] == missing[..i];
        if missing[i] in db {
          cats := cats + [db[missing[i]]];
        }
      }
      assert missing[..|missing|] == missing;
    }
  }
}
