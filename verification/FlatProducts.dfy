/** The flat product view: batched fetches and the per-store cache of `ProductRepository`. */
module FlatProducts {
  import opened Text
  import opened Batching

  /** What the database would return for a store: the flattened attributes of every product. */
  type View<A> = map<nat, A>

  /** The longest `IN` list of a query. */
  const BATCH_SIZE: nat := 1000

  function Restrict<A>(view: View<A>, ids: seq<nat>): View<A> {
    map id | id in ids && id in view :: view[id]
  }

  /** `ids` lists the products in ascending order. */
  ghost predicate AllIDs<A>(view: View<A>, ids: seq<nat>) {
    && (forall id :: id in ids <==> id in view)
    && (forall i, j :: 0 <= i < j < |ids| ==> ids[i] < ids[j])
  }

  lemma RestrictAppend<A>(view: View<A>, a: seq<nat>, b: seq<nat>)
    ensures Restrict(view, a + b) == Restrict(view, a) + Restrict(view, b)
  {
  }

  /** `fetchFlatProductsBatch` with IDs: one query, and one flattened entry per row, in any row order. */
  method FetchBatch<A>(view: View<A>, ids: seq<nat>) returns (flat: View<A>)
    requires 0 < |ids| <= BATCH_SIZE
    ensures flat == Restrict(view, ids)
  {
    flat := map[];
    var rows := Restrict(view, ids);
    var todo := rows.Keys;
    while todo != {}
      invariant todo <= rows.Keys && flat.Keys == rows.Keys - todo
      invariant forall id :: id in flat ==> flat[id] == rows[id]
    {
      var id :| id in todo;
      flat := flat[id := rows[id]];
      todo := todo - {id};
    }
  }

  /** `fetchFlatProductsInBatches`: `queries` are the `IN` lists that were sent. */
  method FetchInBatches<A>(view: View<A>, ids: seq<nat>) returns (result: View<A>, queries: seq<seq<nat>>)
    ensures result == Restrict(view, ids)
    ensures queries == Chunks(ids, BATCH_SIZE)
    ensures forall q :: q in queries ==> |q| <= 1000
  {
    hide Chunks, Restrict;
    result, queries := map[], [];
    NothingFetched(view);
    ChunksPartition(ids, BATCH_SIZE);
    var i := 0;
    assert ids[0..] == ids;
    while i < |ids|
      invariant 0 <= i
      invariant result == Restrict(view, ids[..Min(i, |ids|)])
      invariant Chunks(ids, BATCH_SIZE) == queries + Chunks(ids[Min(i, |ids|)..], BATCH_SIZE)
      decreases |ids| - i
    {
      var end := i + BATCH_SIZE;
      if end > |ids| {
        end := |ids|;
      }
      var batch := FetchBatch(view, ids[i..end]);
      RestrictAppend(view, ids[..i], ids[i..end]);
      assert ids[..i] + ids[i..end] == ids[..end];
      NextChunk(ids, BATCH_SIZE, i);
      result := result + batch;
      queries := queries + [ids[i..end]];
      i := i + BATCH_SIZE;
    }
    assert ids[..|ids|] == ids;
    NoChunkLeft(ids, BATCH_SIZE, i);
  }

  lemma NothingFetched<A>(view: View<A>)
    ensures Restrict(view, []) == map[]
  {
  }

  /** The IDs of a request without an ID list: the first `limit` products, or all of them. */
  function Listed(all: seq<nat>, limit: int): seq<nat> {
    if 0 < limit <= |all| then all[..limit] else all
  }

  /**
   `fetchFlatProductsWithLimit`: one query, several, or a fetch of everything. Only the last looks at the limit.
   However many queries there are, the answer is the view restricted to the IDs, and no `IN` list is too long.
   */
  method FetchWithLimit<A>(view: View<A>, all: seq<nat>, ids: seq<nat>, limit: int)
    returns (result: View<A>, queries: seq<seq<nat>>)
    requires AllIDs(view, all)
    ensures result == Restrict(view, if ids == [] then Listed(all, limit) else ids)
    ensures queries == Chunks(if ids == [] then Listed(all, limit) else ids, BATCH_SIZE)
    ensures forall q :: q in queries ==> |q| <= 1000
    ensures ids == [] && limit <= 0 ==> result == view
  {
    hide Chunks;
    if ids != [] && |ids| <= BATCH_SIZE {
      result := FetchBatch(view, ids);
      queries := [ids];
      SingleChunk(ids, BATCH_SIZE);
    } else if |ids| > BATCH_SIZE {
      result, queries := FetchInBatches(view, ids);
    } else {
      result, queries := FetchInBatches(view, Listed(all, limit));
    }
  }

  /** The limit takes the products with the smallest IDs, as many as it says; without a positive one it takes all. */
  lemma ListedAreFirst<A>(view: View<A>, all: seq<nat>, limit: int)
    requires AllIDs(view, all)
    ensures forall id :: id in Listed(all, limit) ==> id in view
    ensures limit <= 0 || limit >= |all| ==> forall id :: id in view ==> id in Listed(all, limit)
    ensures 0 < limit <= |all| ==> |Listed(all, limit)| == limit
    ensures forall a, b :: a in Listed(all, limit) && b in view && b !in Listed(all, limit) ==> a < b
  {
    var few := Listed(all, limit);
    assert forall i :: 0 <= i < |few| ==> few[i] == all[i] && all[i] in few;
    forall a, b | a in few && b in view && b !in few
      ensures a < b
    {
      assert b in all;
      var i :| 0 <= i < |few| && few[i] == a;
      var j :| 0 <= j < |all| && all[j] == b;
    }
  }

  // ----- the cache -----

  type Caches<A> = map<nat, View<A>>

  /** The cache after a request for all products of a store. */
  function Filled<A>(caches: Caches<A>, store: nat, view: View<A>): Caches<A> {
    if store in caches then caches else caches[store := view]
  }

  function MissingFrom<A>(cached: View<A>, ids: seq<nat>): seq<nat> {
    if ids == [] then []
    else
      var id := ids[|ids| - 1];
      MissingFrom(cached, ids[..|ids| - 1]) + if id in cached then [] else [id]
  }

  /** What `FetchWithAllAttributesFlatByIDs` returns for a non-empty ID list with the cache switched on. */
  function ByIDsAnswer<A>(caches: Caches<A>, store: nat, view: View<A>, ids: seq<nat>): View<A> {
    if store !in caches then Restrict(view, ids)
    else
      var missing := MissingFrom(caches[store], ids);
      if missing == [] then Restrict(caches[store], ids) else Restrict(view, missing)
  }

  /** What it is meant to return: the cached entry where there is one, the database's otherwise. */
  function Intended<A>(caches: Caches<A>, store: nat, view: View<A>, ids: seq<nat>): View<A> {
    var cached := if store in caches then caches[store] else map[];
    map id | id in ids && (id in cached || id in view) :: if id in cached then cached[id] else view[id]
  }

  /** Some of the IDs are cached and some are not. */
  predicate Mixed<A>(caches: Caches<A>, store: nat, ids: seq<nat>) {
    && store in caches
    && (exists id :: id in ids && id in caches[store])
    && (exists id :: id in ids && id !in caches[store])
  }

  lemma {:induction false} MissingAre<A>(cached: View<A>, ids: seq<nat>)
    ensures forall id :: id in MissingFrom(cached, ids) <==> id in ids && id !in cached
    decreases |ids|
  {
    if ids != [] {
      var n := |ids| - 1;
      MissingAre(cached, ids[..n]);
      assert ids == ids[..n] + [ids[n]];
    }
  }

  /** The answer is the intended one exactly when the IDs are not partly cached: then the hits are lost. */
  lemma ByIDsExact<A>(caches: Caches<A>, store: nat, view: View<A>, ids: seq<nat>)
    ensures ByIDsAnswer(caches, store, view, ids) == Intended(caches, store, view, ids) <==> !Mixed(caches, store, ids)
  {
    var a, b := ByIDsAnswer(caches, store, view, ids), Intended(caches, store, view, ids);
    if store in caches {
      var missing := MissingFrom(caches[store], ids);
      MissingAre(caches[store], ids);
      if Mixed(caches, store, ids) {
        var miss :| miss in ids && miss !in caches[store];
        assert miss in missing;
        var hit :| hit in ids && hit in caches[store];
        assert hit in b && hit !in a;
      } else if missing == [] {
        assert forall id :: id in ids ==> id in caches[store];
        assert a == b;
      } else {
        assert missing[0] in missing;
        assert a == b;
      }
    } else {
      assert a == b;
    }
  }

  /**
   What a partly cached request returns is the database's rows of the IDs that are not cached, and a request without a
   cached ID returns the database's rows of all; a request with cached IDs only returns what is cached.
   */
  lemma ByIDsIs<A>(caches: Caches<A>, store: nat, view: View<A>, ids: seq<nat>, id: nat)
    ensures var answer := ByIDsAnswer(caches, store, view, ids);
            var cached := if store in caches then caches[store] else map[];
            if ids != [] && forall i :: i in ids ==> i in cached then
              (id in answer <==> id in ids) && (id in answer ==> answer[id] == cached[id])
            else
              && (id in answer <==> id in ids && id !in cached && id in view)
              && (id in answer ==> answer[id] == view[id])
  {
    if store in caches {
      MissingAre(caches[store], ids);
      var missing := MissingFrom(caches[store], ids);
      if missing != [] {
        assert missing[0] in missing;
      }
    }
  }

  /**
   With a cache that agrees with the database the answer is the database's, unless the IDs are partly cached:
   then it is empty, although cached products were asked for.
   */
  lemma CoherentCache<A>(caches: Caches<A>, store: nat, view: View<A>, ids: seq<nat>)
    requires store in caches && caches[store] == view
    ensures ByIDsAnswer(caches, store, view, ids) == if Mixed(caches, store, ids) then map[] else Restrict(view, ids)
  {
    ByIDsExact(caches, store, view, ids);
    MissingAre(view, ids);
    var missing := MissingFrom(view, ids);
    if Mixed(caches, store, ids) {
      var miss :| miss in ids && miss !in view;
      assert miss in missing;
      assert Restrict(view, missing) == map[];
    } else {
      assert Intended(caches, store, view, ids) == Restrict(view, ids);
    }
  }

  datatype Op<A> =
    | All(store: nat, view: View<A>, limit: int, disabled: bool)
    | ByIDs(store: nat, view: View<A>, ids: seq<nat>, disabled: bool)

  /** The operation goes through the cache of its store and asks for everything. */
  predicate Fills<A>(op: Op<A>) {
    !op.disabled && match op case All(_, _, limit, _) => limit <= 0 case ByIDs(_, _, ids, _) => ids == []
  }

  /** What a request does to the caches. */
  function Do<A>(caches: Caches<A>, op: Op<A>): Caches<A> {
    if Fills(op) then Filled(caches, op.store, op.view) else caches
  }

  /**
   The package-level cache and the requests that go through it, each without another one in between; `disabled` is
   PRODUCT_FLAT_CACHE=off.
   */
  class FlatRepository<A> {
    var caches: Caches<A>

    constructor ()
      ensures caches == map[]
    {
      caches := map[];
    }

    /** `FetchWithAllAttributesFlatWithLimit` */
    method FetchAll(store: nat, view: View<A>, all: seq<nat>, limit: int, disabled: bool) returns (result: View<A>)
      requires AllIDs(view, all)
      modifies this
      ensures caches == Do(old(caches), All(store, view, limit, disabled))
      ensures limit > 0 ==> result == Restrict(view, Listed(all, limit)) && caches == old(caches)
      ensures limit <= 0 && disabled ==> result == view && caches == old(caches)
      ensures limit <= 0 && !disabled ==> caches == Filled(old(caches), store, view) && result == caches[store]
    {
      if limit > 0 {
        var few, _ := FetchWithLimit(view, all, [], limit);
        return few;
      }
      if disabled {
        var every, _ := FetchWithLimit(view, all, [], 0);
        return every;
      }
      if store in caches {
        return caches[store];
      }
      var loaded, _ := FetchWithLimit(view, all, [], 0);
      caches := caches[store := loaded];
      result := loaded;
    }

    /** `FetchWithAllAttributesFlatByIDs` */
    method FetchByIDs(store: nat, view: View<A>, all: seq<nat>, ids: seq<nat>, disabled: bool) returns (result: View<A>)
      requires AllIDs(view, all)
      modifies this
      ensures caches == Do(old(caches), ByIDs(store, view, ids, disabled))
      ensures disabled ==> result == (if ids == [] then view else Restrict(view, ids)) && caches == old(caches)
      ensures !disabled && ids == [] ==> caches == Filled(old(caches), store, view) && result == caches[store]
      ensures !disabled && ids != [] ==> result == ByIDsAnswer(old(caches), store, view, ids) && caches == old(caches)
    {
      if disabled {
        var direct, _ := FetchWithLimit(view, all, ids, 0);
        return direct;
      }
      if |ids| == 0 {
        result := FetchAll(store, view, all, 0, disabled);
        return;
      }
      result := map[];
      var missing := [];
      if store in caches {
        var cached := caches[store];
        for i := 0 to |ids|
          invariant result == Restrict(cached, ids[..i])
          invariant missing == MissingFrom(cached, ids[..i])
        {
          assert ids[..i + 1] == ids[..i] + [ids[i]];
          assert ids[..i + 1][..i] == ids[..i];
          if ids[i] in cached {
            result := result[ids[i] := cached[ids[i]]];
          } else {
            missing := missing + [ids[i]];
          }
        }
        assert ids[..|ids|] == ids;
      } else {
        missing := ids;
      }
      if |missing| > 0 {
        var fetched, _ := FetchWithLimit(view, all, missing, 0);
        result := fetched;
      }
    }
  }

  // ----- runs -----

  function After<A>(run: seq<Op<A>>): Caches<A> {
    if run == [] then map[]
    else
      Do(After(run[..|run| - 1]), run[|run| - 1])
  }

  /** The view at the first operation of a run that asks for all of a store through the cache. */
  function FirstView<A>(run: seq<Op<A>>, store: nat): Option<View<A>> {
    if run == [] then None
    else
      var op := run[|run| - 1];
      var before := FirstView(run[..|run| - 1], store);
      if before.Some? then before else if Fills(op) && op.store == store then Some(op.view) else None
  }

  /**
   Nothing ever evicts: as long as requests do not overlap, the cache of a store is the view at the first full request
   for it. `FlatCacheSteps` says what overlapping requests can do.
   */
  lemma {:induction false} CacheIsFrozen<A>(run: seq<Op<A>>, store: nat)
    ensures match FirstView(run, store)
            case None => store !in After(run)
            case Some(v) => store in After(run) && After(run)[store] == v
    decreases |run|
  {
    if run != [] {
      CacheIsFrozen(run[..|run| - 1], store);
    }
  }
}
