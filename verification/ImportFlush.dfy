/**
 The parallel flush at the end of `ImportProducts`, as a state machine.

 One worker per table sends its chunks in order; the scheduler picks any worker that still has one.
 A statement is atomic. A failing statement changes nothing and ends its worker; the others go on. The raw EAV workers
 send statements of their own, the others leave it to the ORM, which may wrap the chunks of one call in a transaction:
 then a failure undoes them. A run that stops halfway through a transaction is one in which its worker failed.
 */
module ImportFlush {
  import opened Batching
  import opened Tables
  import opened ImportEav
  import opened ImportStock
  import opened ImportPrice
  import EavDeterminism

  type EavTable<V> = EavDeterminism.EavTable<V>

  /** `S` and `P` are the columns of the stock and price tables that an upsert does not touch. */
  datatype Db<V, S, P> = Db(
    eav: map<BackendType, EavTable<V>>,
    stock: Table<StockKey, StockCols, S>,
    price: Table<PriceKey, PriceCols, P>,
    gallery: seq<string>)

  /** What those columns get when a row is inserted. */
  datatype Unlisted<S, P> = Unlisted(stock: S, price: P)

  /** The collected rows of one import. */
  datatype Work<V> = Work(
    eav: map<BackendType, seq<Row<EavKey, V>>>,
    stock: seq<StockRow>,
    price: seq<PriceRow>,
    gallery: seq<string>)

  datatype Pending<V> = Pending(
    eav: map<BackendType, seq<seq<Row<EavKey, V>>>>,
    stock: seq<seq<StockRow>>,
    price: seq<seq<PriceRow>>,
    gallery: seq<seq<string>>)

  datatype Worker = EavWorker(bt: BackendType) | StockWorker | GalleryWorker | PriceWorker
  datatype Event = Executed(w: Worker) | Failed(w: Worker)

  /** The batch size, and the workers whose chunks form one transaction. */
  datatype Mode = Mode(batchSize: nat, atomic: set<Worker>)
  type FlushMode = m: Mode | m.batchSize > 0 witness Mode(1, {})

  /** `begun` is the database when the flush began: what a failing transaction goes back to. */
  datatype State<V, S, P> = State(db: Db<V, S, P>, todo: Pending<V>, begun: Db<V, S, P>, atomic: set<Worker>)

  predicate ValidDb<V, S, P>(db: Db<V, S, P>) {
    db.eav.Keys == EAV_TYPES
  }

  predicate ValidWork<V>(work: Work<V>) {
    work.eav.Keys == EAV_TYPES
  }

  predicate Valid<V, S, P>(s: State<V, S, P>) {
    ValidDb(s.db) && ValidDb(s.begun) && s.todo.eav.Keys == EAV_TYPES
  }

  function Start<V, S, P>(db: Db<V, S, P>, work: Work<V>, mode: FlushMode): (s: State<V, S, P>)
    requires ValidDb(db) && ValidWork(work)
    ensures Valid(s)
  {
    var todo := Pending(map bt | bt in EAV_TYPES :: Chunks(work.eav[bt], mode.batchSize),
                        Chunks(work.stock, mode.batchSize), Chunks(work.price, mode.batchSize),
                        Chunks(work.gallery, mode.batchSize));
    State(db, todo, db, mode.atomic)
  }

  /** The number of statements worker `w` has still to send. */
  function Left<V, S, P>(s: State<V, S, P>, w: Worker): nat
    requires Valid(s)
  {
    match w
    case EavWorker(bt) => if bt in EAV_TYPES then |s.todo.eav[bt]| else 0
    case StockWorker => |s.todo.stock|
    case GalleryWorker => |s.todo.gallery|
    case PriceWorker => |s.todo.price|
  }

  predicate Finished<V, S, P>(s: State<V, S, P>)
    requires Valid(s)
  {
    && (forall bt | bt in EAV_TYPES :: s.todo.eav[bt] == [])
    && s.todo.stock == [] && s.todo.price == [] && s.todo.gallery == []
  }

  /** The database `db`, with the table of one worker as it is in `begun`. */
  function RolledBack<V, S, P>(db: Db<V, S, P>, begun: Db<V, S, P>, w: Worker): Db<V, S, P>
    requires ValidDb(db) && ValidDb(begun)
    requires w.EavWorker? ==> w.bt in EAV_TYPES
  {
    match w
    case EavWorker(bt) => db.(eav := db.eav[bt := begun.eav[bt]])
    case StockWorker => db.(stock := begun.stock)
    case GalleryWorker => db.(gallery := begun.gallery)
    case PriceWorker => db.(price := begun.price)
  }

  /** The first pending chunk of a worker is written. */
  function ChunkWritten<V, S, P>(s: State<V, S, P>, w: Worker, u: Unlisted<S, P>): (r: State<V, S, P>)
    requires Valid(s) && Left(s, w) > 0
    ensures Valid(r) && r.begun == s.begun && r.atomic == s.atomic
  {
    match w
    case EavWorker(bt) =>
      s.(db := s.db.(eav := s.db.eav[bt := UpsertAll(s.db.eav[bt], s.todo.eav[bt][0], ())]),
         todo := s.todo.(eav := s.todo.eav[bt := s.todo.eav[bt][1..]]))
    case StockWorker =>
      s.(db := s.db.(stock := UpsertAll(s.db.stock, s.todo.stock[0], u.stock)),
         todo := s.todo.(stock := s.todo.stock[1..]))
    case GalleryWorker =>
      s.(db := s.db.(gallery := s.db.gallery + s.todo.gallery[0]),
         todo := s.todo.(gallery := s.todo.gallery[1..]))
    case PriceWorker =>
      s.(db := s.db.(price := UpsertAll(s.db.price, s.todo.price[0], u.price)),
         todo := s.todo.(price := s.todo.price[1..]))
  }

  function Dropped<V>(todo: Pending<V>, w: Worker): Pending<V> {
    match w
    case EavWorker(bt) => todo.(eav := todo.eav[bt := []])
    case StockWorker => todo.(stock := [])
    case GalleryWorker => todo.(gallery := [])
    case PriceWorker => todo.(price := [])
  }

  /** A failing statement ends its worker; if the worker is a transaction, its earlier chunks are undone. */
  function WorkerFailed<V, S, P>(s: State<V, S, P>, w: Worker): (r: State<V, S, P>)
    requires Valid(s) && Left(s, w) > 0
    ensures Valid(r) && r.begun == s.begun && r.atomic == s.atomic
  {
    s.(db := if w in s.atomic then RolledBack(s.db, s.begun, w) else s.db, todo := Dropped(s.todo, w))
  }

  function Step<V, S, P>(s: State<V, S, P>, e: Event, u: Unlisted<S, P>): (r: State<V, S, P>)
    requires Valid(s) && Left(s, e.w) > 0
    ensures Valid(r) && r.begun == s.begun && r.atomic == s.atomic
  {
    match e
    case Executed(w) => ChunkWritten(s, w, u)
    case Failed(w) => WorkerFailed(s, w)
  }

  /** The events of a run are possible one after the other. */
  predicate Legal<V, S, P>(s: State<V, S, P>, run: seq<Event>, u: Unlisted<S, P>)
    requires Valid(s)
    decreases |run|
  {
    run == [] || (Left(s, run[0].w) > 0 && Legal(Step(s, run[0], u), run[1..], u))
  }

  function Run<V, S, P>(s: State<V, S, P>, run: seq<Event>, u: Unlisted<S, P>): (r: State<V, S, P>)
    requires Valid(s) && Legal(s, run, u)
    ensures Valid(r)
    decreases |run|
  {
    if run == [] then s else Run(Step(s, run[0], u), run[1..], u)
  }

  predicate NoFailure(run: seq<Event>) {
    forall i :: 0 <= i < |run| ==> run[i].Executed?
  }

  /** The reference: every table on its own, one row at a time, no batches and no scheduler. */
  function Sequential<V, S, P>(db: Db<V, S, P>, work: Work<V>, u: Unlisted<S, P>): Db<V, S, P>
    requires ValidDb(db) && ValidWork(work)
  {
    Db(map bt | bt in EAV_TYPES :: UpsertAll(db.eav[bt], work.eav[bt], ()),
       UpsertAll(db.stock, work.stock, u.stock),
       UpsertAll(db.price, work.price, u.price),
       db.gallery + work.gallery)
  }

  // ----- every interleaving -----

  /** Where the database is heading: what it will be once all pending statements ran. */
  function Settled<V, S, P>(s: State<V, S, P>, u: Unlisted<S, P>): Db<V, S, P>
    requires Valid(s)
  {
    Sequential(s.db, Work(map bt | bt in EAV_TYPES :: Flatten(s.todo.eav[bt]),
                          Flatten(s.todo.stock), Flatten(s.todo.price), Flatten(s.todo.gallery)), u)
  }

  /** A statement changes the database but not where it is heading. */
  lemma {:induction false} StepSettles<V, S, P>(s: State<V, S, P>, w: Worker, u: Unlisted<S, P>)
    requires Valid(s) && Left(s, w) > 0
    ensures Settled(Step(s, Executed(w), u), u) == Settled(s, u)
  {
    hide Settled, Step;
    match w
    case EavWorker(bt) => EavStepSettles(s, bt, u);
    case StockWorker => StockStepSettles(s, u);
    case PriceWorker => PriceStepSettles(s, u);
    case GalleryWorker => GalleryStepSettles(s, u);
  }

  lemma ChunkSettles<K, C, R>(t: Table<K, C, R>, todo: seq<seq<Row<K, C>>>, dflt: R)
    requires todo != []
    ensures UpsertAll(UpsertAll(t, todo[0], dflt), Flatten(todo[1..]), dflt) == UpsertAll(t, Flatten(todo), dflt)
  {
    UpsertAllAppend(t, todo[0], Flatten(todo[1..]), dflt);
  }

  lemma {:induction false} EavStepSettles<V, S, P>(s: State<V, S, P>, bt: BackendType, u: Unlisted<S, P>)
    requires Valid(s) && Left(s, EavWorker(bt)) > 0
    ensures Settled(Step(s, Executed(EavWorker(bt)), u), u) == Settled(s, u)
  {
    hide EAV_TYPES, UpsertAll, Flatten;
    var r := Step(s, Executed(EavWorker(bt)), u);
    ChunkSettles(s.db.eav[bt], s.todo.eav[bt], ());
    forall t | t in EAV_TYPES
      ensures UpsertAll(r.db.eav[t], Flatten(r.todo.eav[t]), ()) == UpsertAll(s.db.eav[t], Flatten(s.todo.eav[t]), ())
    {
      if t != bt {
        assert r.db.eav[t] == s.db.eav[t] && r.todo.eav[t] == s.todo.eav[t];
      }
    }
    SameEav(r, s, u);
  }

  lemma SettledParts<V, S, P>(s: State<V, S, P>, u: Unlisted<S, P>)
    requires Valid(s)
    ensures forall bt | bt in EAV_TYPES :: Settled(s, u).eav[bt] == UpsertAll(s.db.eav[bt], Flatten(s.todo.eav[bt]), ())
    ensures Settled(s, u).stock == UpsertAll(s.db.stock, Flatten(s.todo.stock), u.stock)
    ensures Settled(s, u).price == UpsertAll(s.db.price, Flatten(s.todo.price), u.price)
    ensures Settled(s, u).gallery == s.db.gallery + Flatten(s.todo.gallery)
  {
    hide UpsertAll, Flatten;
  }

  lemma SameEav<V, S, P>(a: State<V, S, P>, b: State<V, S, P>, u: Unlisted<S, P>)
    requires Valid(a) && Valid(b)
    requires forall t | t in EAV_TYPES ::
               UpsertAll(a.db.eav[t], Flatten(a.todo.eav[t]), ()) == UpsertAll(b.db.eav[t], Flatten(b.todo.eav[t]), ())
    ensures Settled(a, u).eav == Settled(b, u).eav
  {
    hide EAV_TYPES, UpsertAll, Flatten;
  }

  lemma StockStepSettles<V, S, P>(s: State<V, S, P>, u: Unlisted<S, P>)
    requires Valid(s) && Left(s, StockWorker) > 0
    ensures Settled(Step(s, Executed(StockWorker), u), u) == Settled(s, u)
  {
    hide UpsertAll, Flatten;
    ChunkSettles(s.db.stock, s.todo.stock, u.stock);
    SameEav(Step(s, Executed(StockWorker), u), s, u);
  }

  lemma PriceStepSettles<V, S, P>(s: State<V, S, P>, u: Unlisted<S, P>)
    requires Valid(s) && Left(s, PriceWorker) > 0
    ensures Settled(Step(s, Executed(PriceWorker), u), u) == Settled(s, u)
  {
    hide UpsertAll, Flatten;
    ChunkSettles(s.db.price, s.todo.price, u.price);
    SameEav(Step(s, Executed(PriceWorker), u), s, u);
  }

  lemma {:induction false} GalleryStepSettles<V, S, P>(s: State<V, S, P>, u: Unlisted<S, P>)
    requires Valid(s) && Left(s, GalleryWorker) > 0
    ensures Settled(Step(s, Executed(GalleryWorker), u), u) == Settled(s, u)
  {
    hide UpsertAll;
    var g := s.todo.gallery;
    assert s.db.gallery + (g[0] + Flatten(g[1..])) == s.db.gallery + g[0] + Flatten(g[1..]);
  }

  lemma {:induction false} RunSettles<V, S, P>(s: State<V, S, P>, run: seq<Event>, u: Unlisted<S, P>)
    requires Valid(s) && Legal(s, run, u) && NoFailure(run)
    ensures Settled(Run(s, run, u), u) == Settled(s, u)
    decreases |run|
  {
    hide Settled, Step;
    if run != [] {
      assert run[0] == Executed(run[0].w);
      StepSettles(s, run[0].w, u);
      RunSettles(Step(s, run[0], u), run[1..], u);
    }
  }

  lemma {:induction false} StartSettled<V, S, P>(db: Db<V, S, P>, work: Work<V>, mode: FlushMode, u: Unlisted<S, P>)
    requires ValidDb(db) && ValidWork(work)
    ensures Settled(Start(db, work, mode), u) == Sequential(db, work, u)
  {
    hide Chunks, Flatten, UpsertAll;
    StartHasAll(db, work, mode);
    assert Settled(Start(db, work, mode), u).eav == Sequential(db, work, u).eav;
  }

  /** The pending chunks of every table are its rows. */
  lemma StartHasAll<V, S, P>(db: Db<V, S, P>, work: Work<V>, mode: FlushMode)
    requires ValidDb(db) && ValidWork(work)
    ensures var todo := Start(db, work, mode).todo;
            && (forall bt | bt in EAV_TYPES :: Flatten(todo.eav[bt]) == work.eav[bt])
            && Flatten(todo.stock) == work.stock && Flatten(todo.price) == work.price
            && Flatten(todo.gallery) == work.gallery
  {
    hide Chunks, Flatten;
    forall bt | bt in EAV_TYPES
      ensures Flatten(Start(db, work, mode).todo.eav[bt]) == work.eav[bt]
    {
      ChunksPartition(work.eav[bt], mode.batchSize);
    }
    ChunksPartition(work.stock, mode.batchSize);
    ChunksPartition(work.price, mode.batchSize);
    ChunksPartition(work.gallery, mode.batchSize);
  }

  lemma FinishedSettled<V, S, P>(s: State<V, S, P>, u: Unlisted<S, P>)
    requires Valid(s) && Finished(s)
    ensures Settled(s, u) == s.db
  {
    assert Settled(s, u).eav == s.db.eav;
    assert s.db.gallery + [] == s.db.gallery;
  }

  /**
   Whatever the batch size and however the workers are scheduled, a flush that runs to the end
   leaves the database of the row-by-row reference.
   */
  lemma {:induction false} EveryInterleaving<V, S, P>(db: Db<V, S, P>, work: Work<V>, mode: FlushMode, run: seq<Event>,
                                                      u: Unlisted<S, P>)
    requires ValidDb(db) && ValidWork(work)
    requires Legal(Start(db, work, mode), run, u) && NoFailure(run) && Finished(Run(Start(db, work, mode), run, u))
    ensures Run(Start(db, work, mode), run, u).db == Sequential(db, work, u)
  {
    StartSettled(db, work, mode, u);
    RunSettles(Start(db, work, mode), run, u);
    FinishedSettled(Run(Start(db, work, mode), run, u), u);
  }

  // ----- convergence after an interrupted run -----

  /** Every key that `part` writes is written by `full` too. */
  ghost predicate CoveredRows<K, C>(part: seq<Row<K, C>>, full: seq<Row<K, C>>) {
    forall i :: 0 <= i < |part| ==> Covers(full, part[i].key)
  }

  ghost predicate Covered<V>(part: Work<V>, full: Work<V>)
    requires ValidWork(part) && ValidWork(full)
  {
    && (forall bt | bt in EAV_TYPES :: CoveredRows(part.eav[bt], full.eav[bt]))
    && CoveredRows(part.stock, full.stock)
    && CoveredRows(part.price, full.price)
  }

  ghost predicate CoveredTodo<V, S, P>(s: State<V, S, P>, full: Work<V>)
    requires Valid(s) && ValidWork(full)
  {
    && (forall bt | bt in EAV_TYPES :: CoveredRows(Flatten(s.todo.eav[bt]), full.eav[bt]))
    && CoveredRows(Flatten(s.todo.stock), full.stock)
    && CoveredRows(Flatten(s.todo.price), full.price)
  }

  /** A complete flush of `full` from `db` would still end where one from `db0` ends. */
  ghost predicate Recoverable<V, S, P>(db0: Db<V, S, P>, db: Db<V, S, P>, full: Work<V>, u: Unlisted<S, P>)
    requires ValidDb(db0) && ValidDb(db) && ValidWork(full)
  {
    && (forall bt | bt in EAV_TYPES ::
        UpsertAll(db.eav[bt], full.eav[bt], ()) == UpsertAll(db0.eav[bt], full.eav[bt], ()))
    && UpsertAll(db.stock, full.stock, u.stock) == UpsertAll(db0.stock, full.stock, u.stock)
    && UpsertAll(db.price, full.price, u.price) == UpsertAll(db0.price, full.price, u.price)
    && db0.gallery <= db.gallery
  }

  lemma CoveredSplit<K, C>(chunk: seq<Row<K, C>>, rest: seq<Row<K, C>>, full: seq<Row<K, C>>)
    requires CoveredRows(chunk + rest, full)
    ensures CoveredRows(chunk, full) && CoveredRows(rest, full)
  {
    forall i | 0 <= i < |chunk|
      ensures Covers(full, chunk[i].key)
    {
      assert (chunk + rest)[i] == chunk[i];
    }
    forall i | 0 <= i < |rest|
      ensures Covers(full, rest[i].key)
    {
      assert (chunk + rest)[|chunk| + i] == rest[i];
    }
  }

  lemma ChunkAbsorbed<K(!new), C, R>(t: Table<K, C, R>, todo: seq<seq<Row<K, C>>>, full: seq<Row<K, C>>, dflt: R)
    requires todo != [] && CoveredRows(Flatten(todo), full)
    ensures UpsertAll(UpsertAll(t, todo[0], dflt), full, dflt) == UpsertAll(t, full, dflt)
    ensures CoveredRows(Flatten(todo[1..]), full)
  {
    CoveredSplit(todo[0], Flatten(todo[1..]), full);
    Absorb(t, todo[0], full, dflt);
  }

  /** No event of an interrupted run, not even a failure, can be felt after a complete flush. */
  lemma {:induction false} StepRecovers<V, S, P>(db0: Db<V, S, P>, s: State<V, S, P>, e: Event, full: Work<V>,
                                                 u: Unlisted<S, P>)
    requires Valid(s) && ValidDb(db0) && ValidWork(full) && Left(s, e.w) > 0
    requires CoveredTodo(s, full) && Recoverable(db0, s.db, full, u) && s.begun == db0
    ensures CoveredTodo(Step(s, e, u), full) && Recoverable(db0, Step(s, e, u).db, full, u)
  {
    hide CoveredRows, Recoverable, CoveredTodo;
    match e.w
    case EavWorker(bt) => EavStepRecovers(db0, s, e, full, u);
    case StockWorker => StockStepRecovers(db0, s, e, full, u);
    case PriceWorker => PriceStepRecovers(db0, s, e, full, u);
    case GalleryWorker => GalleryStepRecovers(db0, s, e, full, u);
  }

  lemma EavWritten<V, S, P>(s: State<V, S, P>, bt: BackendType, t: BackendType, u: Unlisted<S, P>)
    requires Valid(s) && Left(s, EavWorker(bt)) > 0 && t in EAV_TYPES
    ensures bt in EAV_TYPES && s.todo.eav[bt] != []
    ensures var r := ChunkWritten(s, EavWorker(bt), u);
            if t == bt
            then r.db.eav[t] == UpsertAll(s.db.eav[t], s.todo.eav[t][0], ()) && r.todo.eav[t] == s.todo.eav[t][1..]
            else r.db.eav[t] == s.db.eav[t] && r.todo.eav[t] == s.todo.eav[t]
  {
    hide EAV_TYPES, UpsertAll;
  }

  lemma EavFailed<V, S, P>(s: State<V, S, P>, bt: BackendType, t: BackendType)
    requires Valid(s) && Left(s, EavWorker(bt)) > 0 && t in EAV_TYPES
    ensures var r := WorkerFailed(s, EavWorker(bt));
            && r.todo.eav[t] == (if t == bt then [] else s.todo.eav[t])
            && r.db.eav[t] == if t == bt && EavWorker(bt) in s.atomic then s.begun.eav[t] else s.db.eav[t]
  {
    hide EAV_TYPES;
  }

  lemma EavTypeRecovers<V, S, P>(db0: Db<V, S, P>, s: State<V, S, P>, e: Event, t: BackendType, full: Work<V>,
                                 u: Unlisted<S, P>)
    requires Valid(s) && ValidDb(db0) && ValidWork(full) && Left(s, e.w) > 0 && e.w.EavWorker? && t in EAV_TYPES
    requires CoveredRows(Flatten(s.todo.eav[t]), full.eav[t]) && s.begun == db0
    requires UpsertAll(s.db.eav[t], full.eav[t], ()) == UpsertAll(db0.eav[t], full.eav[t], ())
    ensures CoveredRows(Flatten(Step(s, e, u).todo.eav[t]), full.eav[t])
    ensures UpsertAll(Step(s, e, u).db.eav[t], full.eav[t], ()) == UpsertAll(db0.eav[t], full.eav[t], ())
  {
    hide EAV_TYPES, CoveredRows, UpsertAll, Flatten, ChunkWritten, WorkerFailed, Left;
    match e
    case Executed(w) =>
      EavWritten(s, w.bt, t, u);
      if t == w.bt {
        ChunkAbsorbed(s.db.eav[t], s.todo.eav[t], full.eav[t], ());
      }
    case Failed(w) =>
      EavFailed(s, w.bt, t);
      NothingCovered(full.eav[t]);
  }

  lemma EavStepRecovers<V, S, P>(db0: Db<V, S, P>, s: State<V, S, P>, e: Event, full: Work<V>, u: Unlisted<S, P>)
    requires Valid(s) && ValidDb(db0) && ValidWork(full) && Left(s, e.w) > 0 && e.w.EavWorker?
    requires CoveredTodo(s, full) && Recoverable(db0, s.db, full, u) && s.begun == db0
    ensures CoveredTodo(Step(s, e, u), full) && Recoverable(db0, Step(s, e, u).db, full, u)
  {
    hide EAV_TYPES, CoveredRows, UpsertAll, Flatten;
    EavLeavesOthers(s, e, u);
    hide Step;
    forall t | t in EAV_TYPES
      ensures CoveredRows(Flatten(Step(s, e, u).todo.eav[t]), full.eav[t])
      ensures UpsertAll(Step(s, e, u).db.eav[t], full.eav[t], ()) == UpsertAll(db0.eav[t], full.eav[t], ())
    {
      EavTypeRecovers(db0, s, e, t, full, u);
    }
  }

  lemma EavLeavesOthers<V, S, P>(s: State<V, S, P>, e: Event, u: Unlisted<S, P>)
    requires Valid(s) && Left(s, e.w) > 0 && e.w.EavWorker?
    ensures Step(s, e, u).db.stock == s.db.stock && Step(s, e, u).todo.stock == s.todo.stock
    ensures Step(s, e, u).db.price == s.db.price && Step(s, e, u).todo.price == s.todo.price
    ensures Step(s, e, u).db.gallery == s.db.gallery
  {
    hide EAV_TYPES, UpsertAll;
  }

  lemma StockStepRecovers<V, S, P>(db0: Db<V, S, P>, s: State<V, S, P>, e: Event, full: Work<V>, u: Unlisted<S, P>)
    requires Valid(s) && ValidDb(db0) && ValidWork(full) && Left(s, e.w) > 0 && e.w.StockWorker?
    requires CoveredTodo(s, full) && Recoverable(db0, s.db, full, u) && s.begun == db0
    ensures CoveredTodo(Step(s, e, u), full) && Recoverable(db0, Step(s, e, u).db, full, u)
  {
    hide CoveredRows, UpsertAll, Flatten;
    if e.Executed? {
      ChunkAbsorbed(s.db.stock, s.todo.stock, full.stock, u.stock);
    } else {
      NothingCovered(full.stock);
    }
  }

  lemma PriceStepRecovers<V, S, P>(db0: Db<V, S, P>, s: State<V, S, P>, e: Event, full: Work<V>, u: Unlisted<S, P>)
    requires Valid(s) && ValidDb(db0) && ValidWork(full) && Left(s, e.w) > 0 && e.w.PriceWorker?
    requires CoveredTodo(s, full) && Recoverable(db0, s.db, full, u) && s.begun == db0
    ensures CoveredTodo(Step(s, e, u), full) && Recoverable(db0, Step(s, e, u).db, full, u)
  {
    hide CoveredRows, UpsertAll, Flatten;
    if e.Executed? {
      ChunkAbsorbed(s.db.price, s.todo.price, full.price, u.price);
    } else {
      NothingCovered(full.price);
    }
  }

  lemma GalleryStepRecovers<V, S, P>(db0: Db<V, S, P>, s: State<V, S, P>, e: Event, full: Work<V>, u: Unlisted<S, P>)
    requires Valid(s) && ValidDb(db0) && ValidWork(full) && Left(s, e.w) > 0 && e.w.GalleryWorker?
    requires CoveredTodo(s, full) && Recoverable(db0, s.db, full, u) && s.begun == db0
    ensures CoveredTodo(Step(s, e, u), full) && Recoverable(db0, Step(s, e, u).db, full, u)
  {
    hide CoveredRows, UpsertAll, Flatten;
  }

  lemma NothingCovered<K, C>(full: seq<Row<K, C>>)
    ensures CoveredRows(Flatten([]), full)
  {
  }

  lemma {:induction false} RunRecovers<V, S, P>(db0: Db<V, S, P>, s: State<V, S, P>, run: seq<Event>, full: Work<V>,
                                                u: Unlisted<S, P>)
    requires Valid(s) && ValidDb(db0) && ValidWork(full) && Legal(s, run, u)
    requires CoveredTodo(s, full) && Recoverable(db0, s.db, full, u) && s.begun == db0
    ensures Recoverable(db0, Run(s, run, u).db, full, u)
    decreases |run|
  {
    hide CoveredTodo, Recoverable, Step;
    if run != [] {
      StepRecovers(db0, s, run[0], full, u);
      RunRecovers(db0, Step(s, run[0], u), run[1..], full, u);
    }
  }

  lemma StartRecoverable<V, S, P>(db: Db<V, S, P>, work: Work<V>, mode: FlushMode, full: Work<V>, u: Unlisted<S, P>)
    requires ValidDb(db) && ValidWork(work) && ValidWork(full) && Covered(work, full)
    ensures CoveredTodo(Start(db, work, mode), full) && Recoverable(db, Start(db, work, mode).db, full, u)
    ensures Start(db, work, mode).begun == db
  {
    hide CoveredRows, Chunks, Flatten, UpsertAll;
    StartHasAll(db, work, mode);
  }

  lemma RecoverableEnd<V, S, P>(db: Db<V, S, P>, stopped: Db<V, S, P>, again: Work<V>, u: Unlisted<S, P>)
    requires ValidDb(db) && ValidDb(stopped) && ValidWork(again) && Recoverable(db, stopped, again, u)
    ensures var after := Sequential(stopped, again, u);
            var once := Sequential(db, again, u);
            && after.eav == once.eav && after.stock == once.stock && after.price == once.price
            && (after.gallery == once.gallery <==> stopped.gallery == db.gallery)
  {
    var added := stopped.gallery[|db.gallery|..];
    assert stopped.gallery == db.gallery + added;
    assert |stopped.gallery + again.gallery| == |db.gallery| + |added| + |again.gallery|;
    assert added == [] ==> stopped.gallery == db.gallery;
  }

  /**
   An import stopped anywhere, with or without failed statements, and then run again to the end
   (with another batch size, schedule and column order) leaves the EAV, stock and price tables of one
   uninterrupted run. The gallery is a plain insert: it comes out the same exactly when the first run
   had not added a gallery row.
   */
  lemma {:induction false} InterruptedImportConverges<V, S, P>(db: Db<V, S, P>, work: Work<V>, mode: FlushMode,
                                                               run: seq<Event>, again: Work<V>, mode': FlushMode,
                                                               run': seq<Event>, u: Unlisted<S, P>)
    requires ValidDb(db) && ValidWork(work) && ValidWork(again)
    requires Covered(work, again)
    requires Legal(Start(db, work, mode), run, u)
    requires Legal(Start(Run(Start(db, work, mode), run, u).db, again, mode'), run', u) && NoFailure(run')
    requires Finished(Run(Start(Run(Start(db, work, mode), run, u).db, again, mode'), run', u))
    ensures var stopped := Run(Start(db, work, mode), run, u).db;
            var after := Run(Start(stopped, again, mode'), run', u).db;
            var once := Sequential(db, again, u);
            && after.eav == once.eav && after.stock == once.stock && after.price == once.price
            && (after.gallery == once.gallery <==> stopped.gallery == db.gallery)
  {
    hide Start, Run, Step, Legal, Finished, Sequential, Recoverable, Covered, CoveredTodo;
    var stopped := Run(Start(db, work, mode), run, u).db;
    StartRecoverable(db, work, mode, again, u);
    RunRecovers(db, Start(db, work, mode), run, again, u);
    EveryInterleaving(stopped, again, mode', run', u);
    RecoverableEnd(db, stopped, again, u);
  }

  // ----- a failing flush -----

  /** The table of one worker is the same in both. */
  predicate SameTable<V(==), S(==), P(==)>(a: Db<V, S, P>, b: Db<V, S, P>, w: Worker)
    requires ValidDb(a) && ValidDb(b)
  {
    match w
    case EavWorker(bt) => bt in EAV_TYPES ==> a.eav[bt] == b.eav[bt]
    case StockWorker => a.stock == b.stock
    case GalleryWorker => a.gallery == b.gallery
    case PriceWorker => a.price == b.price
  }

  predicate SameTodo<V(==), S, P>(a: State<V, S, P>, b: State<V, S, P>, w: Worker)
    requires Valid(a) && Valid(b)
  {
    match w
    case EavWorker(bt) => bt in EAV_TYPES ==> a.todo.eav[bt] == b.todo.eav[bt]
    case StockWorker => a.todo.stock == b.todo.stock
    case GalleryWorker => a.todo.gallery == b.todo.gallery
    case PriceWorker => a.todo.price == b.todo.price
  }

  lemma OtherStep<V, S, P>(s: State<V, S, P>, e: Event, w: Worker, u: Unlisted<S, P>)
    requires Valid(s) && Left(s, e.w) > 0 && e.w != w
    ensures SameTable(Step(s, e, u).db, s.db, w) && SameTodo(Step(s, e, u), s, w)
  {
    hide EAV_TYPES, UpsertAll;
  }

  lemma SettledTable<V, S, P>(a: State<V, S, P>, b: State<V, S, P>, w: Worker, u: Unlisted<S, P>)
    requires Valid(a) && Valid(b) && SameTable(a.db, b.db, w) && SameTodo(a, b, w)
    ensures SameTable(Settled(a, u), Settled(b, u), w)
  {
    hide UpsertAll, Flatten, Settled;
    SettledParts(a, u);
    SettledParts(b, u);
  }

  /** An event of one worker neither touches the table of another nor changes where that table is heading. */
  lemma OtherTables<V, S, P>(s: State<V, S, P>, e: Event, w: Worker, u: Unlisted<S, P>)
    requires Valid(s) && Left(s, e.w) > 0 && e.w != w
    ensures SameTable(Step(s, e, u).db, s.db, w) && SameTable(Settled(Step(s, e, u), u), Settled(s, u), w)
  {
    hide Step, Settled, SameTable, SameTodo, Left;
    OtherStep(s, e, w, u);
    SettledTable(Step(s, e, u), s, w, u);
  }

  /** A worker with nothing left to send does nothing to its table. */
  lemma {:induction false} DoneWithTable<V, S, P>(s: State<V, S, P>, run: seq<Event>, w: Worker, u: Unlisted<S, P>)
    requires Valid(s) && Legal(s, run, u) && Left(s, w) == 0
    ensures SameTable(Run(s, run, u).db, s.db, w)
    decreases |run|
  {
    hide Step, Left, Settled;
    if run != [] {
      OtherTables(s, run[0], w, u);
      LeftAfter(s, run[0], w, u);
      DoneWithTable(Step(s, run[0], u), run[1..], w, u);
    }
  }

  lemma FailedWorker<V, S, P>(s: State<V, S, P>, w: Worker, u: Unlisted<S, P>)
    requires Valid(s) && Left(s, w) > 0
    ensures Left(Step(s, Failed(w), u), w) == 0
    ensures w in s.atomic ==> SameTable(Step(s, Failed(w), u).db, s.begun, w)
    ensures w !in s.atomic ==> SameTable(Step(s, Failed(w), u).db, s.db, w)
  {
  }

  /** An event that is not a failure of worker `w` keeps where the table of `w` is heading. */
  lemma HeadingKept<V, S, P>(s: State<V, S, P>, e: Event, w: Worker, u: Unlisted<S, P>)
    requires Valid(s) && Left(s, e.w) > 0 && e != Failed(w)
    ensures SameTable(Settled(Step(s, e, u), u), Settled(s, u), w)
  {
    hide Step, Settled, Left;
    if e.w == w {
      assert e == Executed(w);
      StepSettles(s, w, u);
    } else {
      OtherTables(s, e, w, u);
    }
  }

  lemma {:induction false} RunIsAtomic<V, S, P>(s: State<V, S, P>, run: seq<Event>, w: Worker, u: Unlisted<S, P>)
    requires Valid(s) && Legal(s, run, u) && Finished(Run(s, run, u)) && w in s.atomic
    ensures SameTable(Run(s, run, u).db, if Failed(w) in run then s.begun else Settled(s, u), w)
    decreases |run|
  {
    hide Step, Left, Settled, Finished;
    if run == [] {
      FinishedSettled(s, u);
    } else {
      var r := Step(s, run[0], u);
      assert Failed(w) in run <==> run[0] == Failed(w) || Failed(w) in run[1..];
      RunIsAtomic(r, run[1..], w, u);
      if run[0] == Failed(w) {
        FailedWorker(s, w, u);
        DoneWithTable(r, run[1..], w, u);
      } else {
        HeadingKept(s, run[0], w, u);
      }
    }
  }

  /**
   The table of a worker whose chunks form a transaction is, at the end of a flush, what the row-by-row reference makes
   of it, or exactly what it was: the latter if one of the worker's statements failed.
   */
  lemma AllOrNothing<V, S, P>(db: Db<V, S, P>, work: Work<V>, mode: FlushMode, run: seq<Event>, u: Unlisted<S, P>,
                              w: Worker)
    requires ValidDb(db) && ValidWork(work) && w in mode.atomic
    requires Legal(Start(db, work, mode), run, u) && Finished(Run(Start(db, work, mode), run, u))
    ensures SameTable(Run(Start(db, work, mode), run, u).db,
                      if Failed(w) in run then db else Sequential(db, work, u), w)
  {
    hide Legal, Run, Finished, Sequential, Settled, SameTable;
    StartSettled(db, work, mode, u);
    RunIsAtomic(Start(db, work, mode), run, w, u);
  }

  /** How many statements of a worker were executed. */
  function Executions(run: seq<Event>, w: Worker): nat {
    if run == [] then 0 else (if run[0] == Executed(w) then 1 else 0) + Executions(run[1..], w)
  }

  /** The database after the first `j` pending chunks of worker `w`, and nothing else. */
  function WithChunks<V, S, P>(s: State<V, S, P>, w: Worker, j: nat, u: Unlisted<S, P>): Db<V, S, P>
    requires Valid(s)
  {
    match w
    case EavWorker(bt) =>
      if bt !in EAV_TYPES then s.db
      else
        var chunks := s.todo.eav[bt];
        s.db.(eav := s.db.eav[bt := UpsertAll(s.db.eav[bt], Flatten(chunks[..Min(j, |chunks|)]), ())])
    case StockWorker =>
      s.db.(stock := UpsertAll(s.db.stock, Flatten(s.todo.stock[..Min(j, |s.todo.stock|)]), u.stock))
    case GalleryWorker => s.db.(gallery := s.db.gallery + Flatten(s.todo.gallery[..Min(j, |s.todo.gallery|)]))
    case PriceWorker =>
      s.db.(price := UpsertAll(s.db.price, Flatten(s.todo.price[..Min(j, |s.todo.price|)]), u.price))
  }

  lemma NoChunks<V, S, P>(s: State<V, S, P>, w: Worker, u: Unlisted<S, P>)
    requires Valid(s)
    ensures SameTable(WithChunks(s, w, 0, u), s.db, w)
  {
    hide EAV_TYPES;
    assert s.db.gallery + [] == s.db.gallery;
  }

  lemma FirstChunk<K, C, R>(t: Table<K, C, R>, chunks: seq<seq<Row<K, C>>>, j: nat, dflt: R)
    requires chunks != [] && j > 0
    ensures UpsertAll(UpsertAll(t, chunks[0], dflt), Flatten(chunks[1..][..Min(j - 1, |chunks| - 1)]), dflt) ==
            UpsertAll(t, Flatten(chunks[..Min(j, |chunks|)]), dflt)
  {
    var some := chunks[..Min(j, |chunks|)];
    assert some[0] == chunks[0] && some[1..] == chunks[1..][..Min(j - 1, |chunks| - 1)];
    UpsertAllAppend(t, some[0], Flatten(some[1..]), dflt);
  }

  lemma FirstImages(g: seq<string>, chunks: seq<seq<string>>, j: nat)
    requires chunks != [] && j > 0
    ensures g + chunks[0] + Flatten(chunks[1..][..Min(j - 1, |chunks| - 1)]) == g + Flatten(chunks[..Min(j, |chunks|)])
  {
    var some := chunks[..Min(j, |chunks|)];
    assert some[0] == chunks[0] && some[1..] == chunks[1..][..Min(j - 1, |chunks| - 1)];
  }

  lemma ChunkThenChunks<V, S, P>(s: State<V, S, P>, w: Worker, j: nat, u: Unlisted<S, P>)
    requires Valid(s) && Left(s, w) > 0 && j > 0
    ensures SameTable(WithChunks(ChunkWritten(s, w, u), w, j - 1, u), WithChunks(s, w, j, u), w)
  {
    hide EAV_TYPES, UpsertAll, Flatten;
    match w
    case EavWorker(bt) => FirstChunk(s.db.eav[bt], s.todo.eav[bt], j, ());
    case StockWorker => FirstChunk(s.db.stock, s.todo.stock, j, u.stock);
    case GalleryWorker => FirstImages(s.db.gallery, s.todo.gallery, j);
    case PriceWorker => FirstChunk(s.db.price, s.todo.price, j, u.price);
  }

  lemma OtherChunks<V, S, P>(a: State<V, S, P>, b: State<V, S, P>, w: Worker, j: nat, u: Unlisted<S, P>)
    requires Valid(a) && Valid(b) && SameTable(a.db, b.db, w) && SameTodo(a, b, w)
    ensures SameTable(WithChunks(a, w, j, u), WithChunks(b, w, j, u), w)
  {
    hide EAV_TYPES, UpsertAll, Flatten;
  }

  /** After a failure its worker does nothing more. */
  lemma FailureWrites<V, S, P>(s: State<V, S, P>, more: seq<Event>, w: Worker, u: Unlisted<S, P>)
    requires Valid(s) && Left(s, w) > 0 && Legal(Step(s, Failed(w), u), more, u)
    ensures Executions(more, w) == 0
    ensures SameTable(Run(Step(s, Failed(w), u), more, u).db,
                      if w in s.atomic then s.begun else WithChunks(s, w, 0, u), w)
  {
    FailedWorker(s, w, u);
    NoChunks(s, w, u);
    hide Step, Left, WithChunks;
    DoneWithTable(Step(s, Failed(w), u), more, w, u);
    NoMoreExecutions(Step(s, Failed(w), u), more, w, u);
  }

  /** An event other than a failure of `w`, seen from the table of `w`. */
  lemma EventWrites<V, S, P>(s: State<V, S, P>, e: Event, w: Worker, j: nat, u: Unlisted<S, P>)
    requires Valid(s) && Left(s, e.w) > 0 && e != Failed(w)
    ensures SameTable(WithChunks(Step(s, e, u), w, j, u),
                      WithChunks(s, w, if e == Executed(w) then j + 1 else j, u), w)
  {
    hide Step, Left, WithChunks, ChunkWritten;
    if e == Executed(w) {
      StepIs(s, w, u);
      ChunkThenChunks(s, w, j + 1, u);
    } else {
      OtherStep(s, e, w, u);
      OtherChunks(Step(s, e, u), s, w, j, u);
    }
  }

  lemma {:induction false} RunWrites<V, S, P>(s: State<V, S, P>, run: seq<Event>, w: Worker, u: Unlisted<S, P>)
    requires Valid(s) && Legal(s, run, u)
    ensures SameTable(Run(s, run, u).db,
                      if Failed(w) in run && w in s.atomic then s.begun else WithChunks(s, w, Executions(run, w), u), w)
    decreases |run|
  {
    hide Step, Left, WithChunks, Valid;
    if run == [] {
      NoChunks(s, w, u);
    } else {
      assert Failed(w) in run <==> run[0] == Failed(w) || Failed(w) in run[1..];
      if run[0] == Failed(w) {
        FailureWrites(s, run[1..], w, u);
      } else {
        RunWrites(Step(s, run[0], u), run[1..], w, u);
        EventWrites(s, run[0], w, Executions(run[1..], w), u);
      }
    }
  }

  lemma StepIs<V, S, P>(s: State<V, S, P>, w: Worker, u: Unlisted<S, P>)
    requires Valid(s) && Left(s, w) > 0
    ensures Step(s, Executed(w), u) == ChunkWritten(s, w, u)
  {
  }

  lemma {:induction false} NoMoreExecutions<V, S, P>(s: State<V, S, P>, run: seq<Event>, w: Worker, u: Unlisted<S, P>)
    requires Valid(s) && Legal(s, run, u) && Left(s, w) == 0
    ensures Executions(run, w) == 0
    decreases |run|
  {
    hide Step, Left;
    if run != [] {
      LeftAfter(s, run[0], w, u);
      NoMoreExecutions(Step(s, run[0], u), run[1..], w, u);
    }
  }

  /**
   What a run leaves in the table of any worker: the chunks of its executed statements, in order, or the table as it
   was if the worker failed and its chunks form a transaction.
   */
  lemma EachTable<V, S, P>(db: Db<V, S, P>, work: Work<V>, mode: FlushMode, run: seq<Event>, u: Unlisted<S, P>,
                           w: Worker)
    requires ValidDb(db) && ValidWork(work) && Legal(Start(db, work, mode), run, u)
    ensures SameTable(Run(Start(db, work, mode), run, u).db,
                      if Failed(w) in run && w in mode.atomic then db
                      else WithChunks(Start(db, work, mode), w, Executions(run, w), u), w)
  {
    hide Legal, Run, WithChunks, SameTable;
    RunWrites(Start(db, work, mode), run, w, u);
  }

  // ----- the flush itself -----

  function Workers<V, S, P>(s: State<V, S, P>): set<Worker>
    requires Valid(s)
  {
    set w | w in {EavWorker(VarcharType), EavWorker(IntType), EavWorker(DecimalType), EavWorker(TextType),
                  EavWorker(DatetimeType), StockWorker, GalleryWorker, PriceWorker} && Left(s, w) > 0
  }

  function Total<V, S, P>(s: State<V, S, P>): nat
    requires Valid(s)
  {
    Left(s, EavWorker(VarcharType)) + Left(s, EavWorker(IntType)) + Left(s, EavWorker(DecimalType)) +
    Left(s, EavWorker(TextType)) + Left(s, EavWorker(DatetimeType)) +
    Left(s, StockWorker) + Left(s, GalleryWorker) + Left(s, PriceWorker)
  }

  lemma NobodyLeft<V, S, P>(s: State<V, S, P>)
    requires Valid(s) && Workers(s) == {}
    ensures Finished(s)
  {
    forall bt | bt in EAV_TYPES
      ensures s.todo.eav[bt] == []
    {
      assert EavWorker(bt) !in Workers(s);
    }
    assert StockWorker !in Workers(s) && GalleryWorker !in Workers(s) && PriceWorker !in Workers(s);
  }

  /** An event takes statements from its own worker only. */
  lemma LeftAfter<V, S, P>(s: State<V, S, P>, e: Event, w: Worker, u: Unlisted<S, P>)
    requires Valid(s) && Left(s, e.w) > 0
    ensures if w == e.w then Left(Step(s, e, u), w) < Left(s, w) else Left(Step(s, e, u), w) == Left(s, w)
  {
    hide EAV_TYPES, UpsertAll;
  }

  lemma StepShrinks<V, S, P>(s: State<V, S, P>, e: Event, u: Unlisted<S, P>)
    requires Valid(s) && Left(s, e.w) > 0
    ensures Total(Step(s, e, u)) < Total(s)
  {
    OwnTable(s, e.w);
    hide EAV_TYPES, Step, Left, Valid;
    forall w
      ensures if w == e.w then Left(Step(s, e, u), w) < Left(s, w) else Left(Step(s, e, u), w) == Left(s, w)
    {
      LeftAfter(s, e, w, u);
    }
  }

  lemma OwnTable<V, S, P>(s: State<V, S, P>, w: Worker)
    requires Valid(s) && Left(s, w) > 0
    ensures w.EavWorker? ==> w.bt in EAV_TYPES
  {
  }

  lemma {:induction false} RunCons<V, S, P>(s: State<V, S, P>, e: Event, more: seq<Event>, u: Unlisted<S, P>)
    requires Valid(s) && Left(s, e.w) > 0 && Legal(Step(s, e, u), more, u)
    ensures Legal(s, [e] + more, u) && Run(s, [e] + more, u) == Run(Step(s, e, u), more, u)
  {
    hide Step, Left, Valid;
    assert ([e] + more)[1..] == more;
  }

  lemma {:induction false} RunSnoc<V, S, P>(s: State<V, S, P>, run: seq<Event>, e: Event, u: Unlisted<S, P>)
    requires Valid(s) && Legal(s, run, u) && Left(Run(s, run, u), e.w) > 0
    ensures Legal(s, run + [e], u) && Run(s, run + [e], u) == Step(Run(s, run, u), e, u)
    decreases |run|
  {
    hide Step, Left, Valid;
    if run == [] {
      var r := Step(s, e, u);
      assert run + [e] == [e] && [e][1..] == [];
      assert Legal(r, [], u) && Run(r, [], u) == r;
    } else {
      var r := Step(s, run[0], u);
      var more := run[1..] + [e];
      RunSnoc(r, run[1..], e, u);
      assert Run(s, run, u) == Run(r, run[1..], u);
      assert run + [e] == [run[0]] + more;
      RunCons(s, run[0], more, u);
    }
  }

  // ----- which statements fail -----

  /**
   What the events so far say about worker `w`, which began with `all` statements and has `left`: it failed, and did so
   at a statement that fails; or none of the statements that it has sent is one that fails.
   */
  ghost predicate Obeys(all: nat, left: nat, run: seq<Event>, fails: (Worker, nat) -> bool, w: Worker) {
    && left <= all
    && (if Failed(w) in run then left == 0 && exists k: nat :: 1 <= k <= all && fails(w, k)
        else forall k: nat :: left < k <= all ==> !fails(w, k))
  }

  lemma EventObeys(all: nat, left: nat, left': nat, run: seq<Event>, fails: (Worker, nat) -> bool, e: Event, w: Worker)
    requires Obeys(all, left, run, fails, w)
    requires if e.w != w then left' == left
             else left > 0 && (e.Failed? <==> fails(w, left)) && left' == if e.Failed? then 0 else left - 1
    ensures Obeys(all, left', run + [e], fails, w)
  {
    assert Failed(w) in run + [e] <==> Failed(w) in run || e == Failed(w);
  }

  lemma NothingSent(all: nat, fails: (Worker, nat) -> bool, w: Worker)
    ensures Obeys(all, all, [], fails, w)
  {
  }

  /** A worker that has nothing left failed exactly if one of its statements fails. */
  lemma AllSent(all: nat, run: seq<Event>, fails: (Worker, nat) -> bool, w: Worker)
    requires Obeys(all, 0, run, fails, w)
    ensures Failed(w) in run <==> exists k: nat :: 1 <= k <= all && fails(w, k)
  {
  }

  lemma StepObeys<V, S, P>(all: nat, s: State<V, S, P>, run: seq<Event>, fails: (Worker, nat) -> bool,
                           e: Event, w: Worker, u: Unlisted<S, P>)
    requires Valid(s) && Left(s, e.w) > 0 && (e.Failed? <==> fails(e.w, Left(s, e.w)))
    requires Obeys(all, Left(s, w), run, fails, w)
    ensures Obeys(all, Left(Step(s, e, u), w), run + [e], fails, w)
  {
    hide Step, Left, Obeys;
    LeftAfter(s, e, w, u);
    SentOrDropped(s, e, w, u);
    EventObeys(all, Left(s, w), Left(Step(s, e, u), w), run, fails, e, w);
  }

  lemma SentOrDropped<V, S, P>(s: State<V, S, P>, e: Event, w: Worker, u: Unlisted<S, P>)
    requires Valid(s) && Left(s, e.w) > 0
    ensures e == Failed(w) ==> Left(Step(s, e, u), w) == 0
    ensures e == Executed(w) ==> Left(Step(s, e, u), w) == Left(s, w) - 1
  {
    hide Step, Left;
    if e == Failed(w) {
      FailedWorker(s, w, u);
    } else if e == Executed(w) {
      ChunkSent(s, w, u);
    }
  }

  lemma ChunkSent<V, S, P>(s: State<V, S, P>, w: Worker, u: Unlisted<S, P>)
    requires Valid(s) && Left(s, w) > 0
    ensures Left(Step(s, Executed(w), u), w) == Left(s, w) - 1
  {
    hide EAV_TYPES, UpsertAll;
  }

  /** Some statement of a flush that starts in `s` fails. */
  ghost predicate SomeFails<V, S, P>(s: State<V, S, P>, fails: (Worker, nat) -> bool)
    requires Valid(s)
  {
    exists w: Worker, k: nat :: 1 <= k <= Left(s, w) && fails(w, k)
  }

  lemma NothingLeft<V, S, P>(s: State<V, S, P>, w: Worker)
    requires Valid(s) && Finished(s)
    ensures Left(s, w) == 0
  {
  }

  lemma FailuresShow<V, S, P>(s: State<V, S, P>, run: seq<Event>, fails: (Worker, nat) -> bool)
    requires Valid(s)
    requires forall w: Worker :: Failed(w) in run <==> exists k: nat :: 1 <= k <= Left(s, w) && fails(w, k)
    ensures !NoFailure(run) <==> SomeFails(s, fails)
  {
    hide Left;
    if !NoFailure(run) {
      var i :| 0 <= i < |run| && !run[i].Executed?;
      assert run[i] == Failed(run[i].w);
    }
    if SomeFails(s, fails) {
      var w: Worker, k: nat :| 1 <= k <= Left(s, w) && fails(w, k);
      assert Failed(w) in run;
    }
  }

  /** A flush of `work` ran to its end through the events of `run` and left `after`. */
  ghost predicate Flushed<V, S, P>(db: Db<V, S, P>, work: Work<V>, mode: FlushMode, run: seq<Event>, u: Unlisted<S, P>,
                                   err: bool, after: Db<V, S, P>)
    requires ValidDb(db) && ValidWork(work)
  {
    && Legal(Start(db, work, mode), run, u) && Finished(Run(Start(db, work, mode), run, u))
    && after == Run(Start(db, work, mode), run, u).db
    && (err <==> !NoFailure(run))
    && (!err ==> after == Sequential(db, work, u))
  }

  /**
   `wg.Wait()` over all goroutines: the scheduler is the `:|`, and it always comes to an end. `fails(w, k)` says
   whether the statement fails that worker `w` sends when it has `k` left. A worker fails exactly if one of its
   statements does, and exactly then there is an error. Without one the database is the row-by-row reference.
   */
  method FlushAll<V, S, P>(db: Db<V, S, P>, work: Work<V>, mode: FlushMode, u: Unlisted<S, P>,
                           fails: (Worker, nat) -> bool)
    returns (err: bool, after: Db<V, S, P>, ghost run: seq<Event>)
    requires ValidDb(db) && ValidWork(work)
    ensures ValidDb(after) && Flushed(db, work, mode, run, u, err, after)
    ensures forall w: Worker ::
              Failed(w) in run <==> exists k: nat :: 1 <= k <= Left(Start(db, work, mode), w) && fails(w, k)
    ensures err <==> SomeFails(Start(db, work, mode), fails)
  {
    hide Sequential, Step, Start, Finished, Legal, Run, Settled, Left, SomeFails, Obeys;
    var s := Start(db, work, mode);
    ghost var s0 := s;
    err, run := false, [];
    NothingRun(s, u);
    forall w: Worker
      ensures Obeys(Left(s, w), Left(s, w), run, fails, w)
    {
      NothingSent(Left(s, w), fails, w);
    }
    while Workers(s) != {}
      invariant Valid(s) && Legal(s0, run, u) && s == Run(s0, run, u)
      invariant err <==> !NoFailure(run)
      invariant forall w: Worker :: Obeys(Left(s0, w), Left(s, w), run, fails, w)
      decreases Total(s)
    {
      var w :| w in Workers(s);
      var e := if fails(w, Left(s, w)) then Failed(w) else Executed(w);
      RunSnoc(s0, run, e, u);
      FailureSnoc(run, e);
      StepShrinks(s, e, u);
      forall x: Worker
        ensures Obeys(Left(s0, x), Left(Step(s, e, u), x), run + [e], fails, x)
      {
        StepObeys(Left(s0, x), s, run, fails, e, x, u);
      }
      err, run, s := err || e.Failed?, run + [e], Step(s, e, u);
    }
    NobodyLeft(s);
    forall w: Worker
      ensures Failed(w) in run <==> exists k: nat :: 1 <= k <= Left(s0, w) && fails(w, k)
    {
      NothingLeft(s, w);
      AllSent(Left(s0, w), run, fails, w);
    }
    FailuresShow(s0, run, fails);
    if !err {
      EveryInterleaving(db, work, mode, run, u);
    }
    after := s.db;
  }

  lemma NothingRun<V, S, P>(s: State<V, S, P>, u: Unlisted<S, P>)
    requires Valid(s)
    ensures Legal(s, [], u) && Run(s, [], u) == s
  {
  }

  lemma FailureSnoc(run: seq<Event>, e: Event)
    ensures NoFailure(run + [e]) <==> NoFailure(run) && e.Executed?
  {
    assert (run + [e])[|run|] == e;
    assert forall i :: 0 <= i < |run| ==> (run + [e])[i] == run[i];
  }
}
