/** The whole import (`ImportProducts`): lookup, entity creation, collection and the parallel flush. */
module ImportProducts {
  import opened Text
  import opened Tables
  import opened CsvSheet
  import opened ImportEav
  import opened EavDeterminism
  import opened ImportFlush
  import opened ImportService
  import Stock = ImportStock
  import Price = ImportPrice
  import Gallery = ImportGallery

  datatype ImportOptions = ImportOptions(store: nat, batchSize: int, attrSet: nat, rawSQL: bool)
  datatype ImportWarning = UnknownColumn(header: string) | EavWarning(e: ImportEav.Warning)
                         | StockWarning(s: Stock.Warning) | PriceWarning(p: Price.Warning)
  datatype ImportResult = ImportResult(total: nat, created: nat, updated: int, skipped: nat,
                                       warnings: seq<ImportWarning>,
                                       eavCounts: map<BackendType, nat>, stock: nat, gallery: nat, price: nat)
  datatype Outcome = Done(result: ImportResult) | MissingSkuColumn | FlushFailed

  function TrimAll(headers: seq<string>): (r: seq<string>)
    ensures |r| == |headers|
  {
    if headers == [] then [] else TrimAll(headers[..|headers| - 1]) + [TrimSpace(headers[|headers| - 1])]
  }

  function ColIndex(headers: seq<string>): map<string, nat> {
    if headers == [] then map[] else ColIndex(headers[..|headers| - 1])[headers[|headers| - 1] := |headers| - 1]
  }

  function KnownColumns(attrMap: map<string, AttrMeta>): set<string> {
    STATIC_FIELDS + (set code | code in attrMap && attrMap[code].backend != OtherType("static")) +
    Stock.STOCK_COLUMNS + (set c | c in Gallery.IMAGE_COLUMNS) + Price.PRICE_COLUMNS
  }

  function UnknownColumns(headers: seq<string>, known: set<string>): seq<ImportWarning> {
    if headers == [] then []
    else
      var h := headers[|headers| - 1];
      UnknownColumns(headers[..|headers| - 1], known) + if h in known then [] else [UnknownColumn(h)]
  }

  function EavWarnings(ws: seq<ImportEav.Warning>): (all: seq<ImportWarning>)
    ensures |all| == |ws| && forall i :: 0 <= i < |all| ==> all[i] == EavWarning(ws[i])
  {
    seq(|ws|, i requires 0 <= i < |ws| => EavWarning(ws[i]))
  }

  function StockWarnings(ws: seq<Stock.Warning>): (all: seq<ImportWarning>)
    ensures |all| == |ws| && forall i :: 0 <= i < |all| ==> all[i] == StockWarning(ws[i])
  {
    seq(|ws|, i requires 0 <= i < |ws| => StockWarning(ws[i]))
  }

  function PriceWarnings(ws: seq<Price.Warning>): (all: seq<ImportWarning>)
    ensures |all| == |ws| && forall i :: 0 <= i < |all| ==> all[i] == PriceWarning(ws[i])
  {
    seq(|ws|, i requires 0 <= i < |ws| => PriceWarning(ws[i]))
  }

  /** The values an EAV table receives: the cell text in raw mode, the parsed cell in ORM mode. */
  function ValueRows(p: Parsers, bt: BackendType, useRaw: bool,
                     rows: seq<Row<EavKey, string>>): seq<Row<EavKey, Value>> {
    if rows == [] then []
    else
      var r := rows[|rows| - 1];
      ValueRows(p, bt, useRaw, rows[..|rows| - 1]) +
        [Row(r.key, if useRaw then StrValue(r.cols) else Convert(p, bt, r.cols))]
  }

  /** Everything that one import sends to the database, for the column orders it happened to use. */
  function WorkOf(c: EavContext, rows: seq<CsvRow>, orders: seq<seq<string>>, useRaw: bool): (w: Work<Value>)
    requires |rows| == |orders|
    ensures ValidWork(w)
  {
    Work(map bt | bt in EAV_TYPES :: ValueRows(c.p, bt, useRaw, Bucket(c, rows, orders, bt)),
         Stock.StockRows(c.sheet, rows, c.p),
         Price.PriceRows(c.sheet, rows, c.p),
         Gallery.Images(Gallery.FirstSeen(Gallery.Occurrences(c.sheet, rows))))
  }

  lemma {:induction false} ValueRowsLast(p: Parsers, bt: BackendType, useRaw: bool, rows: seq<Row<EavKey, string>>,
                                         k: EavKey)
    ensures var l := LastFor(rows, k);
            LastFor(ValueRows(p, bt, useRaw, rows), k) ==
            match l
            case None => None
            case Some(cell) => Some(if useRaw then StrValue(cell) else Convert(p, bt, cell))
    decreases |rows|
  {
    hide Convert;
    if rows != [] {
      var n := |rows| - 1;
      ValueRowsLast(p, bt, useRaw, rows[..n], k);
      var before := ValueRows(p, bt, useRaw, rows[..n]);
      var last := Row(rows[n].key, if useRaw then StrValue(rows[n].cols) else Convert(p, bt, rows[n].cols));
      assert (before + [last])[..|before|] == before;
    }
  }

  lemma {:induction false} ValueRowsConvert(p: Parsers, bt: BackendType, rows: seq<Row<EavKey, string>>)
    ensures ValueRows(p, bt, false, rows) == ConvertRows(p, bt, rows)
    decreases |rows|
  {
    if rows != [] {
      ValueRowsConvert(p, bt, rows[..|rows| - 1]);
    }
  }

  // ----- determinism and convergence of whole imports -----

  lemma {:induction false} SameLastRows(c: EavContext, rows: seq<CsvRow>, o1: seq<seq<string>>, o2: seq<seq<string>>,
                                        useRaw: bool, bt: BackendType, k: EavKey)
    requires DistinctAttributes(c.mappings) && ValidOrders(c, rows, o1) && ValidOrders(c, rows, o2)
    ensures LastFor(ValueRows(c.p, bt, useRaw, Bucket(c, rows, o1, bt)), k) ==
            LastFor(ValueRows(c.p, bt, useRaw, Bucket(c, rows, o2, bt)), k)
  {
    hide Bucket, Convert, LastFor, ValueRows, IsOrderOf, DistinctAttributes, LastCell;
    BucketDecides(c, rows, o1, bt, k);
    BucketDecides(c, rows, o2, bt, k);
    ValueRowsLast(c.p, bt, useRaw, Bucket(c, rows, o1, bt), k);
    ValueRowsLast(c.p, bt, useRaw, Bucket(c, rows, o2, bt), k);
  }

  lemma {:induction false} SameSequential<S, P>(c: EavContext, rows: seq<CsvRow>, o1: seq<seq<string>>,
                                                o2: seq<seq<string>>, useRaw: bool,
                                                db: Db<Value, S, P>, u: Unlisted<S, P>)
    requires DistinctAttributes(c.mappings) && ValidOrders(c, rows, o1) && ValidOrders(c, rows, o2) && ValidDb(db)
    ensures Sequential(db, WorkOf(c, rows, o1, useRaw), u) == Sequential(db, WorkOf(c, rows, o2, useRaw), u)
  {
    hide UpsertAll, LastFor, ValueRows, Bucket, IsOrderOf, DistinctAttributes, Stock.StockRows, Price.PriceRows;
    var a, b := Sequential(db, WorkOf(c, rows, o1, useRaw), u), Sequential(db, WorkOf(c, rows, o2, useRaw), u);
    forall bt | bt in EAV_TYPES
      ensures a.eav[bt] == b.eav[bt]
    {
      var r1 := ValueRows(c.p, bt, useRaw, Bucket(c, rows, o1, bt));
      var r2 := ValueRows(c.p, bt, useRaw, Bucket(c, rows, o2, bt));
      forall k
        ensures LastFor(r1, k) == LastFor(r2, k)
      {
        SameLastRows(c, rows, o1, o2, useRaw, bt, k);
      }
      SameLastSameTable(db.eav[bt], r1, r2, ());
    }
    assert a.eav == b.eav;
  }

  /**
   Two flushes of the same sheet end in the same database, whatever their column orders, batch sizes
   and schedules were.
   */
  lemma {:induction false} ImportIsDeterministic<S, P>(c: EavContext, rows: seq<CsvRow>, useRaw: bool,
                                                       db: Db<Value, S, P>, u: Unlisted<S, P>,
                                                       o1: seq<seq<string>>, mode1: FlushMode, run1: seq<Event>,
                                                       o2: seq<seq<string>>, mode2: FlushMode, run2: seq<Event>)
    requires DistinctAttributes(c.mappings) && ValidOrders(c, rows, o1) && ValidOrders(c, rows, o2)
    requires ValidDb(db) && NoFailure(run1) && NoFailure(run2)
    requires var s1 := Start(db, WorkOf(c, rows, o1, useRaw), mode1);
             Legal(s1, run1, u) && Finished(Run(s1, run1, u))
    requires var s2 := Start(db, WorkOf(c, rows, o2, useRaw), mode2);
             Legal(s2, run2, u) && Finished(Run(s2, run2, u))
    ensures Run(Start(db, WorkOf(c, rows, o1, useRaw), mode1), run1, u).db ==
            Run(Start(db, WorkOf(c, rows, o2, useRaw), mode2), run2, u).db
  {
    hide Run, Legal, Start, Sequential, Finished, WorkOf;
    EveryInterleaving(db, WorkOf(c, rows, o1, useRaw), mode1, run1, u);
    EveryInterleaving(db, WorkOf(c, rows, o2, useRaw), mode2, run2, u);
    SameSequential(c, rows, o1, o2, useRaw, db, u);
  }

  lemma SameKeysCovered<K(!new), C>(a: seq<Row<K, C>>, b: seq<Row<K, C>>)
    requires forall k :: LastFor(a, k) == LastFor(b, k)
    ensures CoveredRows(a, b)
  {
    forall i | 0 <= i < |a|
      ensures Covers(b, a[i].key)
    {
      LastForCovers(a, a[i].key);
      LastForCovers(b, a[i].key);
      assert LastFor(a, a[i].key) == LastFor(b, a[i].key);
    }
  }

  lemma {:induction false} ReimportCovers(c: EavContext, rows: seq<CsvRow>, o1: seq<seq<string>>, o2: seq<seq<string>>,
                                          useRaw: bool)
    requires DistinctAttributes(c.mappings) && ValidOrders(c, rows, o1) && ValidOrders(c, rows, o2)
    ensures Covered(WorkOf(c, rows, o1, useRaw), WorkOf(c, rows, o2, useRaw))
  {
    hide LastFor, ValueRows, Bucket, IsOrderOf, DistinctAttributes, CoveredRows, Stock.StockRows, Price.PriceRows;
    forall bt | bt in EAV_TYPES
      ensures CoveredRows(WorkOf(c, rows, o1, useRaw).eav[bt], WorkOf(c, rows, o2, useRaw).eav[bt])
    {
      var r1 := ValueRows(c.p, bt, useRaw, Bucket(c, rows, o1, bt));
      var r2 := ValueRows(c.p, bt, useRaw, Bucket(c, rows, o2, bt));
      forall k
        ensures LastFor(r1, k) == LastFor(r2, k)
      {
        SameLastRows(c, rows, o1, o2, useRaw, bt, k);
      }
      SameKeysCovered(r1, r2);
    }
    SameKeysCovered(Stock.StockRows(c.sheet, rows, c.p), Stock.StockRows(c.sheet, rows, c.p));
    SameKeysCovered(Price.PriceRows(c.sheet, rows, c.p), Price.PriceRows(c.sheet, rows, c.p));
  }

  /**
   Two flushes of a sheet with the same SKU map, the first one stopped anywhere, leave the EAV, stock and price
   tables of one flush that visited the columns in yet another order. A second import looks the SKUs up again:
   `Reimport` says when it gets the same map.
   */
  lemma {:induction false} StoppedFlushConverges<S, P>(c: EavContext, rows: seq<CsvRow>, useRaw: bool,
                                                       db: Db<Value, S, P>, u: Unlisted<S, P>,
                                                       o1: seq<seq<string>>, mode1: FlushMode, run1: seq<Event>,
                                                       o2: seq<seq<string>>, mode2: FlushMode, run2: seq<Event>,
                                                       o3: seq<seq<string>>)
    requires DistinctAttributes(c.mappings) && ValidOrders(c, rows, o1) && ValidOrders(c, rows, o2) &&
             ValidOrders(c, rows, o3)
    requires ValidDb(db) && NoFailure(run2)
    requires Legal(Start(db, WorkOf(c, rows, o1, useRaw), mode1), run1, u)
    requires var s2 := Start(Run(Start(db, WorkOf(c, rows, o1, useRaw), mode1), run1, u).db,
                             WorkOf(c, rows, o2, useRaw), mode2);
             Legal(s2, run2, u) && Finished(Run(s2, run2, u))
    ensures var stopped := Run(Start(db, WorkOf(c, rows, o1, useRaw), mode1), run1, u).db;
            var after := Run(Start(stopped, WorkOf(c, rows, o2, useRaw), mode2), run2, u).db;
            var once := Sequential(db, WorkOf(c, rows, o3, useRaw), u);
            && after.eav == once.eav && after.stock == once.stock && after.price == once.price
            && (after.gallery == once.gallery <==> stopped.gallery == db.gallery)
  {
    hide Run, Legal, Start, Sequential, Finished, WorkOf, Covered;
    ReimportCovers(c, rows, o1, o2, useRaw);
    InterruptedImportConverges(db, WorkOf(c, rows, o1, useRaw), mode1, run1,
                               WorkOf(c, rows, o2, useRaw), mode2, run2, u);
    SameSequential(c, rows, o2, o3, useRaw, db, u);
  }

  // ----- the import -----

  /** A header leads to its last column. */
  lemma {:induction false} ColIndexLast(headers: seq<string>, h: string)
    ensures h in ColIndex(headers) <==> h in headers
    ensures h in ColIndex(headers) ==>
              var i := ColIndex(headers)[h];
              i < |headers| && headers[i] == h && forall j :: i < j < |headers| ==> headers[j] != h
    decreases |headers|
  {
    if headers != [] {
      var n := |headers| - 1;
      ColIndexLast(headers[..n], h);
      assert headers == headers[..n] + [headers[n]];
      assert forall j :: 0 <= j < n ==> headers[j] == headers[..n][j];
    }
  }

  lemma {:induction false} TrimAllAt(headers: seq<string>, i: nat)
    requires i < |headers|
    ensures TrimAll(headers)[i] == TrimSpace(headers[i])
    decreases |headers|
  {
    hide TrimSpace;
    if i < |headers| - 1 {
      TrimAllAt(headers[..|headers| - 1], i);
    }
  }

  lemma NoColumns()
    ensures ColIndex([]) == map[]
  {
  }

  lemma ColIndexSnoc(headers: seq<string>, h: string)
    ensures ColIndex(headers + [h]) == ColIndex(headers)[h := |headers|]
  {
  }

  method TrimHeaders(headers: seq<string>) returns (r: seq<string>, colIndex: map<string, nat>)
    ensures r == TrimAll(headers) && colIndex == ColIndex(r)
    ensures forall i :: 0 <= i < |r| ==> r[i] == TrimSpace(headers[i])
    ensures forall h :: h in colIndex <==> h in r
    ensures forall h :: h in colIndex ==>
                          && colIndex[h] < |r| && r[colIndex[h]] == h
                          && forall j :: colIndex[h] < j < |r| ==> r[j] != h
  {
    hide TrimSpace, ColIndex;
    r := [];
    for i := 0 to |headers|
      invariant r == TrimAll(headers[..i])
    {
      assert headers[..i + 1][..i] == headers[..i];
      r := r + [TrimSpace(headers[i])];
    }
    assert headers[..|headers|] == headers;
    colIndex := map[];
    NoColumns();
    for i := 0 to |r|
      invariant colIndex == ColIndex(r[..i])
    {
      ColIndexSnoc(r[..i], r[i]);
      assert r[..i] + [r[i]] == r[..i + 1];
      colIndex := colIndex[r[i] := i];
    }
    assert r[..|r|] == r;
    forall i | 0 <= i < |r|
      ensures r[i] == TrimSpace(headers[i])
    {
      TrimAllAt(headers, i);
    }
    forall h: string
      ensures h in colIndex <==> h in r
      ensures h in colIndex ==>
                && colIndex[h] < |r| && r[colIndex[h]] == h
                && forall j :: colIndex[h] < j < |r| ==> r[j] != h
    {
      ColIndexLast(r, h);
    }
  }

  method WarnUnknown(headers: seq<string>, known: set<string>) returns (ws: seq<ImportWarning>)
    ensures ws == UnknownColumns(headers, known)
  {
    ws := [];
    for i := 0 to |headers|
      invariant ws == UnknownColumns(headers[..i], known)
    {
      assert headers[..i + 1][..i] == headers[..i];
      if headers[i] !in known {
        ws := ws + [UnknownColumn(headers[i])];
      }
    }
    assert headers[..|headers|] == headers;
  }

  method CollectSkus(rows: seq<CsvRow>, skuCol: nat) returns (skus: seq<string>)
    ensures skus == RawSkus(skuCol, rows)
  {
    skus := [];
    for i := 0 to |rows|
      invariant skus == RawSkus(skuCol, rows[..i])
    {
      assert rows[..i + 1][..i] == rows[..i];
      if skuCol < |rows[i]| && rows[i][skuCol] != "" {
        skus := skus + [rows[i][skuCol]];
      }
    }
    assert rows[..|rows|] == rows;
  }

  /** The rows that `flushEAV` sends, read off the collected data. */
  lemma WorkRead(c: EavContext, rows: seq<CsvRow>, orders: seq<seq<string>>, useRaw: bool, d: EavData, bt: BackendType)
    requires Collected(c, rows, orders, useRaw, d) && bt in EAV_TYPES
    ensures ValueRows(c.p, bt, true, d.buckets[bt]) + d.typed[bt] ==
            ValueRows(c.p, bt, useRaw, Bucket(c, rows, orders, bt))
  {
    hide Bucket, IsOrderOf, ConvertRows;
    if useRaw {
      assert d.typed[bt] == [];
    } else {
      ValueRowsConvert(c.p, bt, Bucket(c, rows, orders, bt));
      assert ValueRows(c.p, bt, true, []) == [];
    }
  }

  /**
   Collection and flush. Without a failing statement the database ends up as the row-by-row reference, otherwise as
   the events of the flush left it.
   */
  method CollectAndFlush<S, P>(db: Db<Value, S, P>, rows: seq<CsvRow>, headers: seq<string>, sheet: Sheet,
                               attrMap: map<string, AttrMeta>, store: nat, useRaw: bool, mode: FlushMode, p: Parsers,
                               u: Unlisted<S, P>, fails: (Worker, nat) -> bool)
    returns (err: bool, after: Db<Value, S, P>, d: EavData, stock: Stock.StockData, gallery: seq<string>,
             price: Price.PriceData, ghost orders: seq<seq<string>>, ghost run: seq<Event>)
    requires ValidDb(db)
    ensures var c := EavContext(sheet, Mappings(headers, attrMap), store, p);
            && Collected(c, rows, orders, useRaw, d)
            && ValidDb(after)
            && Flushed(db, WorkOf(c, rows, orders, useRaw), mode, run, u, err, after)
            && (err <==> SomeFails(Start(db, WorkOf(c, rows, orders, useRaw), mode), fails))
            && stock.rows == Stock.StockRows(sheet, rows, p) && stock.warnings == Stock.StockWarnings(sheet, rows, p)
            && price.rows == Price.PriceRows(sheet, rows, p) && price.warnings == Price.PriceWarnings(sheet, rows, p)
            && gallery == Gallery.Images(Gallery.FirstSeen(Gallery.Occurrences(sheet, rows)))
  {
    hide Mappings, ValueRows, Bucket, ConvertRows, IsOrderOf, Warnings, Flushed;
    ghost var c := EavContext(sheet, Mappings(headers, attrMap), store, p);
    d, orders := CollectEAV(rows, headers, sheet, attrMap, store, useRaw, p);
    stock := Stock.CollectStock(rows, sheet, p);
    gallery := Gallery.CollectGallery(rows, sheet);
    price := Price.CollectPrice(rows, sheet, p);
    var work := Work(map bt | bt in EAV_TYPES :: ValueRows(p, bt, true, d.buckets[bt]) + d.typed[bt],
                     stock.rows, price.rows, gallery);
    forall bt | bt in EAV_TYPES
      ensures work.eav[bt] == WorkOf(c, rows, orders, useRaw).eav[bt]
    {
      WorkRead(c, rows, orders, useRaw, d, bt);
    }
    assert work.eav == WorkOf(c, rows, orders, useRaw).eav;
    err, after, run := FlushAll(db, work, mode, u, fails);
  }

  /** The collected cells of an import: its link IDs come from what the lookup found and what was added. */
  function ContextOf(headers: seq<string>, attrs: seq<Attribute>, store: nat, p: Parsers,
                     lookup: map<string, nat>, added: seq<ProductRow>, enterprise: bool): (c: EavContext)
    ensures c.store == store && c.p == p && c.mappings == Mappings(headers, AttrMap(attrs))
    ensures c.sheet == Sheet(ColIndex(headers), Assign(lookup, Links(added, enterprise)))
  {
    EavContext(Sheet(ColIndex(headers), Assign(lookup, Links(added, enterprise))),
               Mappings(headers, AttrMap(attrs)), store, p)
  }

  function AttrSet(opts: ImportOptions): (attrSet: nat)
    ensures attrSet == opts.attrSet || (opts.attrSet == 0 && attrSet == 4)
    ensures attrSet != 0
  {
    if opts.attrSet == 0 then 4 else opts.attrSet
  }

  function BatchSize(opts: ImportOptions): (n: nat)
    ensures n > 0 && (n == opts.batchSize || (opts.batchSize <= 0 && n == 500))
  {
    if opts.batchSize <= 0 then 500 else opts.batchSize
  }

  /**
   `transactions` says whether the ORM wraps the batches of one call in a transaction, as it does unless the connection
   was opened with SkipDefaultTransaction. The raw EAV workers do without the ORM.
   */
  function ModeOf(opts: ImportOptions, useRaw: bool, transactions: bool): (mode: FlushMode)
    ensures mode.batchSize == BatchSize(opts)
    ensures forall w :: w in mode.atomic <==>
              transactions && (w.EavWorker? ==> !useRaw && w.bt in EAV_TYPES)
  {
    var eav := if useRaw then {} else set bt | bt in EAV_TYPES :: EavWorker(bt);
    Mode(BatchSize(opts), if transactions then {StockWorker, GalleryWorker, PriceWorker} + eav else {})
  }

  /**
   `ImportProducts` on an already tokenised CSV. `lookup` is what the SKU lookup found, `added` are the
   inserted products, `orders` the column orders and `run` the flush events of the run. When a statement of the
   flush fails, the inserted products stay and the database is what the flush made of it.
   */
  method ImportProducts<S, P>(catalog: Catalog, db: Db<Value, S, P>, rawHeaders: seq<string>, rows: seq<CsvRow>,
                              attrs: seq<Attribute>, opts: ImportOptions, transactions: bool, p: Parsers,
                              u: Unlisted<S, P>, fails: (Worker, nat) -> bool)
    returns (outcome: Outcome, after: Db<Value, S, P>, ghost lookup: map<string, nat>, ghost added: seq<ProductRow>,
             ghost orders: seq<seq<string>>, ghost run: seq<Event>)
    requires catalog.Valid() && ValidDb(db)
    modifies catalog
    ensures catalog.Valid() && ValidDb(after)
    ensures outcome.MissingSkuColumn? <==> "sku" !in TrimAll(rawHeaders)
    ensures outcome.MissingSkuColumn? ==> after == db && catalog.products == old(catalog.products)
    ensures !outcome.MissingSkuColumn? ==>
              var headers := TrimAll(rawHeaders);
              var c := ContextOf(headers, attrs, opts.store, p, lookup, added, catalog.enterprise);
              var useRaw := opts.rawSQL || catalog.enterprise;
              && Resolved(old(catalog.products), catalog.enterprise, ColIndex(headers), rows, AttrSet(opts), p, lookup,
                          added)
              && catalog.products == old(catalog.products) + added
              && ValidOrders(c, rows, orders)
              && Flushed(db, WorkOf(c, rows, orders, useRaw), ModeOf(opts, useRaw, transactions), run, u,
                         outcome.FlushFailed?, after)
              && (outcome.FlushFailed? <==>
                    SomeFails(Start(db, WorkOf(c, rows, orders, useRaw), ModeOf(opts, useRaw, transactions)), fails))
    ensures outcome.Done? ==>
              var headers := TrimAll(rawHeaders);
              var found := Sheet(ColIndex(headers), lookup);
              var c := ContextOf(headers, attrs, opts.store, p, lookup, added, catalog.enterprise);
              var r := outcome.result;
              && r.total == |rows| == r.created + r.updated + r.skipped
              && r.updated == Known(found, rows) && r.skipped == Blanks(found, rows) && r.created == |added|
              && r.eavCounts == (map bt | bt in EAV_TYPES :: CellCount(c, rows, bt))
              && r.stock == |Stock.StockRows(c.sheet, rows, p)| && r.price == |Price.PriceRows(c.sheet, rows, p)|
              && r.gallery == |Gallery.FirstSeen(Gallery.Occurrences(c.sheet, rows))|
              && r.warnings == UnknownColumns(headers, KnownColumns(AttrMap(attrs))) +
                               EavWarnings(Warnings(c, rows, orders)) +
                               StockWarnings(Stock.StockWarnings(c.sheet, rows, p)) +
                               PriceWarnings(Price.PriceWarnings(c.sheet, rows, p))
  {
    hide TrimAll, ColIndex, Sequential, WorkOf, Bucket, CellCount, Warnings, IsOrderOf, Answers, Links, Assign, Created,
         NewProducts, RawSkus, Mappings, AttrMap, Catalog.Valid, Known, Blanks, TrimSpace, ValidOrders, UnknownColumns,
         Flushed, Stock.StockRows, Stock.StockWarnings, Price.PriceRows, Price.PriceWarnings, Gallery.FirstSeen,
         Gallery.Occurrences;
    after, lookup, added, orders, run := db, map[], [], [], [];
    var batchSize := BatchSize(opts);
    var attrSet := AttrSet(opts);
    var headers, colIndex := TrimHeaders(rawHeaders);
    if "sku" !in colIndex {
      return MissingSkuColumn, db, map[], [], [], [];
    }
    var attrMap := AttrMap(attrs);
    var warnings := WarnUnknown(headers, KnownColumns(attrMap));
    var skus := CollectSkus(rows, colIndex["sku"]);
    var m := LookupSKUs(catalog.products, catalog.enterprise, skus, batchSize);
    lookup := m;
    var found := Sheet(colIndex, m);
    var created, skipped, skuToID, more := InsertNewEntities(catalog, rows, found, attrSet, batchSize, p);
    added := more;
    var useRaw := opts.rawSQL || catalog.enterprise;
    var err, d, stock, gallery, price;
    err, after, d, stock, gallery, price, orders, run :=
      CollectAndFlush(db, rows, headers, found.(skuToID := skuToID), attrMap, opts.store, useRaw,
                      ModeOf(opts, useRaw, transactions), p, u, fails);
    if err {
      return FlushFailed, after, lookup, added, orders, run;
    }
    ghost var c := ContextOf(headers, attrs, opts.store, p, lookup, added, catalog.enterprise);
    CountsAgree(c, rows, orders, useRaw, d);
    RowAccounting(found, rows, attrSet, p);
    CreatedLength(NewProducts(found, rows, attrSet, p), added);
    outcome := Done(ImportResult(|rows|, created, |rows| - skipped - created, skipped,
                                 warnings + EavWarnings(d.warnings) + StockWarnings(stock.warnings) +
                                   PriceWarnings(price.warnings),
                                 d.Counts(), |stock.rows|, |gallery|, |price.rows|));
  }

  lemma CreatedLength(news: seq<NewProduct>, added: seq<ProductRow>)
    requires Created(news, added)
    ensures |added| == |news|
  {
  }
}
