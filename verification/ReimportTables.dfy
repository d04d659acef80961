/**
 What importing one sheet twice does to the tables. A table comes out as after one import exactly when every row that
 has something for it names a SKU that the second lookup asks for.
 */
module ReimportTables {
  import opened Text
  import opened Tables
  import opened CsvSheet
  import opened ImportEav
  import opened EavDeterminism
  import opened ImportFlush
  import opened ImportService
  import opened Whole = ImportProducts
  import opened Reimport
  import Stock = ImportStock
  import Price = ImportPrice
  import Gallery = ImportGallery

  /** A sheet and how two imports of it resolved its SKUs, starting from the product table `products`. */
  datatype Twice = Twice(products: seq<ProductRow>, enterprise: bool, colIndex: map<string, nat>, rows: seq<CsvRow>,
                         p: Parsers, one: Resolution, two: Resolution) {
    ghost predicate Valid() {
      ResolvedTwice(products, enterprise, colIndex, rows, p, one, two)
    }

    function Sheet1(): Sheet {
      Sheet(colIndex, one.SkuToID(enterprise))
    }

    function Sheet2(): Sheet {
      Sheet(colIndex, two.SkuToID(enterprise))
    }

    /** The second lookup asks for the SKU of the row: some row of the sheet spells it exactly. */
    predicate Asks(row: CsvRow) {
      SkuAt(colIndex, row) in Asked(colIndex, rows)
    }

    /** The link ID belongs to a product that was there before the second import. */
    ghost predicate Before(link: nat) {
      exists j :: 0 <= j < |products + one.added| && link == LinkOf((products + one.added)[j], enterprise)
    }
  }

  /**
   A row is linked in both imports or in none; to a product of the second import exactly if its SKU is not asked for.
   */
  lemma Links2(x: Twice, i: nat)
    requires x.Valid() && i < |x.rows|
    ensures var l1, l2 := x.Sheet1().Link(x.rows[i]), x.Sheet2().Link(x.rows[i]);
            && (l1.Some? <==> SkuAt(x.colIndex, x.rows[i]) != "") && (l2.Some? <==> l1.Some?)
            && (l1.Some? ==>
                  && x.Before(l1.value)
                  && (l1 == l2 <==> x.Asks(x.rows[i]))
                  && (!x.Asks(x.rows[i]) ==> !x.Before(l2.value)))
  {
    hide NewProducts, Links, Assign, RawSkus, LastFor, TrimSpace, Answers;
    var s := SkuAt(x.colIndex, x.rows[i]);
    if s != "" {
      SameLinkIff(x.products, x.enterprise, x.colIndex, x.rows, x.p, x.one, x.two, i);
      var j := MappedBefore(x.products, x.enterprise, x.colIndex, x.rows, x.p, x.one, s);
      if !x.Asks(x.rows[i]) {
        var at := EveryRowResolves(Sheet(x.colIndex, x.two.lookup), x.rows, x.two.attrSet, x.p, x.two.added,
                                   x.enterprise, i);
        NotBefore(x, at);
      }
    }
  }

  lemma NotBefore(x: Twice, at: nat)
    requires x.Valid() && at < |x.two.added|
    ensures !x.Before(LinkOf(x.two.added[at], x.enterprise))
  {
    hide Resolved;
    var before := x.products + x.one.added;
    assert (before + x.two.added)[|before| + at] == x.two.added[at];
    assert forall j :: 0 <= j < |before| ==> before[j] == (before + x.two.added)[j];
  }

  lemma MappedIsBefore(x: Twice, id: nat)
    requires x.Valid() && !x.Before(id)
    ensures id !in x.Sheet1().skuToID.Values
  {
    hide Resolution.SkuToID, Resolved;
    forall s | s in x.Sheet1().skuToID
      ensures x.Sheet1().skuToID[s] != id
    {
      var j := MappedBefore(x.products, x.enterprise, x.colIndex, x.rows, x.p, x.one, s);
    }
  }

  /** The sheet read as if the SKU of this row were known. */
  function Known(colIndex: map<string, nat>, row: CsvRow): Sheet {
    Sheet(colIndex, map[SkuAt(colIndex, row) := 0])
  }

  lemma SameCells(a: Sheet, b: Sheet, row: CsvRow)
    requires a.colIndex == b.colIndex
    ensures forall col: string :: a.Cell(row, col) == b.Cell(row, col)
    ensures a.Sku(row) == b.Sku(row)
  {
    hide TrimSpace;
  }

  lemma KnownLinks(x: Twice, i: nat)
    requires x.Valid() && i < |x.rows|
    ensures Known(x.colIndex, x.rows[i]).Link(x.rows[i]).Some? <==> x.Sheet1().Link(x.rows[i]).Some?
  {
    Links2(x, i);
    hide TrimSpace, Assign, Links, RawSkus, Twice.Valid, Twice.Before;
  }

  // ----- stock -----

  /** The row has usable stock values, whatever product its SKU leads to. */
  predicate HasStock(x: Twice, row: CsvRow) {
    Stock.StockOf(Known(x.colIndex, row), row, x.p).Item?
  }

  /** The SKU map decides the key of the item, and nothing else of it. */
  lemma StockOfLink(a: Sheet, b: Sheet, row: CsvRow, p: Parsers)
    requires a.colIndex == b.colIndex && (a.Link(row).Some? <==> b.Link(row).Some?)
    ensures var r1, r2 := Stock.StockOf(a, row, p), Stock.StockOf(b, row, p);
            && (r1.Item? <==> r2.Item?)
            && (r1.Item? ==> r1.item.cols == r2.item.cols && a.Link(row).Some?)
            && (r1.Item? ==> r1.item.key == Stock.StockKey(a.Link(row).value, 1))
            && (r1.Item? ==> r2.item.key == Stock.StockKey(b.Link(row).value, 1))
  {
    SameCells(a, b, row);
    hide Sheet.Cell, Sheet.Link;
  }

  lemma StockOfRow(x: Twice, i: nat)
    requires x.Valid() && i < |x.rows|
    ensures var r1, r2 := Stock.StockOf(x.Sheet1(), x.rows[i], x.p), Stock.StockOf(x.Sheet2(), x.rows[i], x.p);
            && (r1.Item? <==> HasStock(x, x.rows[i])) && (r2.Item? <==> HasStock(x, x.rows[i]))
            && (r1.Item? && x.Asks(x.rows[i]) ==> r1 == r2)
            && (r2.Item? && !x.Asks(x.rows[i]) ==> !x.Before(r2.item.key.product))
  {
    hide Stock.StockOf, Sheet.Link, Twice.Valid, Twice.Before, Twice.Asks;
    Links2(x, i);
    KnownLinks(x, i);
    StockOfLink(x.Sheet1(), x.Sheet2(), x.rows[i], x.p);
    StockOfLink(x.Sheet1(), Known(x.colIndex, x.rows[i]), x.rows[i], x.p);
  }

  lemma {:induction false} SameStockRows(x: Twice, n: nat)
    requires x.Valid() && n <= |x.rows|
    requires forall i :: 0 <= i < n && HasStock(x, x.rows[i]) ==> x.Asks(x.rows[i])
    ensures Stock.StockRows(x.Sheet1(), x.rows[..n], x.p) == Stock.StockRows(x.Sheet2(), x.rows[..n], x.p)
  {
    hide Stock.StockOf, Twice.Valid, Twice.Asks, Twice.Sheet1, Twice.Sheet2, HasStock;
    if n > 0 {
      SameStockRows(x, n - 1);
      StockOfRow(x, n - 1);
      assert x.rows[..n][..n - 1] == x.rows[..n - 1];
    }
  }

  lemma {:induction false} StockListed(sheet: Sheet, rows: seq<CsvRow>, p: Parsers, i: nat)
    requires i < |rows| && Stock.StockOf(sheet, rows[i], p).Item?
    ensures Stock.LastStock(sheet, rows, p, Stock.StockOf(sheet, rows[i], p).item.key.product).Some?
    decreases |rows|
  {
    hide Stock.StockOf;
    if i < |rows| - 1 {
      StockListed(sheet, rows[..|rows| - 1], p, i);
    }
  }

  lemma {:induction false} StockOnlyOfMapped(sheet: Sheet, rows: seq<CsvRow>, p: Parsers, product: nat)
    requires product !in sheet.skuToID.Values
    ensures Stock.LastStock(sheet, rows, p, product).None?
    decreases |rows|
  {
    hide Sheet.Sku, Sheet.Cell;
    if rows != [] {
      StockOnlyOfMapped(sheet, rows[..|rows| - 1], p, product);
    }
  }

  /**
   After a first flush that a repetition would make good, the second import leaves the stock table of one import if and
   only if every row with usable stock values names a SKU that is asked for.
   */
  lemma StockConvergesIff<R>(x: Twice, t: Table<Stock.StockKey, Stock.StockCols, R>,
                             stopped: Table<Stock.StockKey, Stock.StockCols, R>, dflt: R)
    requires x.Valid() && forall k :: k in t ==> x.Before(k.product)
    requires var r1 := Stock.StockRows(x.Sheet1(), x.rows, x.p); UpsertAll(stopped, r1, dflt) == UpsertAll(t, r1, dflt)
    ensures UpsertAll(stopped, Stock.StockRows(x.Sheet2(), x.rows, x.p), dflt) ==
            UpsertAll(t, Stock.StockRows(x.Sheet1(), x.rows, x.p), dflt) <==>
            forall i :: 0 <= i < |x.rows| && HasStock(x, x.rows[i]) ==> x.Asks(x.rows[i])
  {
    hide UpsertAll, LastFor, Stock.StockRows, Stock.LastStock, Stock.StockOf, Twice.Valid, Twice.Asks, Twice.Before,
         Twice.Sheet1, Twice.Sheet2, HasStock;
    var r1, r2 := Stock.StockRows(x.Sheet1(), x.rows, x.p), Stock.StockRows(x.Sheet2(), x.rows, x.p);
    assert x.rows[..|x.rows|] == x.rows;
    if forall i :: 0 <= i < |x.rows| && HasStock(x, x.rows[i]) ==> x.Asks(x.rows[i]) {
      SameStockRows(x, |x.rows|);
    } else {
      var i :| 0 <= i < |x.rows| && HasStock(x, x.rows[i]) && !x.Asks(x.rows[i]);
      StockOfRow(x, i);
      var k := Stock.StockKey(Stock.StockOf(x.Sheet2(), x.rows[i], x.p).item.key.product, 1);
      MappedIsBefore(x, k.product);
      StockListed(x.Sheet2(), x.rows, x.p, i);
      StockOnlyOfMapped(x.Sheet1(), x.rows, x.p, k.product);
      Stock.StockRowsDecide(x.Sheet1(), x.rows, x.p, k);
      Stock.StockRowsDecide(x.Sheet2(), x.rows, x.p, k);
      ForeignKeyTells(t, stopped, r1, r2, dflt, k);
    }
  }

  // ----- price -----

  /** The row has a usable price, whatever product its SKU leads to. */
  predicate HasPrice(x: Twice, row: CsvRow) {
    Price.PriceOf(Known(x.colIndex, row), row, x.p).Item?
  }

  /** The SKU map decides the key of the item, and nothing else of it. */
  lemma PriceOfLink(a: Sheet, b: Sheet, row: CsvRow, p: Parsers)
    requires a.colIndex == b.colIndex && (a.Link(row).Some? <==> b.Link(row).Some?)
    ensures var r1, r2 := Price.PriceOf(a, row, p), Price.PriceOf(b, row, p);
            && (r1.Item? <==> r2.Item?)
            && (r1.Item? ==> r1.item.cols == r2.item.cols && a.Link(row).Some?)
            && (r1.Item? ==> r1.item.key == Price.PriceKey(a.Link(row).value, 0, 1))
            && (r1.Item? ==> r2.item.key == Price.PriceKey(b.Link(row).value, 0, 1))
  {
    SameCells(a, b, row);
    hide Sheet.Cell, Sheet.Link;
  }

  lemma PriceOfRow(x: Twice, i: nat)
    requires x.Valid() && i < |x.rows|
    ensures var r1, r2 := Price.PriceOf(x.Sheet1(), x.rows[i], x.p), Price.PriceOf(x.Sheet2(), x.rows[i], x.p);
            && (r1.Item? <==> HasPrice(x, x.rows[i])) && (r2.Item? <==> HasPrice(x, x.rows[i]))
            && (r1.Item? && x.Asks(x.rows[i]) ==> r1 == r2)
            && (r2.Item? && !x.Asks(x.rows[i]) ==> !x.Before(r2.item.key.entity))
  {
    hide Price.PriceOf, Sheet.Link, Twice.Valid, Twice.Before, Twice.Asks;
    Links2(x, i);
    KnownLinks(x, i);
    PriceOfLink(x.Sheet1(), x.Sheet2(), x.rows[i], x.p);
    PriceOfLink(x.Sheet1(), Known(x.colIndex, x.rows[i]), x.rows[i], x.p);
  }

  lemma {:induction false} SamePriceRows(x: Twice, n: nat)
    requires x.Valid() && n <= |x.rows|
    requires forall i :: 0 <= i < n && HasPrice(x, x.rows[i]) ==> x.Asks(x.rows[i])
    ensures Price.PriceRows(x.Sheet1(), x.rows[..n], x.p) == Price.PriceRows(x.Sheet2(), x.rows[..n], x.p)
  {
    hide Price.PriceOf, Twice.Valid, Twice.Asks, Twice.Sheet1, Twice.Sheet2, HasPrice;
    if n > 0 {
      SamePriceRows(x, n - 1);
      PriceOfRow(x, n - 1);
      assert x.rows[..n][..n - 1] == x.rows[..n - 1];
    }
  }

  lemma {:induction false} PriceListed(sheet: Sheet, rows: seq<CsvRow>, p: Parsers, i: nat)
    requires i < |rows| && Price.PriceOf(sheet, rows[i], p).Item?
    ensures Price.LastPrice(sheet, rows, p, Price.PriceOf(sheet, rows[i], p).item.key.entity).Some?
    decreases |rows|
  {
    hide Price.PriceOf;
    if i < |rows| - 1 {
      PriceListed(sheet, rows[..|rows| - 1], p, i);
    }
  }

  lemma {:induction false} PriceOnlyOfMapped(sheet: Sheet, rows: seq<CsvRow>, p: Parsers, entity: nat)
    requires entity !in sheet.skuToID.Values
    ensures Price.LastPrice(sheet, rows, p, entity).None?
    decreases |rows|
  {
    hide Sheet.Sku, Sheet.Cell;
    if rows != [] {
      PriceOnlyOfMapped(sheet, rows[..|rows| - 1], p, entity);
    }
  }

  /**
   After a first flush that a repetition would make good, the second import leaves the price table of one import if and
   only if every row with a usable price names a SKU that is asked for.
   */
  lemma PriceConvergesIff<R>(x: Twice, t: Table<Price.PriceKey, Price.PriceCols, R>,
                             stopped: Table<Price.PriceKey, Price.PriceCols, R>, dflt: R)
    requires x.Valid() && forall k :: k in t ==> x.Before(k.entity)
    requires var r1 := Price.PriceRows(x.Sheet1(), x.rows, x.p); UpsertAll(stopped, r1, dflt) == UpsertAll(t, r1, dflt)
    ensures UpsertAll(stopped, Price.PriceRows(x.Sheet2(), x.rows, x.p), dflt) ==
            UpsertAll(t, Price.PriceRows(x.Sheet1(), x.rows, x.p), dflt) <==>
            forall i :: 0 <= i < |x.rows| && HasPrice(x, x.rows[i]) ==> x.Asks(x.rows[i])
  {
    hide UpsertAll, LastFor, Price.PriceRows, Price.LastPrice, Price.PriceOf, Twice.Valid, Twice.Asks, Twice.Before,
         Twice.Sheet1, Twice.Sheet2, HasPrice;
    var r1, r2 := Price.PriceRows(x.Sheet1(), x.rows, x.p), Price.PriceRows(x.Sheet2(), x.rows, x.p);
    assert x.rows[..|x.rows|] == x.rows;
    if forall i :: 0 <= i < |x.rows| && HasPrice(x, x.rows[i]) ==> x.Asks(x.rows[i]) {
      SamePriceRows(x, |x.rows|);
    } else {
      var i :| 0 <= i < |x.rows| && HasPrice(x, x.rows[i]) && !x.Asks(x.rows[i]);
      PriceOfRow(x, i);
      var k := Price.PriceKey(Price.PriceOf(x.Sheet2(), x.rows[i], x.p).item.key.entity, 0, 1);
      MappedIsBefore(x, k.entity);
      PriceListed(x.Sheet2(), x.rows, x.p, i);
      PriceOnlyOfMapped(x.Sheet1(), x.rows, x.p, k.entity);
      Price.PriceRowsDecide(x.Sheet1(), x.rows, x.p, k);
      Price.PriceRowsDecide(x.Sheet2(), x.rows, x.p, k);
      ForeignKeyTells(t, stopped, r1, r2, dflt, k);
    }
  }

  // ----- EAV values -----

  type EavTable = EavDeterminism.EavTable<Value>

  /** The two imports collect EAV values alike but for the SKU maps. */
  ghost predicate Contexts(x: Twice, c1: EavContext, c2: EavContext) {
    c1.sheet == x.Sheet1() && c2 == c1.(sheet := x.Sheet2())
  }

  /** The row has a valid non-blank cell for table `bt`, whatever product its SKU leads to. */
  ghost predicate HasCell(x: Twice, c: EavContext, row: CsvRow, bt: BackendType) {
    exists col: string :: Contributes(c.(sheet := Known(x.colIndex, row)), row, bt, col)
  }

  /** The SKU map decides the link of the collected cell, and nothing else of it. */
  lemma CellOfLink(c: EavContext, a: Sheet, b: Sheet, row: CsvRow, bt: BackendType, col: string)
    requires a.colIndex == b.colIndex && (a.Link(row).Some? <==> b.Link(row).Some?)
    ensures var ca, cb := c.(sheet := a), c.(sheet := b);
            && (Contributes(ca, row, bt, col) <==> Contributes(cb, row, bt, col))
            && (Contributes(ca, row, bt, col) ==>
                  && a.Link(row).Some? && RowFor(ca, row, col).key.link == a.Link(row).value
                  && (a.Link(row) == b.Link(row) ==> RowFor(ca, row, col) == RowFor(cb, row, col)))
  {
    SameCells(a, b, row);
    hide Sheet.Cell, Sheet.Link, Parse;
  }

  lemma {:induction false} SameRowCells(c: EavContext, a: Sheet, b: Sheet, row: CsvRow, order: seq<string>,
                                        bt: BackendType)
    requires a.colIndex == b.colIndex && (a.Link(row).Some? <==> b.Link(row).Some?)
    requires a.Link(row) == b.Link(row) || forall col: string :: !Contributes(c.(sheet := a), row, bt, col)
    ensures RowCells(c.(sheet := a), row, order, bt) == RowCells(c.(sheet := b), row, order, bt)
    decreases |order|
  {
    hide Sheet.Link, Contributes, RowFor;
    if order != [] {
      var n := |order| - 1;
      SameRowCells(c, a, b, row, order[..n], bt);
      CellOfLink(c, a, b, row, bt, order[n]);
    }
  }

  lemma CellsOfRow(x: Twice, c1: EavContext, c2: EavContext, i: nat, order: seq<string>, bt: BackendType)
    requires x.Valid() && Contexts(x, c1, c2) && i < |x.rows|
    requires HasCell(x, c1, x.rows[i], bt) ==> x.Asks(x.rows[i])
    ensures RowCells(c1, x.rows[i], order, bt) == RowCells(c2, x.rows[i], order, bt)
  {
    hide Sheet.Link, Twice.Valid, Twice.Before, Twice.Asks, Contributes, RowCells;
    var row := x.rows[i];
    Links2(x, i);
    KnownLinks(x, i);
    assert c1 == c1.(sheet := x.Sheet1());
    if !HasCell(x, c1, row, bt) {
      forall col: string
        ensures !Contributes(c1, row, bt, col)
      {
        CellOfLink(c1, x.Sheet1(), Known(x.colIndex, row), row, bt, col);
      }
    }
    SameRowCells(c1, x.Sheet1(), x.Sheet2(), row, order, bt);
  }

  lemma {:induction false} SameBucket(x: Twice, c1: EavContext, c2: EavContext, n: nat, orders: seq<seq<string>>,
                                      bt: BackendType)
    requires x.Valid() && Contexts(x, c1, c2) && n <= |x.rows| == |orders|
    requires forall i :: 0 <= i < n && HasCell(x, c1, x.rows[i], bt) ==> x.Asks(x.rows[i])
    ensures Bucket(c1, x.rows[..n], orders[..n], bt) == Bucket(c2, x.rows[..n], orders[..n], bt)
  {
    hide HasCell, Contexts, Twice.Valid, Twice.Asks, RowCells;
    if n > 0 {
      SameBucket(x, c1, c2, n - 1, orders, bt);
      CellsOfRow(x, c1, c2, n - 1, orders[n - 1], bt);
      assert x.rows[..n][..n - 1] == x.rows[..n - 1] && orders[..n][..n - 1] == orders[..n - 1];
    }
  }

  /** Both imports link the same rows, so they need column orders for the same rows. */
  lemma SameOrders(x: Twice, c1: EavContext, c2: EavContext, orders: seq<seq<string>>)
    requires x.Valid() && Contexts(x, c1, c2) && ValidOrders(c2, x.rows, orders)
    ensures ValidOrders(c1, x.rows, orders)
  {
    hide IsOrderOf, Sheet.Link, Twice.Valid, Twice.Asks, Twice.Before;
    forall i | 0 <= i < |x.rows| && c1.sheet.Link(x.rows[i]).Some?
      ensures IsOrderOf(orders[i], c1.mappings.Keys)
    {
      Links2(x, i);
    }
  }

  lemma {:induction false} CellListed(c: EavContext, rows: seq<CsvRow>, bt: BackendType, k: EavKey, i: nat, col: string)
    requires i < |rows| && Writes(c, rows[i], bt, k, col)
    ensures LastCell(c, rows, bt, k).Some?
    decreases |rows|
  {
    hide Writes;
    if i < |rows| - 1 {
      CellListed(c, rows[..|rows| - 1], bt, k, i, col);
    }
  }

  lemma {:induction false} CellOnlyOfMapped(c: EavContext, rows: seq<CsvRow>, bt: BackendType, k: EavKey)
    requires k.link !in c.sheet.skuToID.Values
    ensures LastCell(c, rows, bt, k).None?
    decreases |rows|
  {
    hide Sheet.Sku, Sheet.Cell, Parse;
    if rows != [] {
      CellOnlyOfMapped(c, rows[..|rows| - 1], bt, k);
    }
  }

  /** A cell of a row whose SKU is not asked for is written under a key that only the second import has. */
  lemma ForeignCell(x: Twice, c1: EavContext, c2: EavContext, i: nat, bt: BackendType) returns (k: EavKey)
    requires x.Valid() && Contexts(x, c1, c2) && i < |x.rows|
    requires HasCell(x, c1, x.rows[i], bt) && !x.Asks(x.rows[i])
    ensures !x.Before(k.link) && LastCell(c1, x.rows, bt, k).None? && LastCell(c2, x.rows, bt, k).Some?
  {
    hide Sheet.Link, Twice.Valid, Twice.Before, Twice.Asks, Contributes, LastCell, RowFor;
    var row := x.rows[i];
    Links2(x, i);
    KnownLinks(x, i);
    var col: string :| Contributes(c1.(sheet := Known(x.colIndex, row)), row, bt, col);
    CellOfLink(c1, x.Sheet2(), Known(x.colIndex, row), row, bt, col);
    assert c2 == c1.(sheet := x.Sheet2());
    NonBlankCell(c2, row, bt, col);
    k := RowFor(c2, row, col).key;
    CellListed(c2, x.rows, bt, k, i, col);
    MappedIsBefore(x, k.link);
    CellOnlyOfMapped(c1, x.rows, bt, k);
  }

  lemma NonBlankCell(c: EavContext, row: CsvRow, bt: BackendType, col: string)
    requires Contributes(c, row, bt, col)
    ensures NonBlank(c, row, col)
  {
  }

  /** The values that an import sends to EAV table `bt`. */
  function EavRows(c: EavContext, rows: seq<CsvRow>, orders: seq<seq<string>>, useRaw: bool, bt: BackendType)
    : seq<Row<EavKey, Value>>
    requires |rows| == |orders|
  {
    ValueRows(c.p, bt, useRaw, Bucket(c, rows, orders, bt))
  }

  lemma EavLast(c: EavContext, rows: seq<CsvRow>, orders: seq<seq<string>>, useRaw: bool, bt: BackendType, k: EavKey)
    requires DistinctAttributes(c.mappings) && ValidOrders(c, rows, orders)
    ensures LastFor(EavRows(c, rows, orders, useRaw, bt), k).Some? <==> LastCell(c, rows, bt, k).Some?
  {
    hide Bucket, Convert, LastFor, ValueRows, IsOrderOf, DistinctAttributes, LastCell;
    BucketDecides(c, rows, orders, bt, k);
    ValueRowsLast(c.p, bt, useRaw, Bucket(c, rows, orders, bt), k);
  }

  lemma SameEavTable(c: EavContext, rows: seq<CsvRow>, o1: seq<seq<string>>, o2: seq<seq<string>>, useRaw: bool,
                     bt: BackendType, t: EavTable)
    requires DistinctAttributes(c.mappings) && ValidOrders(c, rows, o1) && ValidOrders(c, rows, o2)
    ensures UpsertAll(t, EavRows(c, rows, o1, useRaw, bt), ()) == UpsertAll(t, EavRows(c, rows, o2, useRaw, bt), ())
  {
    hide Bucket, ValueRows, IsOrderOf, DistinctAttributes, LastFor, UpsertAll;
    forall k
      ensures LastFor(EavRows(c, rows, o1, useRaw, bt), k) == LastFor(EavRows(c, rows, o2, useRaw, bt), k)
    {
      SameLastRows(c, rows, o1, o2, useRaw, bt, k);
    }
    SameLastSameTable(t, EavRows(c, rows, o1, useRaw, bt), EavRows(c, rows, o2, useRaw, bt), ());
  }

  /** The same for one EAV table, whatever the column orders of the two imports were. */
  lemma EavConvergesIff(x: Twice, c1: EavContext, c2: EavContext, o1: seq<seq<string>>, o2: seq<seq<string>>,
                        useRaw: bool, bt: BackendType, t: EavTable, stopped: EavTable)
    requires x.Valid() && Contexts(x, c1, c2) && DistinctAttributes(c1.mappings)
    requires ValidOrders(c1, x.rows, o1) && ValidOrders(c2, x.rows, o2) && forall k :: k in t ==> x.Before(k.link)
    requires var r1 := EavRows(c1, x.rows, o1, useRaw, bt); UpsertAll(stopped, r1, ()) == UpsertAll(t, r1, ())
    ensures UpsertAll(stopped, EavRows(c2, x.rows, o2, useRaw, bt), ()) ==
            UpsertAll(t, EavRows(c1, x.rows, o1, useRaw, bt), ()) <==>
            forall i :: 0 <= i < |x.rows| && HasCell(x, c1, x.rows[i], bt) ==> x.Asks(x.rows[i])
  {
    hide UpsertAll, LastFor, Bucket, ValueRows, IsOrderOf, DistinctAttributes, LastCell, HasCell, Twice.Valid,
         Twice.Asks, Twice.Before;
    SameOrders(x, c1, c2, o2);
    assert x.rows[..|x.rows|] == x.rows && o2[..|x.rows|] == o2;
    if forall i :: 0 <= i < |x.rows| && HasCell(x, c1, x.rows[i], bt) ==> x.Asks(x.rows[i]) {
      SameBucket(x, c1, c2, |x.rows|, o2, bt);
      SameEavTable(c1, x.rows, o1, o2, useRaw, bt, stopped);
    } else {
      var i :| 0 <= i < |x.rows| && HasCell(x, c1, x.rows[i], bt) && !x.Asks(x.rows[i]);
      var k := ForeignCell(x, c1, c2, i, bt);
      EavLast(c1, x.rows, o1, useRaw, bt, k);
      EavLast(c2, x.rows, o2, useRaw, bt, k);
      ForeignKeyTells(t, stopped, EavRows(c1, x.rows, o1, useRaw, bt), EavRows(c2, x.rows, o2, useRaw, bt), (), k);
    }
  }

  // ----- gallery -----

  lemma {:induction false} SameOccurrences(x: Twice, n: nat)
    requires x.Valid() && n <= |x.rows|
    ensures Gallery.Occurrences(x.Sheet1(), x.rows[..n]) == Gallery.Occurrences(x.Sheet2(), x.rows[..n])
  {
    hide Sheet.Link, Twice.Valid, Twice.Asks, Twice.Before, Gallery.ColumnOccurrences;
    if n > 0 {
      SameOccurrences(x, n - 1);
      Links2(x, n - 1);
      SameColumns(x.Sheet1(), x.Sheet2(), x.rows[n - 1], Gallery.IMAGE_COLUMNS);
      assert x.rows[..n][..n - 1] == x.rows[..n - 1];
    }
  }

  lemma {:induction false} SameColumns(a: Sheet, b: Sheet, row: CsvRow, cols: seq<string>)
    requires a.colIndex == b.colIndex
    ensures Gallery.ColumnOccurrences(a, row, cols) == Gallery.ColumnOccurrences(b, row, cols)
    decreases |cols|
  {
    SameCells(a, b, row);
    hide Sheet.Cell, Sheet.Sku;
    if cols != [] {
      SameColumns(a, b, row, cols[..|cols| - 1]);
    }
  }

  // ----- two whole imports -----

  /** The rows of the database belong to products that were there before the second import. */
  ghost predicate OwnRows<S, P>(x: Twice, db: Db<Value, S, P>)
    requires ValidDb(db)
  {
    && (forall bt, k | bt in EAV_TYPES && k in db.eav[bt] :: x.Before(k.link))
    && (forall k | k in db.stock :: x.Before(k.product))
    && (forall k | k in db.price :: x.Before(k.entity))
  }

  /** What a flush, stopped or failing anywhere, leaves is made good by writing all of its rows. */
  lemma StoppedIsRecoverable<S, P>(db: Db<Value, S, P>, work: Work<Value>, mode: FlushMode, run: seq<Event>,
                                   u: Unlisted<S, P>)
    requires ValidDb(db) && ValidWork(work) && Legal(Start(db, work, mode), run, u)
    ensures Recoverable(db, Run(Start(db, work, mode), run, u).db, work, u)
  {
    hide Start, Run, Legal, Recoverable, CoveredTodo;
    CoversItself(work);
    StartRecoverable(db, work, mode, work, u);
    RunRecovers(db, Start(db, work, mode), run, work, u);
  }

  lemma CoversItself(work: Work<Value>)
    requires ValidWork(work)
    ensures Covered(work, work)
  {
  }

  /** Every row that has something for the tables names a SKU that the second lookup asks for. */
  ghost predicate CellsAsked(x: Twice, c: EavContext) {
    forall bt, i | bt in EAV_TYPES && 0 <= i < |x.rows| && HasCell(x, c, x.rows[i], bt) :: x.Asks(x.rows[i])
  }

  predicate StockAsked(x: Twice) {
    forall i | 0 <= i < |x.rows| && HasStock(x, x.rows[i]) :: x.Asks(x.rows[i])
  }

  predicate PriceAsked(x: Twice) {
    forall i | 0 <= i < |x.rows| && HasPrice(x, x.rows[i]) :: x.Asks(x.rows[i])
  }

  lemma EavTablesIff<S, P>(x: Twice, c1: EavContext, c2: EavContext, o1: seq<seq<string>>, o2: seq<seq<string>>,
                           useRaw: bool, db: Db<Value, S, P>, stopped: Db<Value, S, P>, u: Unlisted<S, P>)
    requires x.Valid() && Contexts(x, c1, c2) && DistinctAttributes(c1.mappings)
    requires ValidDb(db) && ValidDb(stopped) && OwnRows(x, db)
    requires ValidOrders(c1, x.rows, o1) && ValidOrders(c2, x.rows, o2)
    requires Recoverable(db, stopped, WorkOf(c1, x.rows, o1, useRaw), u)
    ensures var twice := Sequential(stopped, WorkOf(c2, x.rows, o2, useRaw), u);
            var once := Sequential(db, WorkOf(c1, x.rows, o1, useRaw), u);
            twice.eav == once.eav <==> CellsAsked(x, c1)
  {
    hide EAV_TYPES, UpsertAll, Bucket, ValueRows, IsOrderOf, Twice.Valid, Twice.Asks, Twice.Before, HasCell, Contexts,
         Stock.StockRows, Price.PriceRows, DistinctAttributes;
    var a := Sequential(stopped, WorkOf(c2, x.rows, o2, useRaw), u).eav;
    var b := Sequential(db, WorkOf(c1, x.rows, o1, useRaw), u).eav;
    forall bt | bt in EAV_TYPES
      ensures a[bt] == b[bt] <==> forall i | 0 <= i < |x.rows| && HasCell(x, c1, x.rows[i], bt) :: x.Asks(x.rows[i])
    {
      EavConvergesIff(x, c1, c2, o1, o2, useRaw, bt, db.eav[bt], stopped.eav[bt]);
    }
    assert a == b <==> forall bt | bt in EAV_TYPES :: a[bt] == b[bt];
  }

  lemma OtherTablesIff<S, P>(x: Twice, c1: EavContext, c2: EavContext, o1: seq<seq<string>>, o2: seq<seq<string>>,
                             useRaw: bool, db: Db<Value, S, P>, stopped: Db<Value, S, P>, u: Unlisted<S, P>)
    requires x.Valid() && Contexts(x, c1, c2) && c1.p == x.p && |o1| == |x.rows| == |o2|
    requires ValidDb(db) && ValidDb(stopped) && OwnRows(x, db)
    requires Recoverable(db, stopped, WorkOf(c1, x.rows, o1, useRaw), u)
    ensures var twice := Sequential(stopped, WorkOf(c2, x.rows, o2, useRaw), u);
            var once := Sequential(db, WorkOf(c1, x.rows, o1, useRaw), u);
            && (twice.stock == once.stock <==> StockAsked(x))
            && (twice.price == once.price <==> PriceAsked(x))
            && (twice.gallery == once.gallery <==> stopped.gallery == db.gallery)
  {
    hide EAV_TYPES, UpsertAll, Bucket, ValueRows, Twice.Valid, Twice.Asks, Twice.Before, HasStock, HasPrice,
         Stock.StockRows, Price.PriceRows, Gallery.FirstSeen, Gallery.Occurrences;
    StockConvergesIff(x, db.stock, stopped.stock, u.stock);
    PriceConvergesIff(x, db.price, stopped.price, u.price);
    assert x.rows[..|x.rows|] == x.rows;
    SameOccurrences(x, |x.rows|);
    SameSuffix(db.gallery, stopped.gallery, WorkOf(c1, x.rows, o1, useRaw).gallery);
  }

  lemma SameSuffix<T>(a: seq<T>, b: seq<T>, tail: seq<T>)
    requires a <= b
    ensures b + tail == a + tail <==> b == a
  {
    assert |b + tail| == |b| + |tail| && |a + tail| == |a| + |tail|;
  }

  /**
   Lookup, insert and flush of a sheet, the flush stopped or failing anywhere, and then all of it again on what that
   left, to the end. The EAV tables are those of one import if and only if every row with a valid non-blank cell names
   a SKU that is spelled exactly by some row; the stock table if and only if every row with usable stock values does;
   the price table if and only if every row with a usable price does; and the gallery if and only if the first flush
   had added nothing to it.
   */
  lemma ReimportConverges<S, P>(x: Twice, c1: EavContext, c2: EavContext, useRaw: bool, db: Db<Value, S, P>,
                                u: Unlisted<S, P>, o1: seq<seq<string>>, mode1: FlushMode, run1: seq<Event>,
                                o2: seq<seq<string>>, mode2: FlushMode, run2: seq<Event>, after: Db<Value, S, P>)
    requires x.Valid() && Contexts(x, c1, c2) && c1.p == x.p && DistinctAttributes(c1.mappings)
    requires ValidDb(db) && OwnRows(x, db) && ValidOrders(c1, x.rows, o1) && ValidOrders(c2, x.rows, o2)
    requires Legal(Start(db, WorkOf(c1, x.rows, o1, useRaw), mode1), run1, u)
    requires Flushed(Run(Start(db, WorkOf(c1, x.rows, o1, useRaw), mode1), run1, u).db,
                     WorkOf(c2, x.rows, o2, useRaw), mode2, run2, u, false, after)
    ensures var stopped := Run(Start(db, WorkOf(c1, x.rows, o1, useRaw), mode1), run1, u).db;
            var once := Sequential(db, WorkOf(c1, x.rows, o1, useRaw), u);
            && (after.eav == once.eav <==> CellsAsked(x, c1))
            && (after.stock == once.stock <==> StockAsked(x))
            && (after.price == once.price <==> PriceAsked(x))
            && (after.gallery == once.gallery <==> stopped.gallery == db.gallery)
  {
    hide Run, Start, Legal, Finished, Sequential, WorkOf, IsOrderOf, Twice.Valid, Contexts, OwnRows, Recoverable,
         CellsAsked, StockAsked, PriceAsked, DistinctAttributes;
    var stopped := Run(Start(db, WorkOf(c1, x.rows, o1, useRaw), mode1), run1, u).db;
    StoppedIsRecoverable(db, WorkOf(c1, x.rows, o1, useRaw), mode1, run1, u);
    EavTablesIff(x, c1, c2, o1, o2, useRaw, db, stopped, u);
    OtherTablesIff(x, c1, c2, o1, o2, useRaw, db, stopped, u);
  }

  lemma NamesSku(x: Twice, c: EavContext, row: CsvRow, bt: BackendType)
    requires HasCell(x, c, row, bt) || HasStock(x, row) || HasPrice(x, row)
    ensures SkuAt(x.colIndex, row) != ""
  {
    hide TrimSpace, Sheet.Cell, Parse;
  }

  /** If every SKU of the sheet is spelled exactly, no product is created twice and all upserted tables converge. */
  lemma SpelledExactlyConverges(x: Twice, c: EavContext)
    requires x.Valid() && SpelledExactly(x.colIndex, x.rows)
    ensures x.two.added == [] && CellsAsked(x, c) && StockAsked(x) && PriceAsked(x)
  {
    hide EAV_TYPES, HasCell, HasStock, HasPrice, SkuAt, Asked;
    CreatesNothingIff(x.products, x.enterprise, x.colIndex, x.rows, x.p, x.one, x.two);
    hide Twice.Valid;
    forall i, bt | bt in EAV_TYPES && 0 <= i < |x.rows| && HasCell(x, c, x.rows[i], bt)
      ensures x.Asks(x.rows[i])
    {
      NamesSku(x, c, x.rows[i], bt);
    }
    forall i | 0 <= i < |x.rows| && (HasStock(x, x.rows[i]) || HasPrice(x, x.rows[i]))
      ensures x.Asks(x.rows[i])
    {
      NamesSku(x, c, x.rows[i], VarcharType);
    }
  }

  lemma FlushedRun<S, P>(db: Db<Value, S, P>, work: Work<Value>, mode: FlushMode, run: seq<Event>, u: Unlisted<S, P>,
                         err: bool, after: Db<Value, S, P>)
    requires ValidDb(db) && ValidWork(work) && Flushed(db, work, mode, run, u, err, after)
    ensures Legal(Start(db, work, mode), run, u) && after == Run(Start(db, work, mode), run, u).db
  {
  }

  lemma SameLength(c: EavContext, rows: seq<CsvRow>, orders: seq<seq<string>>)
    requires ValidOrders(c, rows, orders)
    ensures |rows| == |orders|
  {
  }

  lemma ImportedTwice<S, P>(x: Twice, headers: seq<string>, attrs: seq<Attribute>, store: nat, useRaw: bool,
                            mode: FlushMode, db: Db<Value, S, P>, u: Unlisted<S, P>,
                            o1: seq<seq<string>>, run1: seq<Event>, err: bool, stopped: Db<Value, S, P>,
                            o2: seq<seq<string>>, run2: seq<Event>, after: Db<Value, S, P>)
    requires x.Valid() && x.colIndex == ColIndex(headers) && ValidDb(db) && ValidDb(stopped) && OwnRows(x, db)
    requires DistinctAttributes(Mappings(headers, AttrMap(attrs)))
    requires var c1 := ContextOf(headers, attrs, store, x.p, x.one.lookup, x.one.added, x.enterprise);
             ValidOrders(c1, x.rows, o1) && Flushed(db, WorkOf(c1, x.rows, o1, useRaw), mode, run1, u, err, stopped)
    requires var c2 := ContextOf(headers, attrs, store, x.p, x.two.lookup, x.two.added, x.enterprise);
             && ValidOrders(c2, x.rows, o2)
             && Flushed(stopped, WorkOf(c2, x.rows, o2, useRaw), mode, run2, u, false, after)
    ensures var c1 := ContextOf(headers, attrs, store, x.p, x.one.lookup, x.one.added, x.enterprise);
            var once := Sequential(db, WorkOf(c1, x.rows, o1, useRaw), u);
            && (after.eav == once.eav <==> CellsAsked(x, c1))
            && (after.stock == once.stock <==> StockAsked(x))
            && (after.price == once.price <==> PriceAsked(x))
  {
    hide Run, Start, Legal, Finished, Sequential, WorkOf, IsOrderOf, Twice.Valid, OwnRows, CellsAsked, StockAsked,
         PriceAsked, DistinctAttributes, Mappings, AttrMap, ColIndex, Links, Assign, Flushed, ValidOrders;
    var c1 := ContextOf(headers, attrs, store, x.p, x.one.lookup, x.one.added, x.enterprise);
    var c2 := ContextOf(headers, attrs, store, x.p, x.two.lookup, x.two.added, x.enterprise);
    assert Contexts(x, c1, c2);
    SameLength(c1, x.rows, o1);
    SameLength(c2, x.rows, o2);
    FlushedRun(db, WorkOf(c1, x.rows, o1, useRaw), mode, run1, u, err, stopped);
    ReimportConverges(x, c1, c2, useRaw, db, u, o1, mode, run1, o2, mode, run2, after);
  }

  /**
   Two calls of `ImportProducts`, the second on what the first left behind, whether its flush failed or not. If the
   second one succeeds, the upserted tables are those of one import exactly as `ReimportConverges` says.
   */
  method ImportTwice<S, P>(catalog: Catalog, db: Db<Value, S, P>, rawHeaders: seq<string>, rows: seq<CsvRow>,
                           attrs: seq<Attribute>, opts: ImportOptions, transactions: bool, p: Parsers,
                           u: Unlisted<S, P>, fails1: (Worker, nat) -> bool, fails2: (Worker, nat) -> bool)
    returns (outcome: Outcome, after: Db<Value, S, P>, ghost x: Twice, ghost orders: seq<seq<string>>)
    requires catalog.Valid() && ValidDb(db)
    requires forall i, j :: 0 <= i < j < |attrs| ==> attrs[i].id != attrs[j].id
    modifies catalog
    ensures outcome.Done? ==>
              var headers := TrimAll(rawHeaders);
              var c := ContextOf(headers, attrs, opts.store, p, x.one.lookup, x.one.added, catalog.enterprise);
              && x == Twice(old(catalog.products), catalog.enterprise, ColIndex(headers), rows, p, x.one, x.two)
              && x.Valid() && catalog.products == old(catalog.products) + x.one.added + x.two.added
              && (x.two.added == [] <==> SpelledExactly(ColIndex(headers), rows))
              && ValidOrders(c, rows, orders)
              && (OwnRows(x, db) ==>
                    var once := Sequential(db, WorkOf(c, rows, orders, opts.rawSQL || catalog.enterprise), u);
                    && (after.eav == once.eav <==> CellsAsked(x, c))
                    && (after.stock == once.stock <==> StockAsked(x))
                    && (after.price == once.price <==> PriceAsked(x)))
  {
    hide Catalog.Valid, Resolved, SpelledExactly, Mappings, AttrMap, ColIndex, TrimAll, Run, Legal, Start, Sequential,
         Finished, WorkOf, IsOrderOf, OwnRows, CellsAsked, StockAsked, PriceAsked, ContextOf, Flushed, ValidOrders;
    ghost var products := catalog.products;
    ghost var lookup1, added1, run1, lookup2, added2, orders2, run2;
    var stopped;
    outcome, stopped, lookup1, added1, orders, run1 :=
      ImportProducts(catalog, db, rawHeaders, rows, attrs, opts, transactions, p, u, fails1);
    ghost var run1Failed := outcome.FlushFailed?;
    outcome, after, lookup2, added2, orders2, run2 :=
      ImportProducts(catalog, stopped, rawHeaders, rows, attrs, opts, transactions, p, u, fails2);
    ghost var headers := TrimAll(rawHeaders);
    ghost var one, two := Resolution(AttrSet(opts), lookup1, added1), Resolution(AttrSet(opts), lookup2, added2);
    x := Twice(products, catalog.enterprise, ColIndex(headers), rows, p, one, two);
    if outcome.Done? {
      LinksDistinct(catalog);
      assert x.Valid();
      hide Twice.Valid;
      CreatesNothing(x);
      ghost var useRaw := opts.rawSQL || catalog.enterprise;
      if OwnRows(x, db) {
        PrimaryKeyGivesDistinctAttributes(attrs, headers);
        ImportedTwice(x, headers, attrs, opts.store, useRaw, ModeOf(opts, useRaw, transactions), db, u,
                      orders, run1, run1Failed, stopped, orders2, run2, after);
      }
    }
  }

  lemma CreatesNothing(x: Twice)
    requires x.Valid()
    ensures x.two.added == [] <==> SpelledExactly(x.colIndex, x.rows)
  {
    CreatesNothingIff(x.products, x.enterprise, x.colIndex, x.rows, x.p, x.one, x.two);
  }

  lemma LinksDistinct(catalog: Catalog)
    requires catalog.Valid()
    ensures DistinctLinks(catalog.products, catalog.enterprise)
  {
  }
}
