/**
 What a finished import leaves, said about the cells of the sheet: under which key a cell ends up, in which column, and
 which cells are reported instead. Headers, keys and defaults are written out here.
 */
module ImportedValues {
  import opened Text
  import opened Tables
  import opened CsvSheet
  import opened ImportEav
  import opened EavDeterminism
  import opened ImportFlush
  import opened ImportService
  import opened Whole = ImportProducts
  import Stock = ImportStock
  import Price = ImportPrice
  import Gallery = ImportGallery

  // ----- cells -----

  /** A cell is the text of its column without the white space around it, and empty if there is no such column. */
  lemma CellText(sheet: Sheet, row: CsvRow, col: string) returns (pre: string, post: string)
    ensures col !in sheet.colIndex || sheet.colIndex[col] >= |row| ==> sheet.Cell(row, col) == ""
    ensures col in sheet.colIndex && sheet.colIndex[col] < |row| ==>
              && row[sheet.colIndex[col]] == pre + sheet.Cell(row, col) + post
              && AllSpace(pre) && AllSpace(post) && Trimmed(sheet.Cell(row, col))
  {
    pre, post := "", "";
    if col in sheet.colIndex && sheet.colIndex[col] < |row| {
      pre, post := TrimSpaceTrims(row[sheet.colIndex[col]]);
    }
  }

  /** A row belongs to the product that the map has for the trimmed cell under `sku`; a blank SKU belongs to none. */
  lemma LinkText(sheet: Sheet, row: CsvRow, l: nat)
    requires "sku" in sheet.colIndex
    ensures sheet.Sku(row) == sheet.Cell(row, "sku")
    ensures sheet.Link(row) == Some(l) <==>
            sheet.Cell(row, "sku") != "" && sheet.Cell(row, "sku") in sheet.skuToID
            && sheet.skuToID[sheet.Cell(row, "sku")] == l
  {
    hide TrimSpace;
  }

  // ----- EAV values -----

  /** Which cells the five backend types accept, and what they make of them. */
  lemma ParseRules(p: Parsers, cell: string)
    ensures Parse(p, VarcharType, cell) == Some(StrValue(cell)) == Parse(p, TextType, cell)
    ensures Parse(p, IntType, cell).Some? <==> p.atoi(cell).Some?
    ensures p.atoi(cell).Some? ==> Parse(p, IntType, cell).value == IntValue(p.atoi(cell).value)
    ensures Parse(p, DecimalType, cell).Some? <==> p.parseFloat(cell).ok
    ensures p.parseFloat(cell).ok ==> Parse(p, DecimalType, cell).value == DecValue(p.parseFloat(cell).value)
    ensures Parse(p, DatetimeType, cell).Some? <==> p.parseDateTime(cell).Some? || p.parseDate(cell).Some?
    ensures p.parseDateTime(cell).Some? ==> Parse(p, DatetimeType, cell).value == TimeValue(p.parseDateTime(cell).value)
    ensures p.parseDateTime(cell).None? && p.parseDate(cell).Some? ==>
              Parse(p, DatetimeType, cell).value == TimeValue(p.parseDate(cell).value)
  {
  }

  /** A header is mapped to its attribute unless the attribute is static or stored in the product table itself. */
  lemma MappedColumns(headers: seq<string>, attrMap: map<string, AttrMeta>, h: string)
    ensures h in Mappings(headers, attrMap) <==>
            h in headers && h in attrMap && attrMap[h].backend != OtherType("static")
            && h != "sku" && h != "type_id" && h != "attribute_set_id"
    ensures h in Mappings(headers, attrMap) ==>
              Mappings(headers, attrMap)[h] == ColMapping(h, attrMap[h].id, attrMap[h].backend)
  {
  }

  /** The row has a valid non-blank cell for table `bt` under header `h`. */
  predicate ValidCell(c: EavContext, row: CsvRow, bt: BackendType, h: string) {
    c.sheet.Cell(row, h) != "" && Parse(c.p, bt, c.sheet.Cell(row, h)).Some?
  }

  lemma {:induction false} LastCellIs(c: EavContext, rows: seq<CsvRow>, bt: BackendType, i: nat, h: string, l: nat)
    requires DistinctAttributes(c.mappings) && i < |rows| && h in c.mappings && c.mappings[h].backend == bt
    requires c.sheet.Link(rows[i]) == Some(l) && ValidCell(c, rows[i], bt, h)
    requires forall j :: i < j < |rows| && c.sheet.Link(rows[j]) == Some(l) ==> !ValidCell(c, rows[j], bt, h)
    ensures LastCell(c, rows, bt, EavKey(l, c.mappings[h].attrID, c.store)) == Some(c.sheet.Cell(rows[i], h))
    decreases |rows|
  {
    hide Parse, Sheet.Cell, Sheet.Link;
    var n := |rows| - 1;
    var k := EavKey(l, c.mappings[h].attrID, c.store);
    if i == n {
      assert Writes(c, rows[n], bt, k, h);
    } else {
      LastCellIs(c, rows[..n], bt, i, h, l);
    }
  }

  /**
   A valid non-blank cell that no later row of the same product replaces is in the table of its backend type after the
   import, under the product, the attribute of its header and the store of the import: as text in raw mode, else parsed.
   */
  lemma ImportedCell<S, P>(c: EavContext, rows: seq<CsvRow>, orders: seq<seq<string>>, useRaw: bool,
                           db: Db<Value, S, P>, u: Unlisted<S, P>, bt: BackendType, i: nat, h: string, l: nat)
    requires DistinctAttributes(c.mappings) && ValidOrders(c, rows, orders) && ValidDb(db) && bt in EAV_TYPES
    requires i < |rows| && h in c.mappings && c.mappings[h].backend == bt
    requires c.sheet.Link(rows[i]) == Some(l) && ValidCell(c, rows[i], bt, h)
    requires forall j :: i < j < |rows| && c.sheet.Link(rows[j]) == Some(l) ==> !ValidCell(c, rows[j], bt, h)
    ensures var table := Sequential(db, WorkOf(c, rows, orders, useRaw), u).eav[bt];
            var key := EavKey(l, c.mappings[h].attrID, c.store);
            var cell := c.sheet.Cell(rows[i], h);
            && key in table
            && table[key].cols == if useRaw then StrValue(cell) else Parse(c.p, bt, cell).value
  {
    hide EAV_TYPES, Bucket, LastFor, LastCell, ValueRows, UpsertAll, IsOrderOf, DistinctAttributes, Parse, Sheet.Cell,
         Sheet.Link, Stock.StockRows, Price.PriceRows;
    var key := EavKey(l, c.mappings[h].attrID, c.store);
    LastCellIs(c, rows, bt, i, h, l);
    BucketDecides(c, rows, orders, bt, key);
    ValueRowsLast(c.p, bt, useRaw, Bucket(c, rows, orders, bt), key);
    UpsertAllAt(db.eav[bt], ValueRows(c.p, bt, useRaw, Bucket(c, rows, orders, bt)), (), key);
  }

  /** The import leaves alone whatever is not a mapped attribute of a product of the sheet in its own store. */
  lemma OtherCells<S, P>(c: EavContext, rows: seq<CsvRow>, orders: seq<seq<string>>, useRaw: bool, db: Db<Value, S, P>,
                         u: Unlisted<S, P>, bt: BackendType, key: EavKey)
    requires DistinctAttributes(c.mappings) && ValidOrders(c, rows, orders) && ValidDb(db) && bt in EAV_TYPES
    requires || key.store != c.store
             || (forall h :: h in c.mappings ==> c.mappings[h].attrID != key.attr || c.mappings[h].backend != bt)
             || (forall i :: 0 <= i < |rows| ==> c.sheet.Link(rows[i]) != Some(key.link))
    ensures var table := Sequential(db, WorkOf(c, rows, orders, useRaw), u).eav[bt];
            (key in table <==> key in db.eav[bt]) && (key in table ==> table[key] == db.eav[bt][key])
  {
    hide EAV_TYPES, Bucket, LastFor, LastCell, ValueRows, UpsertAll, IsOrderOf, DistinctAttributes, Parse, Sheet.Cell,
         Sheet.Link, Stock.StockRows, Price.PriceRows;
    NoCell(c, rows, bt, key);
    BucketDecides(c, rows, orders, bt, key);
    ValueRowsLast(c.p, bt, useRaw, Bucket(c, rows, orders, bt), key);
    UpsertAllAt(db.eav[bt], ValueRows(c.p, bt, useRaw, Bucket(c, rows, orders, bt)), (), key);
  }

  lemma {:induction false} NoCell(c: EavContext, rows: seq<CsvRow>, bt: BackendType, key: EavKey)
    requires || key.store != c.store
             || (forall h :: h in c.mappings ==> c.mappings[h].attrID != key.attr || c.mappings[h].backend != bt)
             || (forall i :: 0 <= i < |rows| ==> c.sheet.Link(rows[i]) != Some(key.link))
    ensures LastCell(c, rows, bt, key).None?
    decreases |rows|
  {
    hide Parse, Sheet.Cell, Sheet.Link;
    if rows != [] {
      var n := |rows| - 1;
      assert rows[n] == rows[|rows| - 1];
      NoCell(c, rows[..n], bt, key);
    }
  }

  /** A cell is reported exactly if it is not blank and its backend type rejects it. */
  ghost predicate Rejected(c: EavContext, row: CsvRow, w: ImportEav.Warning, h: string) {
    && c.sheet.Link(row).Some? && h in c.mappings && c.mappings[h].backend in EAV_TYPES
    && c.sheet.Cell(row, h) != "" && Parse(c.p, c.mappings[h].backend, c.sheet.Cell(row, h)).None?
    && w == ImportEav.Warning(c.sheet.Sku(row), c.mappings[h].code, c.sheet.Cell(row, h))
  }

  lemma {:induction false} RowWarned(c: EavContext, row: CsvRow, order: seq<string>, w: ImportEav.Warning)
    ensures w in RowWarnings(c, row, order) <==> exists h :: h in order && Rejected(c, row, w, h)
    decreases |order|
  {
    hide EAV_TYPES, Parse, Sheet.Cell, Sheet.Link, Sheet.Sku;
    if order != [] {
      var n := |order| - 1;
      RowWarned(c, row, order[..n], w);
      assert forall h :: h in order <==> h in order[..n] || h == order[n];
      assert w in CellWarnings(c, row, order[n]) <==> Rejected(c, row, w, order[n]);
    }
  }

  lemma {:induction false} EavWarned(c: EavContext, rows: seq<CsvRow>, orders: seq<seq<string>>, w: ImportEav.Warning)
    requires ValidOrders(c, rows, orders)
    ensures w in Warnings(c, rows, orders) <==>
            exists i, h :: 0 <= i < |rows| && h in c.mappings && Rejected(c, rows[i], w, h)
    decreases |rows|
  {
    hide RowWarnings, Rejected;
    if rows != [] {
      var n := |rows| - 1;
      EavWarned(c, rows[..n], orders[..n], w);
      RowWarned(c, rows[n], orders[n], w);
      if h :| h in orders[n] && Rejected(c, rows[n], w, h) {
        RejectedIsMapped(c, rows[n], w, h);
      }
      if h :| h in c.mappings && Rejected(c, rows[n], w, h) {
        RejectedIsMapped(c, rows[n], w, h);
        assert h in orders[n];
      }
      forall i, h | 0 <= i < |rows| && h in c.mappings && Rejected(c, rows[i], w, h)
        ensures i < n ==> Rejected(c, rows[..n][i], w, h)
      {
      }
      assert forall i :: 0 <= i < n ==> rows[..n][i] == rows[i];
    }
  }

  lemma RejectedIsMapped(c: EavContext, row: CsvRow, w: ImportEav.Warning, h: string)
    requires Rejected(c, row, w, h)
    ensures h in c.mappings && c.sheet.Link(row).Some?
  {
  }

  // ----- stock -----

  /** The cell can be used as it is: blank, or a number. */
  predicate FloatCell(sheet: Sheet, row: CsvRow, col: string, p: Parsers) {
    sheet.Cell(row, col) == "" || p.parseFloat(sheet.Cell(row, col)).ok
  }

  predicate UintCell(sheet: Sheet, row: CsvRow, col: string, p: Parsers) {
    sheet.Cell(row, col) == "" || p.parseUint16(sheet.Cell(row, col)).ok
  }

  /** A quantity or a stock flag is there, and neither is malformed. */
  predicate UsableStock(sheet: Sheet, row: CsvRow, p: Parsers) {
    && (sheet.Cell(row, "qty") != "" || sheet.Cell(row, "is_in_stock") != "")
    && FloatCell(sheet, row, "qty", p) && UintCell(sheet, row, "is_in_stock", p)
  }

  /**
   What a row comes to: an item if it is usable, a warning about the first malformed one of the two cells, or nothing.
   */
  lemma StockRowIs(sheet: Sheet, row: CsvRow, p: Parsers)
    ensures var r := Stock.StockOf(sheet, row, p);
            && (r.Item? <==> sheet.Link(row).Some? && UsableStock(sheet, row, p))
            && (r.Bad? <==> sheet.Link(row).Some? &&
                            !(FloatCell(sheet, row, "qty", p) && UintCell(sheet, row, "is_in_stock", p)))
            && (r.Bad? ==> if !FloatCell(sheet, row, "qty", p) then r.col == "qty" && r.cell == sheet.Cell(row, "qty")
                           else r.col == "is_in_stock" && r.cell == sheet.Cell(row, "is_in_stock"))
            && (r.Item? ==> r.item.key == Stock.StockKey(sheet.Link(row).value, 1))
  {
    hide Sheet.Cell, Sheet.Link;
  }

  /** Every column of the item is the number in the cell of its own header, or its default if the cell is blank. */
  lemma StockColumns(sheet: Sheet, row: CsvRow, p: Parsers)
    requires Stock.StockOf(sheet, row, p).Item?
    ensures var v := Stock.StockOf(sheet, row, p).item.cols;
            && v.qty == (var x := sheet.Cell(row, "qty"); if x == "" then 0 else p.parseFloat(x).value)
            && v.isInStock == (var x := sheet.Cell(row, "is_in_stock"); if x == "" then 1 else p.parseUint16(x).value)
            && v.manageStock ==
               (var x := sheet.Cell(row, "manage_stock"); if x == "" then 1 else p.parseUint16(x).value)
            && v.minQty == (var x := sheet.Cell(row, "min_qty"); if x == "" then 0 else p.parseFloat(x).value)
            && v.minSaleQty == (var x := sheet.Cell(row, "min_sale_qty"); if x == "" then 0 else p.parseFloat(x).value)
            && v.maxSaleQty == (var x := sheet.Cell(row, "max_sale_qty"); if x == "" then 0 else p.parseFloat(x).value)
  {
    hide Sheet.Cell, Sheet.Link;
  }

  lemma {:induction false} LastStockIs(sheet: Sheet, rows: seq<CsvRow>, p: Parsers, i: nat, l: nat)
    requires i < |rows| && sheet.Link(rows[i]) == Some(l) && UsableStock(sheet, rows[i], p)
    requires forall j :: i < j < |rows| && sheet.Link(rows[j]) == Some(l) ==> !UsableStock(sheet, rows[j], p)
    ensures Stock.StockOf(sheet, rows[i], p).Item?
    ensures Stock.LastStock(sheet, rows, p, l) == Some(Stock.StockOf(sheet, rows[i], p).item.cols)
    decreases |rows|
  {
    hide Sheet.Link, UsableStock, Stock.StockOf;
    StockRowIs(sheet, rows[i], p);
    var n := |rows| - 1;
    if i < n {
      StockRowIs(sheet, rows[n], p);
      LastStockIs(sheet, rows[..n], p, i, l);
    }
  }

  /** The stock row of a product after the import: the columns of its last usable row of the sheet, one by one. */
  lemma ImportedStock<S, P>(c: EavContext, rows: seq<CsvRow>, orders: seq<seq<string>>, useRaw: bool,
                            db: Db<Value, S, P>, u: Unlisted<S, P>, i: nat, l: nat)
    requires |rows| == |orders| && ValidDb(db) && i < |rows|
    requires c.sheet.Link(rows[i]) == Some(l) && UsableStock(c.sheet, rows[i], c.p)
    requires forall j :: i < j < |rows| && c.sheet.Link(rows[j]) == Some(l) ==> !UsableStock(c.sheet, rows[j], c.p)
    ensures var table := Sequential(db, WorkOf(c, rows, orders, useRaw), u).stock;
            var key := Stock.StockKey(l, 1);
            && key in table && Stock.StockOf(c.sheet, rows[i], c.p).Item?
            && table[key].cols == Stock.StockOf(c.sheet, rows[i], c.p).item.cols
            && table[key].kept == if key in db.stock then db.stock[key].kept else u.stock
  {
    hide EAV_TYPES, Sheet.Link, UsableStock, Stock.StockOf, UpsertAll, Stock.StockRows, Price.PriceRows, ValueRows,
         Bucket, Stock.LastStock;
    LastStockIs(c.sheet, rows, c.p, i, l);
    Stock.StockTableHoldsLastRow(db.stock, u.stock, c.sheet, rows, c.p, l);
  }

  lemma {:induction false} StockWarned(sheet: Sheet, rows: seq<CsvRow>, p: Parsers, w: Stock.Warning)
    ensures w in Stock.StockWarnings(sheet, rows, p) <==>
            exists i :: 0 <= i < |rows| && sheet.Link(rows[i]).Some? && w.sku == sheet.Sku(rows[i]) &&
                        w == Stock.Warning(w.sku, w.col, sheet.Cell(rows[i], w.col)) &&
                        if !FloatCell(sheet, rows[i], "qty", p) then w.col == "qty"
                        else !UintCell(sheet, rows[i], "is_in_stock", p) && w.col == "is_in_stock"
    decreases |rows|
  {
    hide Sheet.Cell, Sheet.Link, Sheet.Sku, Stock.StockOf, FloatCell, UintCell, UsableStock;
    if rows != [] {
      var n := |rows| - 1;
      StockWarned(sheet, rows[..n], p, w);
      StockRowIs(sheet, rows[n], p);
      assert forall i :: 0 <= i < n ==> rows[..n][i] == rows[i];
    }
  }

  // ----- prices -----

  /** A base price or a final price is there, and the base price is not malformed. */
  predicate UsablePrice(sheet: Sheet, row: CsvRow, p: Parsers) {
    && (sheet.Cell(row, "price_index") != "" || sheet.Cell(row, "final_price") != "")
    && FloatCell(sheet, row, "price_index", p)
  }

  lemma PriceRowIs(sheet: Sheet, row: CsvRow, p: Parsers)
    ensures var r := Price.PriceOf(sheet, row, p);
            && (r.Item? <==> sheet.Link(row).Some? && UsablePrice(sheet, row, p))
            && (r.Bad? <==> sheet.Link(row).Some? && !FloatCell(sheet, row, "price_index", p))
            && (r.Bad? ==> r.cell == sheet.Cell(row, "price_index"))
            && (r.Item? ==> r.item.key == Price.PriceKey(sheet.Link(row).value, 0, 1))
  {
    hide Sheet.Cell, Sheet.Link;
  }

  /**
   Every price is the number in the cell of its own header; a blank cell means the base price, for the tier price 0.
   */
  lemma PriceColumns(sheet: Sheet, row: CsvRow, p: Parsers)
    requires Price.PriceOf(sheet, row, p).Item?
    ensures var v := Price.PriceOf(sheet, row, p).item.cols;
            && v.price == (var x := sheet.Cell(row, "price_index"); if x == "" then 0 else p.parseFloat(x).value)
            && v.finalPrice ==
               (var x := sheet.Cell(row, "final_price"); if x == "" then v.price else p.parseFloat(x).value)
            && v.minPrice == (var x := sheet.Cell(row, "min_price"); if x == "" then v.price else p.parseFloat(x).value)
            && v.maxPrice == (var x := sheet.Cell(row, "max_price"); if x == "" then v.price else p.parseFloat(x).value)
            && v.tierPrice == (var x := sheet.Cell(row, "tier_price"); if x == "" then 0 else p.parseFloat(x).value)
  {
    hide Sheet.Cell, Sheet.Link;
  }

  lemma {:induction false} LastPriceIs(sheet: Sheet, rows: seq<CsvRow>, p: Parsers, i: nat, l: nat)
    requires i < |rows| && sheet.Link(rows[i]) == Some(l) && UsablePrice(sheet, rows[i], p)
    requires forall j :: i < j < |rows| && sheet.Link(rows[j]) == Some(l) ==> !UsablePrice(sheet, rows[j], p)
    ensures Price.PriceOf(sheet, rows[i], p).Item?
    ensures Price.LastPrice(sheet, rows, p, l) == Some(Price.PriceOf(sheet, rows[i], p).item.cols)
    decreases |rows|
  {
    hide Sheet.Link, UsablePrice, Price.PriceOf;
    PriceRowIs(sheet, rows[i], p);
    var n := |rows| - 1;
    if i < n {
      PriceRowIs(sheet, rows[n], p);
      LastPriceIs(sheet, rows[..n], p, i, l);
    }
  }

  /** The price row of a product after the import: the prices of its last usable row of the sheet. */
  lemma ImportedPrice<S, P>(c: EavContext, rows: seq<CsvRow>, orders: seq<seq<string>>, useRaw: bool,
                            db: Db<Value, S, P>, u: Unlisted<S, P>, i: nat, l: nat)
    requires |rows| == |orders| && ValidDb(db) && i < |rows|
    requires c.sheet.Link(rows[i]) == Some(l) && UsablePrice(c.sheet, rows[i], c.p)
    requires forall j :: i < j < |rows| && c.sheet.Link(rows[j]) == Some(l) ==> !UsablePrice(c.sheet, rows[j], c.p)
    ensures var table := Sequential(db, WorkOf(c, rows, orders, useRaw), u).price;
            var key := Price.PriceKey(l, 0, 1);
            && key in table && Price.PriceOf(c.sheet, rows[i], c.p).Item?
            && table[key].cols == Price.PriceOf(c.sheet, rows[i], c.p).item.cols
            && table[key].kept == if key in db.price then db.price[key].kept else u.price
  {
    hide EAV_TYPES, Sheet.Link, UsablePrice, Price.PriceOf, UpsertAll, Stock.StockRows, Price.PriceRows, ValueRows,
         Bucket, Price.LastPrice;
    LastPriceIs(c.sheet, rows, c.p, i, l);
    Price.PriceTableHoldsLastRow(db.price, u.price, c.sheet, rows, c.p, l);
  }

  lemma {:induction false} PriceWarned(sheet: Sheet, rows: seq<CsvRow>, p: Parsers, w: Price.Warning)
    ensures w in Price.PriceWarnings(sheet, rows, p) <==>
            exists i :: 0 <= i < |rows| && sheet.Link(rows[i]).Some? && !FloatCell(sheet, rows[i], "price_index", p) &&
                        w == Price.Warning(sheet.Sku(rows[i]), sheet.Cell(rows[i], "price_index"))
    decreases |rows|
  {
    hide Sheet.Cell, Sheet.Link, Sheet.Sku, Price.PriceOf, FloatCell, UsablePrice;
    if rows != [] {
      var n := |rows| - 1;
      PriceWarned(sheet, rows[..n], p, w);
      PriceRowIs(sheet, rows[n], p);
      assert forall i :: 0 <= i < n ==> rows[..n][i] == rows[i];
    }
  }

  // ----- gallery -----

  lemma {:induction false} PartsNamed(sku: string, parts: seq<string>, o: Gallery.Occurrence)
    ensures o in Gallery.PartOccurrences(sku, parts) <==>
            o.sku == sku && o.img != "" && exists j :: 0 <= j < |parts| && TrimSpace(parts[j]) == o.img
    decreases |parts|
  {
    hide TrimSpace;
    if parts != [] {
      var n := |parts| - 1;
      PartsNamed(sku, parts[..n], o);
      assert forall j :: 0 <= j < n ==> parts[..n][j] == parts[j];
    }
  }

  /** A part of the cell under `col`, between bars and without surrounding white space, names the image. */
  predicate Names(sheet: Sheet, row: CsvRow, col: string, img: string) {
    sheet.Cell(row, col) != "" && exists j :: 0 <= j < |Split(sheet.Cell(row, col), '|')| &&
                                              TrimSpace(Split(sheet.Cell(row, col), '|')[j]) == img
  }

  lemma {:induction false} ColumnsNamed(sheet: Sheet, row: CsvRow, cols: seq<string>, o: Gallery.Occurrence)
    ensures o in Gallery.ColumnOccurrences(sheet, row, cols) <==>
            o.sku == sheet.Sku(row) && o.img != "" && exists col :: col in cols && Names(sheet, row, col, o.img)
    decreases |cols|
  {
    hide Names, Gallery.PartOccurrences, Sheet.Cell, Sheet.Sku, Split;
    if cols != [] {
      var n := |cols| - 1;
      ColumnsNamed(sheet, row, cols[..n], o);
      ColumnNamed(sheet, row, cols[n], o);
      assert cols == cols[..n] + [cols[n]];
      if Names(sheet, row, cols[n], o.img) {
        assert cols[n] in cols;
      }
      if col :| col in cols[..n] && Names(sheet, row, col, o.img) {
        assert col in cols;
      }
    }
  }

  lemma ColumnNamed(sheet: Sheet, row: CsvRow, col: string, o: Gallery.Occurrence)
    ensures sheet.Cell(row, col) != "" ==>
              (o in Gallery.PartOccurrences(sheet.Sku(row), Split(sheet.Cell(row, col), '|')) <==>
                 o.sku == sheet.Sku(row) && o.img != "" && Names(sheet, row, col, o.img))
    ensures sheet.Cell(row, col) == "" ==> !Names(sheet, row, col, o.img)
  {
    hide Sheet.Cell, Sheet.Sku, Split, TrimSpace;
    PartsNamed(sheet.Sku(row), Split(sheet.Cell(row, col), '|'), o);
  }

  /** The sheet names an image for a SKU exactly in the four image columns of its rows with a known product. */
  lemma {:induction false} ImagesNamed(sheet: Sheet, rows: seq<CsvRow>, o: Gallery.Occurrence)
    ensures o in Gallery.Occurrences(sheet, rows) <==>
            o.img != "" &&
            exists i, col :: 0 <= i < |rows| && col in ["image", "small_image", "thumbnail", "media_gallery"] &&
                             sheet.Link(rows[i]).Some? && sheet.Sku(rows[i]) == o.sku &&
                             Names(sheet, rows[i], col, o.img)
    decreases |rows|
  {
    hide Sheet.Link, Sheet.Sku, Names;
    if rows != [] {
      var n := |rows| - 1;
      ImagesNamed(sheet, rows[..n], o);
      ColumnsNamed(sheet, rows[n], Gallery.IMAGE_COLUMNS, o);
      assert Gallery.IMAGE_COLUMNS == ["image", "small_image", "thumbnail", "media_gallery"];
      assert forall i :: 0 <= i < n ==> rows[..n][i] == rows[i];
    }
  }

  /**
   The import adds to the gallery one row per `seen` key of the sheet and nothing else, each with an image that the
   sheet names under that key.
   */
  lemma ImportedGallery<S, P>(c: EavContext, rows: seq<CsvRow>, orders: seq<seq<string>>, useRaw: bool,
                              db: Db<Value, S, P>, u: Unlisted<S, P>) returns (at: seq<nat>)
    requires |rows| == |orders| && ValidDb(db)
    ensures var occ := Gallery.Occurrences(c.sheet, rows);
            var gallery := Sequential(db, WorkOf(c, rows, orders, useRaw), u).gallery;
            && |gallery| == |db.gallery| + |Gallery.Keys(occ)| && |at| == |Gallery.Keys(occ)|
            && (forall i :: 0 <= i < |db.gallery| ==> gallery[i] == db.gallery[i])
            && (forall i :: 0 <= i < |at| ==> at[i] < |occ| && gallery[|db.gallery| + i] == occ[at[i]].img)
            && (forall i, j :: 0 <= i < j < |at| ==> at[i] < at[j])
            && (forall i, m :: 0 <= i < |at| && 0 <= m < at[i] ==>
                  occ[m].sku + ":" + occ[m].img != occ[at[i]].sku + ":" + occ[at[i]].img)
  {
    hide EAV_TYPES, UpsertAll, Stock.StockRows, Price.PriceRows, ValueRows, Bucket, Gallery.Occurrences,
         Gallery.FirstSeen, Gallery.Keys;
    var occ := Gallery.Occurrences(c.sheet, rows);
    at := Gallery.OrderPreserved(occ);
    Gallery.KeptOnce(occ);
    assert Sequential(db, WorkOf(c, rows, orders, useRaw), u).gallery ==
           db.gallery + Gallery.Images(Gallery.FirstSeen(occ));
  }

  // ----- created products -----

  /**
   A created product carries the cells of its row: the SKU, the type or `simple`, and the attribute set if the cell is a
   positive number, or else that of the request.
   */
  lemma {:induction false} CreatedFromRow(sheet: Sheet, rows: seq<CsvRow>, attrSet: nat, p: Parsers, j: nat)
    requires j < |NewProducts(sheet, rows, attrSet, p)|
    ensures var np := NewProducts(sheet, rows, attrSet, p)[j];
            && np.rowIndex < |rows|
            && var row := rows[np.rowIndex];
            && np.sku == sheet.Sku(row) != "" && np.sku !in sheet.skuToID
            && np.typeID == (if sheet.Cell(row, "type_id") == "" then "simple" else sheet.Cell(row, "type_id"))
            && var set' := p.parseUint16(sheet.Cell(row, "attribute_set_id"));
            && np.attrSet ==
               if sheet.Cell(row, "attribute_set_id") != "" && set'.ok && set'.value > 0 then set'.value else attrSet
    decreases |rows|
  {
    hide Sheet.Sku, Sheet.Cell;
    var n := |rows| - 1;
    if j < |NewProducts(sheet, rows[..n], attrSet, p)| {
      CreatedFromRow(sheet, rows[..n], attrSet, p, j);
    }
  }

  /** Rows are created in the order of the sheet. */
  lemma {:induction false} CreatedInOrder(sheet: Sheet, rows: seq<CsvRow>, attrSet: nat, p: Parsers)
    ensures forall j :: 0 <= j < |NewProducts(sheet, rows, attrSet, p)| ==>
                          NewProducts(sheet, rows, attrSet, p)[j].rowIndex < |rows|
    ensures forall j, k :: 0 <= j < k < |NewProducts(sheet, rows, attrSet, p)| ==>
                             NewProducts(sheet, rows, attrSet, p)[j].rowIndex <
                             NewProducts(sheet, rows, attrSet, p)[k].rowIndex
    decreases |rows|
  {
    hide Sheet.Sku, TypeOf, AttrSetOf;
    if rows != [] {
      CreatedInOrder(sheet, rows[..|rows| - 1], attrSet, p);
    }
  }

  // ----- unknown columns -----

  /** Every header that no part of the import reads is reported. */
  lemma {:induction false} UnknownReported(headers: seq<string>, known: set<string>, w: ImportWarning)
    ensures w in UnknownColumns(headers, known) <==> w.UnknownColumn? && w.header in headers && w.header !in known
    decreases |headers|
  {
    if headers != [] {
      var n := |headers| - 1;
      UnknownReported(headers[..n], known, w);
      assert headers == headers[..n] + [headers[n]];
    }
  }

  lemma StaticColumns(h: string)
    ensures h in STATIC_FIELDS <==> h == "sku" || h == "type_id" || h == "attribute_set_id"
  {
  }

  lemma StockHeaders(h: string)
    ensures h in Stock.STOCK_COLUMNS <==>
            || h == "qty" || h == "is_in_stock" || h == "manage_stock"
            || h == "min_qty" || h == "max_sale_qty" || h == "min_sale_qty"
  {
  }

  lemma ImageHeaders(h: string)
    ensures h in Gallery.IMAGE_COLUMNS <==>
            h == "image" || h == "small_image" || h == "thumbnail" || h == "media_gallery"
  {
  }

  lemma PriceHeaders(h: string)
    ensures h in Price.PRICE_COLUMNS <==>
            h == "price_index" || h == "final_price" || h == "min_price" || h == "max_price" || h == "tier_price"
  {
  }

  /** The headers that some part of the import reads. */
  lemma ReadColumns(attrMap: map<string, AttrMeta>, h: string)
    ensures h in KnownColumns(attrMap) <==>
            || h == "sku" || h == "type_id" || h == "attribute_set_id"
            || (h in attrMap && attrMap[h].backend != OtherType("static"))
            || h == "qty" || h == "is_in_stock" || h == "manage_stock"
            || h == "min_qty" || h == "max_sale_qty" || h == "min_sale_qty"
            || h == "image" || h == "small_image" || h == "thumbnail" || h == "media_gallery"
            || h == "price_index" || h == "final_price" || h == "min_price" || h == "max_price" || h == "tier_price"
  {
    StaticColumns(h);
    StockHeaders(h);
    ImageHeaders(h);
    PriceHeaders(h);
    hide STATIC_FIELDS, Stock.STOCK_COLUMNS, Gallery.IMAGE_COLUMNS, Price.PRICE_COLUMNS;
  }
}
