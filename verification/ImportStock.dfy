/** Stock items from a CSV sheet (`collectStock`). */
module ImportStock {
  import opened Text
  import opened Tables
  import opened CsvSheet

  const STOCK_COLUMNS: set<string> := {"qty", "is_in_stock", "manage_stock", "min_qty", "max_sale_qty", "min_sale_qty"}

  datatype StockKey = StockKey(product: nat, stock: nat)
  /** The columns that the upsert overwrites; all others are kept by it. */
  datatype StockCols = StockCols(qty: Float64, isInStock: nat, manageStock: nat,
                                 minQty: Float64, minSaleQty: Float64, maxSaleQty: Float64)
  type StockRow = Row<StockKey, StockCols>

  datatype Warning = Warning(sku: string, col: string, cell: string)
  datatype StockData = StockData(rows: seq<StockRow>, warnings: seq<Warning>)

  /** A stock item before any cell was read. */
  const DEFAULTS := StockCols(0, 1, 1, 0, 0, 0)

  function FloatOr(sheet: Sheet, row: CsvRow, col: string, p: Parsers, otherwise: Float64): Float64 {
    if sheet.Cell(row, col) == "" then otherwise else p.parseFloat(sheet.Cell(row, col)).value
  }

  function UintOr(sheet: Sheet, row: CsvRow, col: string, p: Parsers, otherwise: nat): nat {
    if sheet.Cell(row, col) == "" then otherwise else p.parseUint16(sheet.Cell(row, col)).value
  }

  /** `qty` and `is_in_stock` must parse and one of them must be there; the other cells only fill in. */
  function StockOf(sheet: Sheet, row: CsvRow, p: Parsers): RowResult<StockRow> {
    var qty, inStock := sheet.Cell(row, "qty"), sheet.Cell(row, "is_in_stock");
    if sheet.Link(row).None? then Skip
    else if qty != "" && !p.parseFloat(qty).ok then Bad("qty", qty)
    else if inStock != "" && !p.parseUint16(inStock).ok then Bad("is_in_stock", inStock)
    else if qty == "" && inStock == "" then Skip
    else Item(Row(StockKey(sheet.Link(row).value, 1),
                  StockCols(FloatOr(sheet, row, "qty", p, DEFAULTS.qty),
                            UintOr(sheet, row, "is_in_stock", p, DEFAULTS.isInStock),
                            UintOr(sheet, row, "manage_stock", p, DEFAULTS.manageStock),
                            FloatOr(sheet, row, "min_qty", p, DEFAULTS.minQty),
                            FloatOr(sheet, row, "min_sale_qty", p, DEFAULTS.minSaleQty),
                            FloatOr(sheet, row, "max_sale_qty", p, DEFAULTS.maxSaleQty))))
  }

  function StockRows(sheet: Sheet, rows: seq<CsvRow>, p: Parsers): seq<StockRow> {
    if rows == [] then []
    else
      var r := StockOf(sheet, rows[|rows| - 1], p);
      StockRows(sheet, rows[..|rows| - 1], p) + if r.Item? then [r.item] else []
  }

  function StockWarnings(sheet: Sheet, rows: seq<CsvRow>, p: Parsers): seq<Warning> {
    if rows == [] then []
    else
      var row := rows[|rows| - 1];
      var r := StockOf(sheet, row, p);
      StockWarnings(sheet, rows[..|rows| - 1], p) + if r.Bad? then [Warning(sheet.Sku(row), r.col, r.cell)] else []
  }

  /** The body of the loop in `collectStock`. */
  method CollectStockRow(sheet: Sheet, row: CsvRow, p: Parsers) returns (r: RowResult<StockRow>)
    ensures r == StockOf(sheet, row, p)
  {
    hide Sheet.Cell, Sheet.Link;
    var link := sheet.Link(row);
    if link.None? {
      return Skip;
    }
    var item := DEFAULTS;
    var populated := false;
    var v := sheet.Cell(row, "qty");
    if v != "" {
      if !p.parseFloat(v).ok {
        return Bad("qty", v);
      }
      item := item.(qty := p.parseFloat(v).value);
      populated := true;
    }
    v := sheet.Cell(row, "is_in_stock");
    if v != "" {
      if !p.parseUint16(v).ok {
        return Bad("is_in_stock", v);
      }
      item := item.(isInStock := p.parseUint16(v).value);
      populated := true;
    }
    v := sheet.Cell(row, "manage_stock");
    if v != "" {
      item := item.(manageStock := p.parseUint16(v).value);
    }
    v := sheet.Cell(row, "min_qty");
    if v != "" {
      item := item.(minQty := p.parseFloat(v).value);
    }
    v := sheet.Cell(row, "min_sale_qty");
    if v != "" {
      item := item.(minSaleQty := p.parseFloat(v).value);
    }
    v := sheet.Cell(row, "max_sale_qty");
    if v != "" {
      item := item.(maxSaleQty := p.parseFloat(v).value);
    }
    r := if populated then Item(Row(StockKey(link.value, 1), item)) else Skip;
  }

  /** `collectStock`, with its early return when the sheet has no stock column. */
  method CollectStock(rows: seq<CsvRow>, sheet: Sheet, p: Parsers) returns (d: StockData)
    ensures d.rows == StockRows(sheet, rows, p)
    ensures d.warnings == StockWarnings(sheet, rows, p)
  {
    hide StockOf;
    d := StockData([], []);
    if STOCK_COLUMNS !! sheet.colIndex.Keys {
      NoStockColumns(sheet, rows, p);
      return;
    }
    for i := 0 to |rows|
      invariant d.rows == StockRows(sheet, rows[..i], p)
      invariant d.warnings == StockWarnings(sheet, rows[..i], p)
    {
      assert rows[..i + 1][..i] == rows[..i];
      var r := CollectStockRow(sheet, rows[i], p);
      match r
      case Skip =>
      case Bad(col, cell) => d := d.(warnings := d.warnings + [Warning(sheet.Sku(rows[i]), col, cell)]);
      case Item(item) => d := d.(rows := d.rows + [item]);
    }
    assert rows[..|rows|] == rows;
  }

  lemma {:induction false} NoStockColumns(sheet: Sheet, rows: seq<CsvRow>, p: Parsers)
    requires STOCK_COLUMNS !! sheet.colIndex.Keys
    ensures StockRows(sheet, rows, p) == [] && StockWarnings(sheet, rows, p) == []
    decreases |rows|
  {
    if rows != [] {
      NoStockColumns(sheet, rows[..|rows| - 1], p);
      assert "qty" in STOCK_COLUMNS && "is_in_stock" in STOCK_COLUMNS;
    }
  }

  /** The stock values of the last CSV row that yields an item for the product. */
  function LastStock(sheet: Sheet, rows: seq<CsvRow>, p: Parsers, product: nat): Option<StockCols> {
    if rows == [] then None
    else
      var r := StockOf(sheet, rows[|rows| - 1], p);
      if r.Item? && r.item.key.product == product then Some(r.item.cols)
      else LastStock(sheet, rows[..|rows| - 1], p, product)
  }

  lemma {:induction false} StockRowsDecide(sheet: Sheet, rows: seq<CsvRow>, p: Parsers, key: StockKey)
    ensures LastFor(StockRows(sheet, rows, p), key) ==
            if key.stock == 1 then LastStock(sheet, rows, p, key.product) else None
    decreases |rows|
  {
    hide Sheet.Cell, Sheet.Link;
    if rows != [] {
      var n := |rows| - 1;
      StockRowsDecide(sheet, rows[..n], p, key);
      var before := StockRows(sheet, rows[..n], p);
      var r := StockOf(sheet, rows[n], p);
      if r.Item? {
        assert (before + [r.item])[..|before|] == before;
      } else {
        assert before + [] == before;
      }
    }
  }

  /** After the flush a product holds the values of its last usable CSV row; unlisted columns survive. */
  lemma StockTableHoldsLastRow<R>(t: Table<StockKey, StockCols, R>, dflt: R, sheet: Sheet, rows: seq<CsvRow>,
                                  p: Parsers, product: nat)
    ensures var after := UpsertAll(t, StockRows(sheet, rows, p), dflt);
            var key := StockKey(product, 1);
            match LastStock(sheet, rows, p, product)
            case Some(v) => key in after && after[key] == Stored(v, if key in t then t[key].kept else dflt)
            case None => (key in after <==> key in t) && (key in t ==> after[key] == t[key])
  {
    StockRowsDecide(sheet, rows, p, StockKey(product, 1));
    UpsertAllAt(t, StockRows(sheet, rows, p), dflt, StockKey(product, 1));
  }
}
