/** Price index rows from a CSV sheet (`collectPrice`). */
module ImportPrice {
  import opened Text
  import opened Tables
  import opened CsvSheet

  const PRICE_COLUMNS: set<string> := {"price_index", "final_price", "min_price", "max_price", "tier_price"}

  datatype PriceKey = PriceKey(entity: nat, customerGroup: nat, website: nat)
  datatype PriceCols = PriceCols(price: Float64, finalPrice: Float64, minPrice: Float64, maxPrice: Float64,
                                 tierPrice: Float64)
  type PriceRow = Row<PriceKey, PriceCols>

  datatype Warning = Warning(sku: string, cell: string)
  datatype PriceData = PriceData(rows: seq<PriceRow>, warnings: seq<Warning>)

  /** A cell overrides the base price only when it is there; a bad cell other than `price_index` is not an error. */
  function PriceOr(sheet: Sheet, row: CsvRow, col: string, p: Parsers, otherwise: Float64): Float64 {
    if sheet.Cell(row, col) == "" then otherwise else p.parseFloat(sheet.Cell(row, col)).value
  }

  /** `price_index` sets every price but the tier price; only it and `final_price` make a row worth writing. */
  function PriceOf(sheet: Sheet, row: CsvRow, p: Parsers): RowResult<PriceRow> {
    var base := sheet.Cell(row, "price_index");
    if sheet.Link(row).None? then Skip
    else if base != "" && !p.parseFloat(base).ok then Bad("price_index", base)
    else if base == "" && sheet.Cell(row, "final_price") == "" then Skip
    else
      var all := PriceOr(sheet, row, "price_index", p, 0);
      Item(Row(PriceKey(sheet.Link(row).value, 0, 1),
               PriceCols(all, PriceOr(sheet, row, "final_price", p, all), PriceOr(sheet, row, "min_price", p, all),
                         PriceOr(sheet, row, "max_price", p, all), PriceOr(sheet, row, "tier_price", p, 0))))
  }

  function PriceRows(sheet: Sheet, rows: seq<CsvRow>, p: Parsers): seq<PriceRow> {
    if rows == [] then []
    else
      var r := PriceOf(sheet, rows[|rows| - 1], p);
      PriceRows(sheet, rows[..|rows| - 1], p) + if r.Item? then [r.item] else []
  }

  function PriceWarnings(sheet: Sheet, rows: seq<CsvRow>, p: Parsers): seq<Warning> {
    if rows == [] then []
    else
      var row := rows[|rows| - 1];
      var r := PriceOf(sheet, row, p);
      PriceWarnings(sheet, rows[..|rows| - 1], p) + if r.Bad? then [Warning(sheet.Sku(row), r.cell)] else []
  }

  /** The body of the loop in `collectPrice`. */
  method CollectPriceRow(sheet: Sheet, row: CsvRow, p: Parsers) returns (r: RowResult<PriceRow>)
    ensures r == PriceOf(sheet, row, p)
  {
    hide Sheet.Cell, Sheet.Link;
    var link := sheet.Link(row);
    if link.None? {
      return Skip;
    }
    var item := PriceCols(0, 0, 0, 0, 0);
    var populated := false;
    var v := sheet.Cell(row, "price_index");
    if v != "" {
      if !p.parseFloat(v).ok {
        return Bad("price_index", v);
      }
      var f := p.parseFloat(v).value;
      item := PriceCols(f, f, f, f, item.tierPrice);
      populated := true;
    }
    v := sheet.Cell(row, "final_price");
    if v != "" {
      item := item.(finalPrice := p.parseFloat(v).value);
      populated := true;
    }
    v := sheet.Cell(row, "min_price");
    if v != "" {
      item := item.(minPrice := p.parseFloat(v).value);
    }
    v := sheet.Cell(row, "max_price");
    if v != "" {
      item := item.(maxPrice := p.parseFloat(v).value);
    }
    v := sheet.Cell(row, "tier_price");
    if v != "" {
      item := item.(tierPrice := p.parseFloat(v).value);
    }
    r := if populated then Item(Row(PriceKey(link.value, 0, 1), item)) else Skip;
  }

  /** `collectPrice`, with its early return when the sheet has no price column. */
  method CollectPrice(rows: seq<CsvRow>, sheet: Sheet, p: Parsers) returns (d: PriceData)
    ensures d.rows == PriceRows(sheet, rows, p)
    ensures d.warnings == PriceWarnings(sheet, rows, p)
  {
    hide PriceOf;
    d := PriceData([], []);
    if PRICE_COLUMNS !! sheet.colIndex.Keys {
      NoPriceColumns(sheet, rows, p);
      return;
    }
    for i := 0 to |rows|
      invariant d.rows == PriceRows(sheet, rows[..i], p)
      invariant d.warnings == PriceWarnings(sheet, rows[..i], p)
    {
      assert rows[..i + 1][..i] == rows[..i];
      var r := CollectPriceRow(sheet, rows[i], p);
      match r
      case Skip =>
      case Bad(_, cell) => d := d.(warnings := d.warnings + [Warning(sheet.Sku(rows[i]), cell)]);
      case Item(item) => d := d.(rows := d.rows + [item]);
    }
    assert rows[..|rows|] == rows;
  }

  lemma {:induction false} NoPriceColumns(sheet: Sheet, rows: seq<CsvRow>, p: Parsers)
    requires PRICE_COLUMNS !! sheet.colIndex.Keys
    ensures PriceRows(sheet, rows, p) == [] && PriceWarnings(sheet, rows, p) == []
    decreases |rows|
  {
    if rows != [] {
      NoPriceColumns(sheet, rows[..|rows| - 1], p);
      assert "price_index" in PRICE_COLUMNS && "final_price" in PRICE_COLUMNS;
    }
  }

  /** The prices of the last CSV row that yields an item for the product. */
  function LastPrice(sheet: Sheet, rows: seq<CsvRow>, p: Parsers, entity: nat): Option<PriceCols> {
    if rows == [] then None
    else
      var r := PriceOf(sheet, rows[|rows| - 1], p);
      if r.Item? && r.item.key.entity == entity then Some(r.item.cols)
      else LastPrice(sheet, rows[..|rows| - 1], p, entity)
  }

  lemma {:induction false} PriceRowsDecide(sheet: Sheet, rows: seq<CsvRow>, p: Parsers, key: PriceKey)
    ensures LastFor(PriceRows(sheet, rows, p), key) ==
            if key.customerGroup == 0 && key.website == 1 then LastPrice(sheet, rows, p, key.entity) else None
    decreases |rows|
  {
    hide Sheet.Cell, Sheet.Link;
    if rows != [] {
      var n := |rows| - 1;
      PriceRowsDecide(sheet, rows[..n], p, key);
      var before := PriceRows(sheet, rows[..n], p);
      var r := PriceOf(sheet, rows[n], p);
      if r.Item? {
        assert (before + [r.item])[..|before|] == before;
      } else {
        assert before + [] == before;
      }
    }
  }

  /** After the flush a product holds the prices of its last usable CSV row; unlisted columns survive. */
  lemma PriceTableHoldsLastRow<R>(t: Table<PriceKey, PriceCols, R>, dflt: R, sheet: Sheet, rows: seq<CsvRow>,
                                  p: Parsers, entity: nat)
    ensures var after := UpsertAll(t, PriceRows(sheet, rows, p), dflt);
            var key := PriceKey(entity, 0, 1);
            match LastPrice(sheet, rows, p, entity)
            case Some(v) => key in after && after[key] == Stored(v, if key in t then t[key].kept else dflt)
            case None => (key in after <==> key in t) && (key in t ==> after[key] == t[key])
  {
    PriceRowsDecide(sheet, rows, p, PriceKey(entity, 0, 1));
    UpsertAllAt(t, PriceRows(sheet, rows, p), dflt, PriceKey(entity, 0, 1));
  }
}
