/** What every collector reads from a CSV sheet: the SKU of a row, its link ID and its trimmed cells. */
module CsvSheet {
  import opened Text

  type CsvRow = seq<string>

  /** The bit pattern of a float64; the importers only parse and store these. */
  type Float64 = nat

  /** `colIndex` maps a header to its last column, `skuToID` a SKU to its entity or row ID. */
  datatype Sheet = Sheet(colIndex: map<string, nat>, skuToID: map<string, nat>) {
    function SkuCol(): nat {
      if "sku" in colIndex then colIndex["sku"] else 0
    }

    /** The trimmed SKU, empty for a row that is too short. */
    function Sku(row: CsvRow): string {
      if SkuCol() < |row| then TrimSpace(row[SkuCol()]) else ""
    }

    /** The product a row belongs to, if its SKU is known. */
    function Link(row: CsvRow): Option<nat> {
      if Sku(row) != "" && Sku(row) in skuToID then Some(skuToID[Sku(row)]) else None
    }

    /** The trimmed cell of a column, empty when the column or the cell is missing. */
    function Cell(row: CsvRow, col: string): string {
      if col in colIndex && colIndex[col] < |row| then TrimSpace(row[colIndex[col]]) else ""
    }
  }

  /** A value and whether the parse succeeded; the libraries return a value in either case. */
  datatype Parsed<T> = Parsed(value: T, ok: bool)

  /** What one CSV row comes to: nothing, a warning about a cell, or an item. */
  datatype RowResult<T> = Skip | Bad(col: string, cell: string) | Item(item: T)

  /** The library parsers, taken as they are. */
  datatype Parsers = Parsers(
    atoi: string -> Option<int>,
    parseUint16: string -> Parsed<nat>,
    parseFloat: string -> Parsed<Float64>,
    parseDateTime: string -> Option<int>,
    parseDate: string -> Option<int>)
}
