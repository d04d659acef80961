/**
 Collection of EAV values from a CSV sheet (`collectEAV`).

 The source walks the column mappings of each row in the random order of a Go map. Here that order
 is chosen by `:|`, reported as a ghost sequence, and shown not to matter for what is written.
 */
module ImportEav {
  import opened Text
  import opened Tables
  import opened CsvSheet

  datatype BackendType = VarcharType | IntType | DecimalType | TextType | DatetimeType | OtherType(name: string)

  const EAV_TYPES: set<BackendType> := {VarcharType, IntType, DecimalType, TextType, DatetimeType}
  const STATIC_FIELDS: set<string> := {"sku", "type_id", "attribute_set_id"}

  datatype Attribute = Attribute(id: nat, code: string, backend: BackendType)
  datatype AttrMeta = AttrMeta(id: nat, backend: BackendType)
  datatype ColMapping = ColMapping(code: string, attrID: nat, backend: BackendType)

  /** The conflict columns of every EAV table. */
  datatype EavKey = EavKey(link: nat, attr: nat, store: nat)
  datatype Value = StrValue(s: string) | IntValue(n: int) | DecValue(x: Float64) | TimeValue(t: int)
  datatype Warning = Warning(sku: string, code: string, cell: string)

  /** `buckets` holds the raw rows, `typed` the parsed rows of the ORM mode, one list per backend type. */
  datatype EavData = EavData(
    buckets: map<BackendType, seq<Row<EavKey, string>>>,
    typed: map<BackendType, seq<Row<EavKey, Value>>>,
    warnings: seq<Warning>)
  {
    predicate Valid() {
      buckets.Keys == EAV_TYPES == typed.Keys
    }

    /** `counts`: rows per backend type, whichever mode collected them. */
    function Counts(): map<BackendType, nat>
      requires Valid()
    {
      map bt | bt in EAV_TYPES :: |buckets[bt]| + |typed[bt]|
    }
  }

  datatype EavContext = EavContext(sheet: Sheet, mappings: map<string, ColMapping>, store: nat, p: Parsers)

  // ----- attribute metadata -----

  function AttrMap(attrs: seq<Attribute>): map<string, AttrMeta> {
    if attrs == [] then map[]
    else
      var a := attrs[|attrs| - 1];
      AttrMap(attrs[..|attrs| - 1])[a.code := AttrMeta(a.id, a.backend)]
  }

  function Mappings(headers: seq<string>, attrMap: map<string, AttrMeta>): map<string, ColMapping> {
    map h | h in headers && h !in STATIC_FIELDS && h in attrMap && attrMap[h].backend != OtherType("static")
      :: ColMapping(h, attrMap[h].id, attrMap[h].backend)
  }

  /** No two mapped columns write the same attribute. */
  predicate DistinctAttributes(mappings: map<string, ColMapping>) {
    forall a, b :: a in mappings && b in mappings && mappings[a].attrID == mappings[b].attrID ==> a == b
  }

  lemma {:induction false} AttrMapSource(attrs: seq<Attribute>, code: string) returns (i: nat)
    requires code in AttrMap(attrs)
    ensures i < |attrs| && attrs[i].code == code
    ensures AttrMap(attrs)[code] == AttrMeta(attrs[i].id, attrs[i].backend)
  {
    var n := |attrs| - 1;
    if attrs[n].code == code {
      i := n;
    } else {
      i := AttrMapSource(attrs[..n], code);
    }
  }

  /** `attribute_id` is the primary key of the attribute table, so mapped columns have distinct attributes. */
  lemma {:induction false} PrimaryKeyGivesDistinctAttributes(attrs: seq<Attribute>, headers: seq<string>)
    requires forall i, j :: 0 <= i < j < |attrs| ==> attrs[i].id != attrs[j].id
    ensures DistinctAttributes(Mappings(headers, AttrMap(attrs)))
  {
    var m := Mappings(headers, AttrMap(attrs));
    forall a, b | a in m && b in m && m[a].attrID == m[b].attrID
      ensures a == b
    {
      var i := AttrMapSource(attrs, a);
      var j := AttrMapSource(attrs, b);
      assert i == j;
    }
  }

  // ----- what one cell contributes -----

  /** The typed value of a cell, or None when the parser of its backend type rejects it. */
  function Parse(p: Parsers, bt: BackendType, cell: string): Option<Value> {
    match bt
    case VarcharType | TextType => Some(StrValue(cell))
    case IntType => (match p.atoi(cell) case Some(n) => Some(IntValue(n)) case None => None)
    case DecimalType => if p.parseFloat(cell).ok then Some(DecValue(p.parseFloat(cell).value)) else None
    case DatetimeType =>
      (match p.parseDateTime(cell)
       case Some(t) => Some(TimeValue(t))
       case None => (match p.parseDate(cell) case Some(t) => Some(TimeValue(t)) case None => None))
    case OtherType(_) => None
  }

  /** Value parsing as a total function, for the rows that passed validation. */
  function Convert(p: Parsers, bt: BackendType, cell: string): Value {
    match Parse(p, bt, cell) case Some(v) => v case None => StrValue(cell)
  }

  /** Rows of the raw mode, with their cells parsed. */
  function ConvertRows(p: Parsers, bt: BackendType, rows: seq<Row<EavKey, string>>): seq<Row<EavKey, Value>> {
    if rows == [] then []
    else
      var r := rows[|rows| - 1];
      ConvertRows(p, bt, rows[..|rows| - 1]) + [Row(r.key, Convert(p, bt, r.cols))]
  }

  predicate NonBlank(c: EavContext, row: CsvRow, col: string) {
    col in c.mappings && c.sheet.Link(row).Some? && c.sheet.Cell(row, col) != ""
  }

  /** Column `col` of `row` yields a row for the table of type `bt`. */
  predicate Contributes(c: EavContext, row: CsvRow, bt: BackendType, col: string) {
    && NonBlank(c, row, col)
    && c.mappings[col].backend == bt
    && Parse(c.p, bt, c.sheet.Cell(row, col)).Some?
  }

  /** Column `col` of `row` is reported as invalid. */
  predicate Invalid(c: EavContext, row: CsvRow, col: string) {
    && NonBlank(c, row, col)
    && c.mappings[col].backend in EAV_TYPES
    && Parse(c.p, c.mappings[col].backend, c.sheet.Cell(row, col)).None?
  }

  function RowFor(c: EavContext, row: CsvRow, col: string): Row<EavKey, string>
    requires NonBlank(c, row, col)
  {
    Row(EavKey(c.sheet.Link(row).value, c.mappings[col].attrID, c.store), c.sheet.Cell(row, col))
  }

  // ----- what the collector yields for given iteration orders -----

  function CellRows(c: EavContext, row: CsvRow, col: string, bt: BackendType): seq<Row<EavKey, string>> {
    if Contributes(c, row, bt, col) then [RowFor(c, row, col)] else []
  }

  function CellWarnings(c: EavContext, row: CsvRow, col: string): seq<Warning> {
    if Invalid(c, row, col)
    then [Warning(c.sheet.Sku(row), c.mappings[col].code, c.sheet.Cell(row, col))]
    else []
  }

  function RowCells(c: EavContext, row: CsvRow, order: seq<string>, bt: BackendType): seq<Row<EavKey, string>> {
    if order == [] then []
    else RowCells(c, row, order[..|order| - 1], bt) + CellRows(c, row, order[|order| - 1], bt)
  }

  function RowWarnings(c: EavContext, row: CsvRow, order: seq<string>): seq<Warning> {
    if order == [] then []
    else RowWarnings(c, row, order[..|order| - 1]) + CellWarnings(c, row, order[|order| - 1])
  }

  function Bucket(c: EavContext, rows: seq<CsvRow>, orders: seq<seq<string>>, bt: BackendType): seq<Row<EavKey, string>>
    requires |rows| == |orders|
  {
    if rows == [] then []
    else
      var n := |rows| - 1;
      Bucket(c, rows[..n], orders[..n], bt) + RowCells(c, rows[n], orders[n], bt)
  }

  function Warnings(c: EavContext, rows: seq<CsvRow>, orders: seq<seq<string>>): seq<Warning>
    requires |rows| == |orders|
  {
    if rows == [] then []
    else
      var n := |rows| - 1;
      Warnings(c, rows[..n], orders[..n]) + RowWarnings(c, rows[n], orders[n])
  }

  /** `order` visits each member of `keys` once. */
  ghost predicate IsOrderOf(order: seq<string>, keys: set<string>) {
    && (forall col :: col in keys <==> col in order)
    && (forall i, j :: 0 <= i < j < |order| ==> order[i] != order[j])
  }

  ghost predicate ValidOrders(c: EavContext, rows: seq<CsvRow>, orders: seq<seq<string>>) {
    && |orders| == |rows|
    && forall i :: 0 <= i < |rows| && c.sheet.Link(rows[i]).Some? ==> IsOrderOf(orders[i], c.mappings.Keys)
  }

  // ----- the collector -----

  /** The data after one more cell. */
  ghost function AddCell(c: EavContext, row: CsvRow, col: string, useRaw: bool, d: EavData): EavData
    requires d.Valid()
  {
    if !NonBlank(c, row, col) || c.mappings[col].backend !in EAV_TYPES then d
    else
      var bt := c.mappings[col].backend;
      var r := RowFor(c, row, col);
      if Invalid(c, row, col) then
        d.(warnings := d.warnings + [Warning(c.sheet.Sku(row), c.mappings[col].code, r.cols)])
      else if useRaw then d.(buckets := d.buckets[bt := d.buckets[bt] + [r]])
      else d.(typed := d.typed[bt := d.typed[bt] + [Row(r.key, Convert(c.p, bt, r.cols))]])
  }

  ghost function AddRow(c: EavContext, row: CsvRow, order: seq<string>, useRaw: bool, d: EavData): (r: EavData)
    requires d.Valid()
    ensures r.Valid()
  {
    if order == [] then d
    else AddCell(c, row, order[|order| - 1], useRaw, AddRow(c, row, order[..|order| - 1], useRaw, d))
  }

  ghost function AddRows(c: EavContext, rows: seq<CsvRow>, orders: seq<seq<string>>, useRaw: bool,
                         d: EavData): (r: EavData)
    requires d.Valid() && |rows| == |orders|
    ensures r.Valid()
  {
    if rows == [] then d
    else
      var n := |rows| - 1;
      AddRow(c, rows[n], orders[n], useRaw, AddRows(c, rows[..n], orders[..n], useRaw, d))
  }

  lemma {:induction false} ConvertRowsAppend(p: Parsers, bt: BackendType, a: seq<Row<EavKey, string>>,
                                             b: seq<Row<EavKey, string>>)
    ensures ConvertRows(p, bt, a + b) == ConvertRows(p, bt, a) + ConvertRows(p, bt, b)
    decreases |b|
  {
    hide Convert;
    if b == [] {
      assert a + b == a;
    } else {
      var n := |b| - 1;
      ConvertRowsAppend(p, bt, a, b[..n]);
      assert (a + b)[..|a + b| - 1] == a + b[..n];
    }
  }

  /** `r` extends `d` for table `bt` by `rows`, and the warnings by `ws`. */
  ghost predicate Extends(d: EavData, r: EavData, p: Parsers, bt: BackendType, useRaw: bool,
                          rows: seq<Row<EavKey, string>>, ws: seq<Warning>)
    requires d.Valid() && r.Valid() && bt in EAV_TYPES
  {
    && r.buckets[bt] == d.buckets[bt] + (if useRaw then rows else [])
    && r.typed[bt] == d.typed[bt] + (if useRaw then [] else ConvertRows(p, bt, rows))
    && r.warnings == d.warnings + ws
  }

  lemma ExtendsTrans(d: EavData, e: EavData, r: EavData, p: Parsers, bt: BackendType, useRaw: bool,
                     a: seq<Row<EavKey, string>>, b: seq<Row<EavKey, string>>, wa: seq<Warning>, wb: seq<Warning>)
    requires d.Valid() && e.Valid() && r.Valid() && bt in EAV_TYPES
    requires Extends(d, e, p, bt, useRaw, a, wa) && Extends(e, r, p, bt, useRaw, b, wb)
    ensures Extends(d, r, p, bt, useRaw, a + b, wa + wb)
  {
    hide ConvertRows;
    ConvertRowsAppend(p, bt, a, b);
  }

  lemma ConvertOneRow(p: Parsers, bt: BackendType, r: Row<EavKey, string>)
    ensures ConvertRows(p, bt, [r]) == [Row(r.key, Convert(p, bt, r.cols))]
    ensures ConvertRows(p, bt, []) == []
  {
    assert [r][..0] == [];
  }

  lemma AddCellContents(c: EavContext, row: CsvRow, col: string, useRaw: bool, d: EavData, bt: BackendType)
    requires d.Valid() && bt in EAV_TYPES
    ensures AddCell(c, row, col, useRaw, d).Valid()
    ensures Extends(d, AddCell(c, row, col, useRaw, d), c.p, bt, useRaw,
                    CellRows(c, row, col, bt), CellWarnings(c, row, col))
  {
    hide Convert, Parse, ConvertRows, Sheet.Cell, Sheet.Link, Sheet.Sku;
    ConvertOneRow(c.p, bt, Row(EavKey(0, 0, 0), ""));
    var rows, ws := CellRows(c, row, col, bt), CellWarnings(c, row, col);
    if !NonBlank(c, row, col) || c.mappings[col].backend !in EAV_TYPES {
      assert rows == [] && ws == [];
    } else if Invalid(c, row, col) {
      assert rows == [];
    } else if c.mappings[col].backend != bt {
      assert rows == [] && ws == [];
    } else {
      ConvertOneRow(c.p, bt, RowFor(c, row, col));
      assert rows == [RowFor(c, row, col)] && ws == [];
    }
  }

  lemma {:induction false} AddRowContents(c: EavContext, row: CsvRow, order: seq<string>, useRaw: bool, d: EavData,
                                          bt: BackendType)
    requires d.Valid() && bt in EAV_TYPES
    ensures Extends(d, AddRow(c, row, order, useRaw, d), c.p, bt, useRaw,
                    RowCells(c, row, order, bt), RowWarnings(c, row, order))
    decreases |order|
  {
    hide AddCell, CellRows, CellWarnings;
    if order != [] {
      var n := |order| - 1;
      var e := AddRow(c, row, order[..n], useRaw, d);
      AddRowContents(c, row, order[..n], useRaw, d, bt);
      AddCellContents(c, row, order[n], useRaw, e, bt);
      ExtendsTrans(d, e, AddRow(c, row, order, useRaw, d), c.p, bt, useRaw, RowCells(c, row, order[..n], bt),
                   CellRows(c, row, order[n], bt), RowWarnings(c, row, order[..n]), CellWarnings(c, row, order[n]));
    }
  }

  lemma {:induction false} AddRowsContents(c: EavContext, rows: seq<CsvRow>, orders: seq<seq<string>>, useRaw: bool,
                                           d: EavData, bt: BackendType)
    requires d.Valid() && bt in EAV_TYPES && |rows| == |orders|
    ensures Extends(d, AddRows(c, rows, orders, useRaw, d), c.p, bt, useRaw,
                    Bucket(c, rows, orders, bt), Warnings(c, rows, orders))
    decreases |rows|
  {
    hide AddRow, RowCells, RowWarnings;
    if rows != [] {
      var n := |rows| - 1;
      var e := AddRows(c, rows[..n], orders[..n], useRaw, d);
      AddRowsContents(c, rows[..n], orders[..n], useRaw, d, bt);
      AddRowContents(c, rows[n], orders[n], useRaw, e, bt);
      ExtendsTrans(d, e, AddRows(c, rows, orders, useRaw, d), c.p, bt, useRaw, Bucket(c, rows[..n], orders[..n], bt),
                   RowCells(c, rows[n], orders[n], bt), Warnings(c, rows[..n], orders[..n]),
                   RowWarnings(c, rows[n], orders[n]));
    }
  }

  lemma OrderSnoc(order: seq<string>, keys: set<string>, col: string)
    requires IsOrderOf(order, keys) && col !in keys
    ensures IsOrderOf(order + [col], keys + {col})
  {
  }

  /** The body of the inner loop of `collectEAV`: one column of one row. */
  method CollectCell(c: EavContext, row: CsvRow, col: string, useRaw: bool, d0: EavData) returns (d: EavData)
    requires d0.Valid() && c.sheet.Link(row).Some? && col in c.mappings
    ensures d == AddCell(c, row, col, useRaw, d0)
  {
    hide Sheet.Cell, Sheet.Link;
    d := d0;
    var m := c.mappings[col];
    var val := c.sheet.Cell(row, col);
    if val != "" && m.backend in EAV_TYPES {
      var parsed := Parse(c.p, m.backend, val);
      var key := EavKey(c.sheet.Link(row).value, m.attrID, c.store);
      if parsed.None? {
        d := d.(warnings := d.warnings + [Warning(c.sheet.Sku(row), m.code, val)]);
      } else if useRaw {
        d := d.(buckets := d.buckets[m.backend := d.buckets[m.backend] + [Row(key, val)]]);
      } else {
        d := d.(typed := d.typed[m.backend := d.typed[m.backend] + [Row(key, parsed.value)]]);
      }
    }
  }

  /** The inner loop of `collectEAV`: the columns of one row, in any order. */
  method CollectRow(c: EavContext, row: CsvRow, useRaw: bool, d0: EavData)
    returns (d: EavData, ghost order: seq<string>)
    requires d0.Valid() && c.sheet.Link(row).Some?
    ensures IsOrderOf(order, c.mappings.Keys)
    ensures d == AddRow(c, row, order, useRaw, d0)
  {
    hide IsOrderOf, AddCell, Sheet.Cell, Sheet.Link;
    d, order := d0, [];
    NothingVisited();
    var todo := c.mappings.Keys;
    assert c.mappings.Keys - todo == {};
    while todo != {}
      invariant todo <= c.mappings.Keys
      invariant IsOrderOf(order, c.mappings.Keys - todo)
      invariant d == AddRow(c, row, order, useRaw, d0)
    {
      var col :| col in todo;
      d := CollectCell(c, row, col, useRaw, d);
      assert (order + [col])[..|order|] == order;
      OrderSnoc(order, c.mappings.Keys - todo, col);
      assert c.mappings.Keys - todo + {col} == c.mappings.Keys - (todo - {col});
      todo := todo - {col};
      order := order + [col];
    }
    assert c.mappings.Keys - todo == c.mappings.Keys;
  }

  lemma NothingVisited()
    ensures IsOrderOf([], {})
  {
  }

  lemma OrdersSnoc(c: EavContext, rows: seq<CsvRow>, orders: seq<seq<string>>, row: CsvRow, order: seq<string>)
    requires ValidOrders(c, rows, orders)
    requires c.sheet.Link(row).Some? ==> IsOrderOf(order, c.mappings.Keys)
    ensures ValidOrders(c, rows + [row], orders + [order])
  {
    hide IsOrderOf, Sheet.Link;
  }

  /** The column mappings at the head of `collectEAV`. */
  method BuildMappings(headers: seq<string>, attrMap: map<string, AttrMeta>) returns (mappings: map<string, ColMapping>)
    ensures mappings == Mappings(headers, attrMap)
  {
    mappings := map[];
    for i := 0 to |headers|
      invariant mappings == Mappings(headers[..i], attrMap)
    {
      var h := headers[i];
      assert headers[..i + 1] == headers[..i] + [h];
      if h !in STATIC_FIELDS && h in attrMap && attrMap[h].backend != OtherType("static") {
        mappings := mappings[h := ColMapping(h, attrMap[h].id, attrMap[h].backend)];
      }
    }
    assert headers[..|headers|] == headers;
  }

  const EMPTY := EavData(map bt | bt in EAV_TYPES :: [], map bt | bt in EAV_TYPES :: [], [])

  /** The outer loop of `collectEAV`: all rows of the sheet, each with its own column order. */
  method CollectRows(c: EavContext, rows: seq<CsvRow>, useRaw: bool)
    returns (d: EavData, ghost orders: seq<seq<string>>)
    ensures ValidOrders(c, rows, orders)
    ensures |orders| == |rows| && d == AddRows(c, rows, orders, useRaw, EMPTY)
  {
    hide TrimSpace, AddRow, IsOrderOf, ValidOrders;
    d, orders := EMPTY, [];
    assert ValidOrders(c, rows[..0], orders) by { NoOrders(c); }
    for i := 0 to |rows|
      invariant ValidOrders(c, rows[..i], orders)
      invariant |orders| == i && d == AddRows(c, rows[..i], orders, useRaw, EMPTY)
    {
      var row := rows[i];
      ghost var order := [];
      if c.sheet.Sku(row) != "" && c.sheet.Sku(row) in c.sheet.skuToID {
        d, order := CollectRow(c, row, useRaw, d);
      } else {
        AddNothing(c, row, useRaw, d);
      }
      OrdersSnoc(c, rows[..i], orders, row, order);
      assert rows[..i + 1] == rows[..i] + [row] && (orders + [order])[..i] == orders;
      orders := orders + [order];
    }
    assert rows[..|rows|] == rows;
  }

  /** `collectEAV`, with what it collects stated per table. */
  method CollectEAV(rows: seq<CsvRow>, headers: seq<string>, sheet: Sheet, attrMap: map<string, AttrMeta>,
                    store: nat, useRaw: bool, p: Parsers)
    returns (d: EavData, ghost orders: seq<seq<string>>)
    ensures d.Valid()
    ensures Collected(EavContext(sheet, Mappings(headers, attrMap), store, p), rows, orders, useRaw, d)
  {
    hide *;
    var mappings := BuildMappings(headers, attrMap);
    var c := EavContext(sheet, mappings, store, p);
    d, orders := CollectRows(c, rows, useRaw);
    CollectedAll(c, rows, orders, useRaw);
  }

  /** `d` is what `rows` yield when the columns are visited in `orders`. */
  ghost predicate Collected(c: EavContext, rows: seq<CsvRow>, orders: seq<seq<string>>, useRaw: bool, d: EavData) {
    && d.Valid()
    && ValidOrders(c, rows, orders)
    && (forall bt | bt in EAV_TYPES :: d.buckets[bt] == if useRaw then Bucket(c, rows, orders, bt) else [])
    && (forall bt | bt in EAV_TYPES ::
          d.typed[bt] == if useRaw then [] else ConvertRows(c.p, bt, Bucket(c, rows, orders, bt)))
    && d.warnings == Warnings(c, rows, orders)
  }

  lemma CollectedAll(c: EavContext, rows: seq<CsvRow>, orders: seq<seq<string>>, useRaw: bool)
    requires ValidOrders(c, rows, orders)
    ensures Collected(c, rows, orders, useRaw, AddRows(c, rows, orders, useRaw, EMPTY))
  {
    hide Bucket, ConvertRows, Warnings, AddRows, IsOrderOf, Sheet.Link;
    var d := AddRows(c, rows, orders, useRaw, EMPTY);
    forall bt | bt in EAV_TYPES
      ensures d.buckets[bt] == if useRaw then Bucket(c, rows, orders, bt) else []
      ensures d.typed[bt] == if useRaw then [] else ConvertRows(c.p, bt, Bucket(c, rows, orders, bt))
    {
      AddRowsContents(c, rows, orders, useRaw, EMPTY, bt);
    }
    AddRowsContents(c, rows, orders, useRaw, EMPTY, VarcharType);
  }

  lemma NoOrders(c: EavContext)
    ensures ValidOrders(c, [], [])
  {
  }

  lemma AddNothing(c: EavContext, row: CsvRow, useRaw: bool, d: EavData)
    requires d.Valid()
    ensures AddRow(c, row, [], useRaw, d) == d
  {
  }
}
