/** What the flushed EAV tables hold, whatever order the columns were visited in and in either mode. */
module EavDeterminism {
  import opened Text
  import opened Tables
  import opened CsvSheet
  import opened ImportEav

  /** EAV tables have no columns besides the key and the value. */
  type EavTable<V> = Table<EavKey, V, ()>

  ghost predicate Writes(c: EavContext, row: CsvRow, bt: BackendType, k: EavKey, col: string) {
    Contributes(c, row, bt, col) && RowFor(c, row, col).key == k
  }

  /** The cell of one CSV row that lands on key `k` of table `bt`. */
  ghost function CellFor(c: EavContext, row: CsvRow, bt: BackendType, k: EavKey): Option<string> {
    if col: string :| Writes(c, row, bt, k, col) then Some(c.sheet.Cell(row, col)) else None
  }

  /** The last valid non-blank cell of the sheet for key `k`: no iteration order is involved. */
  ghost function LastCell(c: EavContext, rows: seq<CsvRow>, bt: BackendType, k: EavKey): Option<string> {
    if rows == [] then None
    else
      var n := |rows| - 1;
      var here := CellFor(c, rows[n], bt, k);
      if here.Some? then here else LastCell(c, rows[..n], bt, k)
  }

  /** Within a row, some visited column decides the key, and none does only if none writes it. */
  lemma {:induction false} LastInOrder(c: EavContext, row: CsvRow, order: seq<string>, bt: BackendType, k: EavKey)
    ensures var last := LastFor(RowCells(c, row, order, bt), k);
            match last
            case None => forall col :: col in order ==> !Writes(c, row, bt, k, col)
            case Some(v) => exists col :: col in order && Writes(c, row, bt, k, col) && v == c.sheet.Cell(row, col)
    decreases |order|
  {
    hide Parse, Sheet.Cell, Sheet.Link;
    if order != [] {
      var n := |order| - 1;
      var col := order[n];
      LastInOrder(c, row, order[..n], bt, k);
      LastForAppend(RowCells(c, row, order[..n], bt), CellRows(c, row, col, bt), k);
      if Contributes(c, row, bt, col) {
        LastForOne(RowFor(c, row, col), k);
      }
      assert forall x :: x in order <==> x in order[..n] || x == col;
    }
  }

  lemma RowDecides(c: EavContext, row: CsvRow, order: seq<string>, bt: BackendType, k: EavKey)
    requires DistinctAttributes(c.mappings)
    requires c.sheet.Link(row).Some? ==> IsOrderOf(order, c.mappings.Keys)
    ensures LastFor(RowCells(c, row, order, bt), k) == CellFor(c, row, bt, k)
  {
    hide Parse, Sheet.Cell, Sheet.Link;
    LastInOrder(c, row, order, bt, k);
    if col: string :| Writes(c, row, bt, k, col) {
      assert col in order;
    }
  }

  lemma {:induction false} BucketDecides(c: EavContext, rows: seq<CsvRow>, orders: seq<seq<string>>, bt: BackendType,
                                         k: EavKey)
    requires DistinctAttributes(c.mappings) && ValidOrders(c, rows, orders)
    ensures LastFor(Bucket(c, rows, orders, bt), k) == LastCell(c, rows, bt, k)
    decreases |rows|
  {
    hide RowCells, CellFor, IsOrderOf;
    if rows != [] {
      var n := |rows| - 1;
      BucketDecides(c, rows[..n], orders[..n], bt, k);
      RowDecides(c, rows[n], orders[n], bt, k);
      LastForAppend(Bucket(c, rows[..n], orders[..n], bt), RowCells(c, rows[n], orders[n], bt), k);
    }
  }

  /** Two imports that visited the columns in different orders write the same table. */
  lemma OrdersDoNotMatter(c: EavContext, rows: seq<CsvRow>, o1: seq<seq<string>>, o2: seq<seq<string>>,
                          bt: BackendType, t: EavTable<string>)
    requires DistinctAttributes(c.mappings) && ValidOrders(c, rows, o1) && ValidOrders(c, rows, o2)
    ensures UpsertAll(t, Bucket(c, rows, o1, bt), ()) == UpsertAll(t, Bucket(c, rows, o2, bt), ())
  {
    forall k
      ensures LastFor(Bucket(c, rows, o1, bt), k) == LastFor(Bucket(c, rows, o2, bt), k)
    {
      BucketDecides(c, rows, o1, bt, k);
      BucketDecides(c, rows, o2, bt, k);
    }
    SameLastSameTable(t, Bucket(c, rows, o1, bt), Bucket(c, rows, o2, bt), ());
  }

  /** Each key holds the last valid non-blank cell of the sheet, or what the table held before. */
  lemma TableHoldsLastCells(c: EavContext, rows: seq<CsvRow>, orders: seq<seq<string>>, bt: BackendType,
                            t: EavTable<string>, k: EavKey)
    requires DistinctAttributes(c.mappings) && ValidOrders(c, rows, orders)
    ensures var after := UpsertAll(t, Bucket(c, rows, orders, bt), ());
            match LastCell(c, rows, bt, k)
            case Some(v) => k in after && after[k].cols == v
            case None => (k in after <==> k in t) && (k in t ==> after[k] == t[k])
  {
    BucketDecides(c, rows, orders, bt, k);
    UpsertAllAt(t, Bucket(c, rows, orders, bt), (), k);
  }

  // ----- without distinct attributes -----

  /** A set of columns can be visited with any one of them last. */
  lemma OrderEndingWith(keys: set<string>, col: string) returns (order: seq<string>)
    requires col in keys
    ensures IsOrderOf(order, keys) && order != [] && order[|order| - 1] == col
  {
    var before := SomeOrder(keys - {col});
    OrderSnoc(before, keys - {col}, col);
    assert keys - {col} + {col} == keys;
    order := before + [col];
  }

  lemma SomeOrder(keys: set<string>) returns (order: seq<string>)
    ensures IsOrderOf(order, keys)
  {
    if keys == {} {
      order := [];
    } else {
      var col :| col in keys;
      order := SomeOrder(keys - {col});
      OrderSnoc(order, keys - {col}, col);
      assert keys - {col} + {col} == keys;
      order := order + [col];
    }
  }

  lemma LastVisitedWins(c: EavContext, row: CsvRow, order: seq<string>, bt: BackendType, k: EavKey)
    requires order != [] && Writes(c, row, bt, k, order[|order| - 1])
    ensures LastFor(RowCells(c, row, order, bt), k) == Some(c.sheet.Cell(row, order[|order| - 1]))
  {
    hide Parse, Sheet.Cell, Sheet.Link;
    var n := |order| - 1;
    LastForAppend(RowCells(c, row, order[..n], bt), CellRows(c, row, order[n], bt), k);
    LastForOne(RowFor(c, row, order[n]), k);
  }

  /**
   For one row and one key, the column order is irrelevant exactly when all columns that write the key
   write the same cell text. Distinct attributes make that so; two columns of one attribute need not.
   */
  lemma OrderIrrelevantIff(c: EavContext, row: CsvRow, bt: BackendType, k: EavKey)
    ensures (forall o1, o2 :: IsOrderOf(o1, c.mappings.Keys) && IsOrderOf(o2, c.mappings.Keys) ==>
                                LastFor(RowCells(c, row, o1, bt), k) == LastFor(RowCells(c, row, o2, bt), k)) <==>
            (forall a, b :: Writes(c, row, bt, k, a) && Writes(c, row, bt, k, b) ==>
                              c.sheet.Cell(row, a) == c.sheet.Cell(row, b))
  {
    hide IsOrderOf, RowCells, LastFor, Sheet.Cell, Sheet.Link, Parse;
    if a, b :| Writes(c, row, bt, k, a) && Writes(c, row, bt, k, b) && c.sheet.Cell(row, a) != c.sheet.Cell(row, b) {
      var oa := OrderEndingWith(c.mappings.Keys, a);
      var ob := OrderEndingWith(c.mappings.Keys, b);
      LastVisitedWins(c, row, oa, bt, k);
      LastVisitedWins(c, row, ob, bt, k);
    } else {
      forall o1, o2 | IsOrderOf(o1, c.mappings.Keys) && IsOrderOf(o2, c.mappings.Keys)
        ensures LastFor(RowCells(c, row, o1, bt), k) == LastFor(RowCells(c, row, o2, bt), k)
      {
        OrdersAgree(c, row, o1, o2, bt, k);
      }
    }
  }

  lemma {:induction false} OrdersAgree(c: EavContext, row: CsvRow, o1: seq<string>, o2: seq<string>, bt: BackendType,
                                       k: EavKey)
    requires IsOrderOf(o1, c.mappings.Keys) && IsOrderOf(o2, c.mappings.Keys)
    requires forall a, b :: Writes(c, row, bt, k, a) && Writes(c, row, bt, k, b) ==>
                              c.sheet.Cell(row, a) == c.sheet.Cell(row, b)
    ensures LastFor(RowCells(c, row, o1, bt), k) == LastFor(RowCells(c, row, o2, bt), k)
  {
    hide RowCells, LastFor, Sheet.Cell, Sheet.Link, Parse;
    LastInOrder(c, row, o1, bt, k);
    LastInOrder(c, row, o2, bt, k);
    assert forall col :: Writes(c, row, bt, k, col) ==> col in o1 && col in o2;
  }

  // ----- counts -----

  ghost function Contributors(c: EavContext, row: CsvRow, bt: BackendType): set<string> {
    set col | col in c.mappings && Contributes(c, row, bt, col)
  }

  /** The number of valid non-blank cells of a type, with no iteration order in sight. */
  ghost function CellCount(c: EavContext, rows: seq<CsvRow>, bt: BackendType): nat {
    if rows == [] then 0 else CellCount(c, rows[..|rows| - 1], bt) + |Contributors(c, rows[|rows| - 1], bt)|
  }

  ghost function ContributorsIn(c: EavContext, row: CsvRow, bt: BackendType, order: seq<string>): set<string> {
    set col | col in order && Contributes(c, row, bt, col)
  }

  lemma ContributorsSnoc(c: EavContext, row: CsvRow, bt: BackendType, order: seq<string>, last: string)
    requires last !in order
    ensures |ContributorsIn(c, row, bt, order + [last])| ==
            |ContributorsIn(c, row, bt, order)| + if Contributes(c, row, bt, last) then 1 else 0
  {
    hide Contributes;
    var before, after := ContributorsIn(c, row, bt, order), ContributorsIn(c, row, bt, order + [last]);
    if Contributes(c, row, bt, last) {
      assert after == before + {last};
    } else {
      assert after == before;
    }
  }

  lemma {:induction false} RowCount(c: EavContext, row: CsvRow, order: seq<string>, bt: BackendType)
    requires forall i, j :: 0 <= i < j < |order| ==> order[i] != order[j]
    ensures |RowCells(c, row, order, bt)| == |ContributorsIn(c, row, bt, order)|
    decreases |order|
  {
    hide Contributes, ContributorsIn, RowFor;
    if order != [] {
      var n := |order| - 1;
      RowCount(c, row, order[..n], bt);
      assert order == order[..n] + [order[n]];
      ContributorsSnoc(c, row, bt, order[..n], order[n]);
    } else {
      NoContributors(c, row, bt);
    }
  }

  lemma NoContributors(c: EavContext, row: CsvRow, bt: BackendType)
    ensures ContributorsIn(c, row, bt, []) == {}
  {
  }

  lemma {:induction false} BucketCount(c: EavContext, rows: seq<CsvRow>, orders: seq<seq<string>>, bt: BackendType)
    requires ValidOrders(c, rows, orders)
    ensures |Bucket(c, rows, orders, bt)| == CellCount(c, rows, bt)
    decreases |rows|
  {
    hide RowCells, Parse, Sheet.Cell, Sheet.Link;
    if rows != [] {
      var n := |rows| - 1;
      BucketCount(c, rows[..n], orders[..n], bt);
      if c.sheet.Link(rows[n]).Some? {
        RowCount(c, rows[n], orders[n], bt);
        assert Contributors(c, rows[n], bt) == ContributorsIn(c, rows[n], bt, orders[n]);
      } else {
        RowCount(c, rows[n], [], bt);
        UnlinkedRow(c, rows[n], orders[n], bt);
      }
    }
  }

  lemma {:induction false} UnlinkedRow(c: EavContext, row: CsvRow, order: seq<string>, bt: BackendType)
    requires c.sheet.Link(row).None?
    ensures RowCells(c, row, order, bt) == [] && Contributors(c, row, bt) == {}
    decreases |order|
  {
    if order != [] {
      UnlinkedRow(c, row, order[..|order| - 1], bt);
    }
  }

  lemma {:induction false} ConvertRowsLength(p: Parsers, bt: BackendType, rows: seq<Row<EavKey, string>>)
    ensures |ConvertRows(p, bt, rows)| == |rows|
    decreases |rows|
  {
    if rows != [] {
      ConvertRowsLength(p, bt, rows[..|rows| - 1]);
    }
  }

  // ----- raw and ORM mode -----

  ghost function ConvertTable(p: Parsers, bt: BackendType, t: EavTable<string>): EavTable<Value> {
    map k | k in t :: Stored(Convert(p, bt, t[k].cols), ())
  }

  /** Parsing the values before the upsert, or after it, makes no difference. */
  lemma {:induction false} ConvertCommutes(p: Parsers, bt: BackendType, t: EavTable<string>,
                                           rows: seq<Row<EavKey, string>>)
    ensures UpsertAll(ConvertTable(p, bt, t), ConvertRows(p, bt, rows), ()) ==
            ConvertTable(p, bt, UpsertAll(t, rows, ()))
    decreases |rows|
  {
    hide Convert, ConvertTable, Upsert;
    if rows != [] {
      var n := |rows| - 1;
      ConvertCommutes(p, bt, t, rows[..n]);
      assert rows == rows[..n] + [rows[n]];
      UpsertAllSnoc(t, rows[..n], rows[n], ());
      UpsertAllSnoc(ConvertTable(p, bt, t), ConvertRows(p, bt, rows[..n]),
                    Row(rows[n].key, Convert(p, bt, rows[n].cols)), ());
      ConvertOne(p, bt, UpsertAll(t, rows[..n], ()), rows[n]);
    } else {
      assert UpsertAll(t, [], ()) == t;
    }
  }

  lemma ConvertOne(p: Parsers, bt: BackendType, t: EavTable<string>, r: Row<EavKey, string>)
    ensures Upsert(ConvertTable(p, bt, t), Row(r.key, Convert(p, bt, r.cols)), ()) ==
            ConvertTable(p, bt, Upsert(t, r, ()))
  {
    hide Convert;
  }

  /**
   The raw and the ORM mode write the same table up to value parsing, and report the same counts,
   even when their column orders differ.
   */
  lemma ModesAgree(c: EavContext, rows: seq<CsvRow>, oRaw: seq<seq<string>>, oOrm: seq<seq<string>>,
                   bt: BackendType, t: EavTable<string>)
    requires DistinctAttributes(c.mappings) && ValidOrders(c, rows, oRaw) && ValidOrders(c, rows, oOrm)
    ensures UpsertAll(ConvertTable(c.p, bt, t), ConvertRows(c.p, bt, Bucket(c, rows, oOrm, bt)), ()) ==
            ConvertTable(c.p, bt, UpsertAll(t, Bucket(c, rows, oRaw, bt), ()))
    ensures |ConvertRows(c.p, bt, Bucket(c, rows, oOrm, bt))| == |Bucket(c, rows, oRaw, bt)| == CellCount(c, rows, bt)
  {
    ConvertCommutes(c.p, bt, t, Bucket(c, rows, oOrm, bt));
    OrdersDoNotMatter(c, rows, oRaw, oOrm, bt, t);
    ConvertRowsLength(c.p, bt, Bucket(c, rows, oOrm, bt));
    BucketCount(c, rows, oRaw, bt);
    BucketCount(c, rows, oOrm, bt);
  }

  lemma {:induction false} CountAgrees(c: EavContext, rows: seq<CsvRow>, orders: seq<seq<string>>, useRaw: bool,
                                       d: EavData, bt: BackendType)
    requires Collected(c, rows, orders, useRaw, d) && bt in EAV_TYPES
    ensures |d.buckets[bt]| + |d.typed[bt]| == CellCount(c, rows, bt)
  {
    hide Bucket, ConvertRows, CellCount, IsOrderOf, Warnings;
    BucketCount(c, rows, orders, bt);
    ConvertRowsLength(c.p, bt, Bucket(c, rows, orders, bt));
  }

  /** `counts()` of any two collections of the same sheet agree: they are the cell counts. */
  lemma {:induction false} CountsAgree(c: EavContext, rows: seq<CsvRow>, orders: seq<seq<string>>, useRaw: bool,
                                       d: EavData)
    requires Collected(c, rows, orders, useRaw, d)
    ensures d.Counts() == map bt | bt in EAV_TYPES :: CellCount(c, rows, bt)
  {
    hide CellCount;
    assert d.Valid() by {
      hide Bucket, ConvertRows, IsOrderOf, Warnings, ValidOrders;
    }
    hide Collected;
    forall bt | bt in EAV_TYPES
      ensures |d.buckets[bt]| + |d.typed[bt]| == CellCount(c, rows, bt)
    {
      CountAgrees(c, rows, orders, useRaw, d, bt);
    }
    CountsAre(c, rows, d);
  }

  lemma CountsAre(c: EavContext, rows: seq<CsvRow>, d: EavData)
    requires d.Valid() && forall bt | bt in EAV_TYPES :: |d.buckets[bt]| + |d.typed[bt]| == CellCount(c, rows, bt)
    ensures d.Counts() == map bt | bt in EAV_TYPES :: CellCount(c, rows, bt)
  {
    hide CellCount;
  }
}
