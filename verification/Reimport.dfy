/**
 Resolving the SKUs of one sheet twice. The second import looks the SKUs up again: untrimmed, while they are used
 trimmed. It gets the SKU map of the first exactly when some row spells every SKU of the sheet exactly.
 */
module Reimport {
  import opened Text
  import opened Tables
  import opened CsvSheet
  import opened ImportService

  /** What one import did to the product table: `lookup` was found, `added` was inserted. */
  datatype Resolution = Resolution(attrSet: nat, lookup: map<string, nat>, added: seq<ProductRow>) {
    function SkuToID(enterprise: bool): map<string, nat> {
      Assign(lookup, Links(added, enterprise))
    }
  }

  /** Two imports of a sheet resolved their SKUs one after the other, and nobody else inserted products. */
  ghost predicate ResolvedTwice(products: seq<ProductRow>, enterprise: bool, colIndex: map<string, nat>,
                                rows: seq<CsvRow>, p: Parsers, one: Resolution, two: Resolution) {
    && Resolved(products, enterprise, colIndex, rows, one.attrSet, p, one.lookup, one.added)
    && Resolved(products + one.added, enterprise, colIndex, rows, two.attrSet, p, two.lookup, two.added)
    && DistinctLinks(products + one.added + two.added, enterprise)
  }

  /** The cells that a lookup for the sheet asks for, and the SKUs that its rows name. */
  function Asked(colIndex: map<string, nat>, rows: seq<CsvRow>): seq<string> {
    RawSkus(Sheet(colIndex, map[]).SkuCol(), rows)
  }

  function SkuAt(colIndex: map<string, nat>, row: CsvRow): string {
    Sheet(colIndex, map[]).Sku(row)
  }

  /** Every SKU of the sheet is spelled without surrounding white space by some row. */
  predicate SpelledExactly(colIndex: map<string, nat>, rows: seq<CsvRow>) {
    forall i :: 0 <= i < |rows| && SkuAt(colIndex, rows[i]) != "" ==> SkuAt(colIndex, rows[i]) in Asked(colIndex, rows)
  }

  lemma {:induction false} LinksLast(a: seq<ProductRow>, b: seq<ProductRow>, enterprise: bool, s: string)
    ensures LastFor(Links(a + b, enterprise), s) ==
            if LastFor(Links(b, enterprise), s).Some? then LastFor(Links(b, enterprise), s)
            else LastFor(Links(a, enterprise), s)
  {
    LinksAppend(a, b, enterprise);
    LastForAppend(Links(a, enterprise), Links(b, enterprise), s);
  }

  /**
   A row of the sheet resolves in both imports: to the same product exactly when the second lookup asked for its SKU.
   */
  lemma SameLinkIff(products: seq<ProductRow>, enterprise: bool, colIndex: map<string, nat>, rows: seq<CsvRow>,
                    p: Parsers, one: Resolution, two: Resolution, i: nat)
    requires ResolvedTwice(products, enterprise, colIndex, rows, p, one, two)
    requires i < |rows| && SkuAt(colIndex, rows[i]) != ""
    ensures var s, m1, m2 := SkuAt(colIndex, rows[i]), one.SkuToID(enterprise), two.SkuToID(enterprise);
            && s in m1 && s in m2
            && (m1[s] == m2[s] <==> s in Asked(colIndex, rows))
            && (s in two.lookup <==> s in Asked(colIndex, rows))
  {
    hide NewProducts, Created, Links, Assign, RawSkus, LastFor, TrimSpace;
    var s1, s2 := Sheet(colIndex, one.lookup), Sheet(colIndex, two.lookup);
    var s := s1.Sku(rows[i]);
    var at1 := EveryRowResolves(s1, rows, one.attrSet, p, one.added, enterprise, i);
    var at2 := EveryRowResolves(s2, rows, two.attrSet, p, two.added, enterprise, i);
    LinksLast(products, one.added, enterprise, s);
    AssignAt(one.lookup, Links(one.added, enterprise), s);
    if s in one.lookup {
      KnownNotReassigned(s1, rows, one.attrSet, p, one.added, enterprise, s);
    }
    if s !in Asked(colIndex, rows) {
      var all := products + one.added + two.added;
      assert all[|products| + at1] == one.added[at1];
      assert all[|products| + |one.added| + at2] == two.added[at2];
    }
  }

  /** Whatever an insert added is named by a row that the lookup had not found. */
  lemma {:induction false} AddedNamesRow(sheet: Sheet, rows: seq<CsvRow>, attrSet: nat, p: Parsers, j: nat)
    returns (i: nat)
    requires j < |NewProducts(sheet, rows, attrSet, p)|
    ensures i < |rows| && IsNew(sheet, rows[i]) && sheet.Sku(rows[i]) == NewProducts(sheet, rows, attrSet, p)[j].sku
    decreases |rows|
  {
    hide Sheet.Sku, TypeOf, AttrSetOf;
    var n := |rows| - 1;
    if j < |NewProducts(sheet, rows[..n], attrSet, p)| {
      i := AddedNamesRow(sheet, rows[..n], attrSet, p, j);
    } else {
      i := n;
    }
  }

  /** The second import creates products exactly when some SKU is nowhere spelled exactly. */
  lemma CreatesNothingIff(products: seq<ProductRow>, enterprise: bool, colIndex: map<string, nat>, rows: seq<CsvRow>,
                          p: Parsers, one: Resolution, two: Resolution)
    requires ResolvedTwice(products, enterprise, colIndex, rows, p, one, two)
    ensures two.added == [] <==> SpelledExactly(colIndex, rows)
  {
    hide NewProducts, Links, Assign, RawSkus, LastFor, TrimSpace, DistinctLinks, Answers;
    var s2 := Sheet(colIndex, two.lookup);
    if two.added != [] {
      var i := AddedNamesRow(s2, rows, two.attrSet, p, 0);
      SameLinkIff(products, enterprise, colIndex, rows, p, one, two, i);
    } else {
      forall i | 0 <= i < |rows| && SkuAt(colIndex, rows[i]) != ""
        ensures SkuAt(colIndex, rows[i]) in Asked(colIndex, rows)
      {
        SameLinkIff(products, enterprise, colIndex, rows, p, one, two, i);
        if SkuAt(colIndex, rows[i]) !in Asked(colIndex, rows) {
          var j := NewIsListed(s2, rows, two.attrSet, p, i);
        }
      }
    }
  }

  /** An entry of the SKU map stays exactly the same, or stays absent, when the sheet spells its SKUs exactly. */
  lemma SameEntry(products: seq<ProductRow>, enterprise: bool, colIndex: map<string, nat>, rows: seq<CsvRow>,
                  p: Parsers, one: Resolution, two: Resolution, s: string)
    requires ResolvedTwice(products, enterprise, colIndex, rows, p, one, two) && SpelledExactly(colIndex, rows)
    ensures s in one.SkuToID(enterprise) <==> s in two.SkuToID(enterprise)
    ensures s in one.SkuToID(enterprise) ==> one.SkuToID(enterprise)[s] == two.SkuToID(enterprise)[s]
  {
    hide NewProducts, Links, Assign, RawSkus, TrimSpace, DistinctLinks, Sheet.Sku;
    CreatesNothingIff(products, enterprise, colIndex, rows, p, one, two);
    var s1 := Sheet(colIndex, one.lookup);
    LinksLast(products, one.added, enterprise, s);
    AssignAt(one.lookup, Links(one.added, enterprise), s);
    AssignAt(two.lookup, Links(two.added, enterprise), s);
    if s in one.lookup {
      KnownNotReassigned(s1, rows, one.attrSet, p, one.added, enterprise, s);
    } else if s in one.SkuToID(enterprise) {
      AddedIsAsked(enterprise, colIndex, rows, p, one, s);
    }
  }

  lemma AddedIsAsked(enterprise: bool, colIndex: map<string, nat>, rows: seq<CsvRow>, p: Parsers, one: Resolution,
                     s: string)
    requires Created(NewProducts(Sheet(colIndex, one.lookup), rows, one.attrSet, p), one.added)
    requires SpelledExactly(colIndex, rows) && LastFor(Links(one.added, enterprise), s).Some?
    ensures s in Asked(colIndex, rows)
  {
    hide NewProducts, RawSkus, TrimSpace, LastFor;
    var j := LastForIndex(Links(one.added, enterprise), s);
    var i := AddedNamesRow(Sheet(colIndex, one.lookup), rows, one.attrSet, p, j);
    assert SkuAt(colIndex, rows[i]) == s;
  }

  /** Both imports work with the same SKU map if and only if the sheet spells every SKU exactly somewhere. */
  lemma SameSkuMapIff(products: seq<ProductRow>, enterprise: bool, colIndex: map<string, nat>, rows: seq<CsvRow>,
                      p: Parsers, one: Resolution, two: Resolution)
    requires ResolvedTwice(products, enterprise, colIndex, rows, p, one, two)
    ensures one.SkuToID(enterprise) == two.SkuToID(enterprise) <==> SpelledExactly(colIndex, rows)
  {
    hide ResolvedTwice, SkuAt, Asked, Resolution.SkuToID;
    var m1, m2 := one.SkuToID(enterprise), two.SkuToID(enterprise);
    if SpelledExactly(colIndex, rows) {
      forall s: string
        ensures s in m1 <==> s in m2
        ensures s in m1 ==> m1[s] == m2[s]
      {
        SameEntry(products, enterprise, colIndex, rows, p, one, two, s);
      }
      assert m1 == m2;
    } else {
      var i :| 0 <= i < |rows| && SkuAt(colIndex, rows[i]) != "" && SkuAt(colIndex, rows[i]) !in Asked(colIndex, rows);
      SameLinkIff(products, enterprise, colIndex, rows, p, one, two, i);
    }
  }

  /** The SKU map of the first import leads to products that existed before the second one inserted any. */
  lemma MappedBefore(products: seq<ProductRow>, enterprise: bool, colIndex: map<string, nat>, rows: seq<CsvRow>,
                     p: Parsers, one: Resolution, s: string) returns (i: nat)
    requires Resolved(products, enterprise, colIndex, rows, one.attrSet, p, one.lookup, one.added)
    requires s in one.SkuToID(enterprise)
    ensures i < |products + one.added| && LinkOf((products + one.added)[i], enterprise) == one.SkuToID(enterprise)[s]
  {
    hide NewProducts, Assign, RawSkus, LastFor, TrimSpace;
    AssignAt(one.lookup, Links(one.added, enterprise), s);
    if LastFor(Links(one.added, enterprise), s).Some? {
      i := LastForIndex(Links(one.added, enterprise), s);
      i := |products| + i;
    } else {
      i := LastForIndex(Links(products, enterprise), s);
    }
  }

  // ----- an example -----

  /** A sheet with one row, whose SKU cell is " A". */
  const PADDED_SKU: CsvRow := [" A"]
  const SKU_FIRST: map<string, nat> := map["sku" := 0]

  function ProductA(id: nat): ProductRow {
    ProductRow(id, 0, "A", "simple", 4)
  }

  lemma PaddedSheet(p: Parsers)
    ensures RawSkus(0, [PADDED_SKU]) == [" A"]
    ensures NewProducts(Sheet(SKU_FIRST, map[]), [PADDED_SKU], 4, p) == [NewProduct("A", "simple", 4, 0)]
  {
    var sheet := Sheet(SKU_FIRST, map[]);
    PaddedTrims();
    hide TrimSpace;
    assert sheet.Sku(PADDED_SKU) == "A";
    assert sheet.Cell(PADDED_SKU, "type_id") == "" && sheet.Cell(PADDED_SKU, "attribute_set_id") == "";
    assert [PADDED_SKU][..0] == [];
    assert RawSkus(0, []) == [] && NewProducts(sheet, [], 4, p) == [];
  }

  lemma PaddedTrims()
    ensures TrimSpace(" A") == "A"
  {
    assert " A"[1..] == "A";
    assert TrimLeft(" A") == TrimLeft("A") == "A";
  }

  lemma OneLink(id: nat)
    ensures Links([ProductA(id)], false) == [Row("A", id)]
    ensures Assign(map[], [Row("A", id)]) == map["A" := id]
    ensures Answers(map[], [], [" A"]) && Answers(map[], [Row("A", id)], [" A"])
  {
    assert [ProductA(id)][..0] == [];
    assert [Row("A", id)][..0] == [];
    assert LastFor<string, nat>([], " A") == None;
    assert Assign(map[], []) == map[];
    assert LastFor([Row("A", id)], " A") == None;
  }

  /** Whether A is in the catalogue or not: the lookup asks for " A" and finds nothing, and the insert creates A. */
  lemma PaddedResolves(products: seq<ProductRow>, p: Parsers, id: nat)
    requires products == [] || products == [ProductA(1)]
    ensures Resolved(products, false, SKU_FIRST, [PADDED_SKU], 4, p, map[], [ProductA(id)])
    ensures Resolution(4, map[], [ProductA(id)]).SkuToID(false) == map["A" := id]
  {
    PaddedSheet(p);
    OneLink(id);
    OneLink(1);
    hide NewProducts, Links, Assign, RawSkus, Answers;
  }

  /** With an empty catalogue, the second import of the sheet inserts A again and works with the copy. */
  lemma PaddedSkuImportedTwice(p: Parsers)
    ensures var one, two := Resolution(4, map[], [ProductA(1)]), Resolution(4, map[], [ProductA(2)]);
            && ResolvedTwice([], false, SKU_FIRST, [PADDED_SKU], p, one, two)
            && one.SkuToID(false) == map["A" := 1] && two.SkuToID(false) == map["A" := 2]
  {
    hide Resolved, Resolution.SkuToID;
    PaddedResolves([], p, 1);
    PaddedResolves([ProductA(1)], p, 2);
    assert [] + [ProductA(1)] == [ProductA(1)];
  }
}
