/** SKU lookup and creation of product entities (`lookupSKUs`, `insertNewEntities`, `insertProductsRowIDSchema`). */
module ImportService {
  import opened Text
  import opened Batching
  import opened Tables
  import opened CsvSheet

  datatype ProductRow = ProductRow(entityID: nat, rowID: nat, sku: string, typeID: string, attrSet: nat)
  datatype NewProduct = NewProduct(sku: string, typeID: string, attrSet: nat, rowIndex: nat)
  /** One line of a lookup result, or one assignment to the SKU map. */
  type SkuLink = Row<string, nat>

  /** Assignments to a map, in order. */
  function Assign(m: map<string, nat>, links: seq<SkuLink>): map<string, nat> {
    if links == [] then m
    else Assign(m, links[..|links| - 1])[links[|links| - 1].key := links[|links| - 1].cols]
  }

  /** The last assignment to a key wins, the other keys stay. */
  lemma {:induction false} AssignAt(m: map<string, nat>, links: seq<SkuLink>, s: string)
    ensures s in Assign(m, links) <==> s in m || LastFor(links, s).Some?
    ensures s in Assign(m, links) ==>
              Assign(m, links)[s] == if LastFor(links, s).Some? then LastFor(links, s).value else m[s]
    decreases |links|
  {
    if links != [] {
      AssignAt(m, links[..|links| - 1], s);
    }
  }

  lemma {:induction false} AssignAppend(m: map<string, nat>, a: seq<SkuLink>, b: seq<SkuLink>)
    ensures Assign(m, a + b) == Assign(Assign(m, a), b)
    decreases |b|
  {
    if b == [] {
      assert a + b == a;
    } else {
      AssignAppend(m, a, b[..|b| - 1]);
      assert (a + b)[..|a + b| - 1] == a + b[..|b| - 1];
    }
  }

  // ----- the product table -----

  function LinkOf(p: ProductRow, enterprise: bool): nat {
    if enterprise then p.rowID else p.entityID
  }

  /** Products as (SKU, link ID) lines, in table order. */
  function Links(products: seq<ProductRow>, enterprise: bool): (ls: seq<SkuLink>)
    ensures |ls| == |products|
    ensures forall i :: 0 <= i < |ls| ==> ls[i] == Row(products[i].sku, LinkOf(products[i], enterprise))
  {
    if products == [] then []
    else
      var n := |products| - 1;
      Links(products[..n], enterprise) + [Row(products[n].sku, LinkOf(products[n], enterprise))]
  }

  /** The lines of an `IN` query. */
  function Matching(ls: seq<SkuLink>, skus: seq<string>): seq<SkuLink> {
    if ls == [] then []
    else
      var n := |ls| - 1;
      Matching(ls[..n], skus) + if ls[n].key in skus then [ls[n]] else []
  }

  lemma {:induction false} MatchingLast(ls: seq<SkuLink>, skus: seq<string>, s: string)
    ensures LastFor(Matching(ls, skus), s) == if s in skus then LastFor(ls, s) else None
    decreases |ls|
  {
    if ls != [] {
      var n := |ls| - 1;
      MatchingLast(ls[..n], skus, s);
      var before := Matching(ls[..n], skus);
      if ls[n].key in skus {
        assert (before + [ls[n]])[..|before|] == before;
      } else {
        assert before + [] == before;
      }
    }
  }

  /** `m` answers a lookup of `skus`: it has the SKUs that exist, each with its last product. */
  ghost predicate Answers(m: map<string, nat>, ls: seq<SkuLink>, skus: seq<string>) {
    forall s: string ::
      && (s in m <==> s in skus && LastFor(ls, s).Some?)
      && (s in m ==> m[s] == LastFor(ls, s).value)
  }

  lemma AnswersMore(m: map<string, nat>, ls: seq<SkuLink>, skus: seq<string>, more: seq<string>)
    requires Answers(m, ls, skus)
    ensures Answers(Assign(m, Matching(ls, more)), ls, skus + more)
  {
    forall s: string
      ensures var r := Assign(m, Matching(ls, more));
              && (s in r <==> s in skus + more && LastFor(ls, s).Some?)
              && (s in r ==> r[s] == LastFor(ls, s).value)
    {
      MatchingLast(ls, more, s);
      AssignAt(m, Matching(ls, more), s);
    }
  }

  /** No two products have the same link ID. */
  ghost predicate DistinctLinks(products: seq<ProductRow>, enterprise: bool) {
    forall i, j :: 0 <= i < j < |products| ==> LinkOf(products[i], enterprise) != LinkOf(products[j], enterprise)
  }

  /** `catalog_product_entity` and its auto-increment counters. */
  class Catalog {
    const enterprise: bool
    var products: seq<ProductRow>
    var nextID: nat
    var nextSequence: nat

    /** The link IDs in use are below the counter and distinct. */
    ghost predicate Valid()
      reads this
    {
      && (forall i :: 0 <= i < |products| ==> LinkOf(products[i], enterprise) < nextID)
      && DistinctLinks(products, enterprise)
    }

    constructor (enterprise: bool)
      ensures Valid() && this.enterprise == enterprise && products == []
    {
      this.enterprise, products, nextID, nextSequence := enterprise, [], 1, 1;
    }

    /** `INSERT INTO sequence_product`: `n` consecutive values, after whatever other sessions took. */
    method NewSequence(n: nat) returns (first: nat)
      modifies this`nextSequence
    {
      first := *;
      if first < nextSequence {
        first := nextSequence;
      }
      nextSequence := first + n;
    }

    /**
     A multi-row insert. The rows get consecutive IDs from `first`, which need not be where the last
     insert ended. The staging schema takes the entity IDs from the sequence table.
     */
    method Insert(batch: seq<NewProduct>, firstSeq: nat) returns (first: nat, ghost added: seq<ProductRow>)
      requires Valid()
      modifies this`products, this`nextID
      ensures Valid()
      ensures products == old(products) + added
      ensures Created(batch, added)
      ensures forall i :: 0 <= i < |added| ==> LinkOf(added[i], enterprise) == first + i
      ensures enterprise ==> forall i :: 0 <= i < |added| ==>
                added[i].entityID == firstSeq + i && added[i].rowID == first + i
      ensures !enterprise ==> forall i :: 0 <= i < |added| ==> added[i].entityID == first + i
    {
      first := *;
      if first < nextID {
        first := nextID;
      }
      var rows := [];
      for i := 0 to |batch|
        invariant |rows| == i
        invariant Created(batch[..i], rows)
        invariant forall j :: 0 <= j < i ==> LinkOf(rows[j], enterprise) == first + j
        invariant enterprise ==> forall j :: 0 <= j < i ==>
                    rows[j].entityID == firstSeq + j && rows[j].rowID == first + j
        invariant !enterprise ==> forall j :: 0 <= j < i ==> rows[j].entityID == first + j
      {
        var b := batch[i];
        var row := if enterprise then ProductRow(firstSeq + i, first + i, b.sku, b.typeID, b.attrSet)
                   else ProductRow(first + i, 0, b.sku, b.typeID, b.attrSet);
        rows := rows + [row];
      }
      assert batch[..|batch|] == batch;
      added := rows;
      products := products + rows;
      nextID := first + |batch|;
    }
  }

  /** The inserted rows carry the new products, in order. */
  ghost predicate Created(news: seq<NewProduct>, added: seq<ProductRow>) {
    && |added| == |news|
    && forall i :: 0 <= i < |news| ==>
         added[i].sku == news[i].sku && added[i].typeID == news[i].typeID && added[i].attrSet == news[i].attrSet
  }

  /** `lookupSKUs`: the same answer for every batch size. */
  method LookupSKUs(products: seq<ProductRow>, enterprise: bool, skus: seq<string>, batchSize: nat)
    returns (m: map<string, nat>)
    requires batchSize > 0
    ensures Answers(m, Links(products, enterprise), skus)
  {
    hide Matching, Answers;
    var ls := Links(products, enterprise);
    var existing := [];
    NothingAsked(ls);
    var i := 0;
    while i < |skus|
      invariant 0 <= i
      invariant Answers(Assign(map[], existing), ls, skus[..Min(i, |skus|)])
      decreases |skus| - i
    {
      var end := i + batchSize;
      if end > |skus| {
        end := |skus|;
      }
      AnswersMore(Assign(map[], existing), ls, skus[..i], skus[i..end]);
      AssignAppend(map[], existing, Matching(ls, skus[i..end]));
      assert skus[..i] + skus[i..end] == skus[..end];
      existing := existing + Matching(ls, skus[i..end]);
      i := i + batchSize;
    }
    assert skus[..|skus|] == skus;
    m := map[];
    for j := 0 to |existing|
      invariant m == Assign(map[], existing[..j])
    {
      assert existing[..j + 1][..j] == existing[..j];
      m := m[existing[j].key := existing[j].cols];
    }
    assert existing[..|existing|] == existing;
  }

  lemma NothingAsked(ls: seq<SkuLink>)
    ensures Answers(Assign(map[], []), ls, [])
  {
  }

  // ----- which rows become products -----

  function TypeOf(sheet: Sheet, row: CsvRow): string {
    if sheet.Cell(row, "type_id") == "" then "simple" else sheet.Cell(row, "type_id")
  }

  function AttrSetOf(sheet: Sheet, row: CsvRow, p: Parsers, otherwise: nat): nat {
    var cell := sheet.Cell(row, "attribute_set_id");
    if cell != "" && p.parseUint16(cell).ok && p.parseUint16(cell).value > 0 then p.parseUint16(cell).value
    else otherwise
  }

  predicate IsNew(sheet: Sheet, row: CsvRow) {
    sheet.Sku(row) != "" && sheet.Sku(row) !in sheet.skuToID
  }

  /** `toCreate`: one product per row whose trimmed SKU the lookup did not find. */
  function NewProducts(sheet: Sheet, rows: seq<CsvRow>, attrSet: nat, p: Parsers): seq<NewProduct> {
    if rows == [] then []
    else
      var n := |rows| - 1;
      NewProducts(sheet, rows[..n], attrSet, p) +
      if IsNew(sheet, rows[n])
      then [NewProduct(sheet.Sku(rows[n]), TypeOf(sheet, rows[n]), AttrSetOf(sheet, rows[n], p, attrSet), n)]
      else []
  }

  function Blanks(sheet: Sheet, rows: seq<CsvRow>): nat {
    if rows == [] then 0
    else Blanks(sheet, rows[..|rows| - 1]) + if sheet.Sku(rows[|rows| - 1]) == "" then 1 else 0
  }

  /** Rows whose trimmed SKU was already in the lookup map. */
  function Known(sheet: Sheet, rows: seq<CsvRow>): nat {
    if rows == [] then 0
    else Known(sheet, rows[..|rows| - 1]) + if sheet.Link(rows[|rows| - 1]).Some? then 1 else 0
  }

  /** Every row is skipped, created or updated, and none is two of these. */
  lemma {:induction false} RowAccounting(sheet: Sheet, rows: seq<CsvRow>, attrSet: nat, p: Parsers)
    ensures |rows| - Blanks(sheet, rows) - |NewProducts(sheet, rows, attrSet, p)| == Known(sheet, rows)
    decreases |rows|
  {
    hide Sheet.Sku;
    if rows != [] {
      RowAccounting(sheet, rows[..|rows| - 1], attrSet, p);
    }
  }

  /** The number of rows that name SKU `s`. */
  function Naming(sheet: Sheet, rows: seq<CsvRow>, s: string): nat {
    if rows == [] then 0
    else Naming(sheet, rows[..|rows| - 1], s) + if sheet.Sku(rows[|rows| - 1]) == s then 1 else 0
  }

  function TimesCreated(news: seq<NewProduct>, s: string): nat {
    if news == [] then 0
    else TimesCreated(news[..|news| - 1], s) + if news[|news| - 1].sku == s then 1 else 0
  }

  /**
   A SKU that the lookup did not find is inserted once for every row that names it:
   a new SKU on two rows becomes two products.
   */
  lemma {:induction false} CreatedOncePerRow(sheet: Sheet, rows: seq<CsvRow>, attrSet: nat, p: Parsers, s: string)
    requires s != ""
    ensures TimesCreated(NewProducts(sheet, rows, attrSet, p), s) ==
            if s in sheet.skuToID then 0 else Naming(sheet, rows, s)
    decreases |rows|
  {
    hide Sheet.Sku, TypeOf, AttrSetOf;
    if rows != [] {
      var n := |rows| - 1;
      CreatedOncePerRow(sheet, rows[..n], attrSet, p, s);
      var before := NewProducts(sheet, rows[..n], attrSet, p);
      if IsNew(sheet, rows[n]) {
        var np := NewProduct(sheet.Sku(rows[n]), TypeOf(sheet, rows[n]), AttrSetOf(sheet, rows[n], p, attrSet), n);
        assert NewProducts(sheet, rows, attrSet, p) == before + [np];
        assert (before + [np])[..|before|] == before;
      } else {
        assert before + [] == before;
      }
    }
  }

  // ----- untrimmed lookup, trimmed use -----

  /** The SKU cells as they are looked up: not trimmed, empty cells left out. */
  function RawSkus(skuCol: nat, rows: seq<CsvRow>): seq<string> {
    if rows == [] then []
    else
      var row := rows[|rows| - 1];
      RawSkus(skuCol, rows[..|rows| - 1]) + if skuCol < |row| && row[skuCol] != "" then [row[skuCol]] else []
  }

  lemma {:induction false} NamedPositive(sheet: Sheet, rows: seq<CsvRow>, i: nat)
    requires i < |rows|
    ensures Naming(sheet, rows, sheet.Sku(rows[i])) > 0
    decreases |rows|
  {
    hide Sheet.Sku;
    if i < |rows| - 1 {
      NamedPositive(sheet, rows[..|rows| - 1], i);
    }
  }

  /**
   A product that exists is created a second time exactly when no row spells its SKU without
   surrounding white space: the lookup asked for the untrimmed cells only.
   */
  lemma {:induction false} ExistingSkuDuplicated(sheet: Sheet, rows: seq<CsvRow>, ls: seq<SkuLink>, attrSet: nat,
                                                 p: Parsers, i: nat)
    requires Answers(sheet.skuToID, ls, RawSkus(sheet.SkuCol(), rows))
    requires i < |rows| && sheet.Sku(rows[i]) != "" && LastFor(ls, sheet.Sku(rows[i])).Some?
    ensures TimesCreated(NewProducts(sheet, rows, attrSet, p), sheet.Sku(rows[i])) > 0 <==>
            sheet.Sku(rows[i]) !in RawSkus(sheet.SkuCol(), rows)
  {
    hide Sheet.Sku, NewProducts, TimesCreated, Naming, RawSkus;
    CreatedOncePerRow(sheet, rows, attrSet, p, sheet.Sku(rows[i]));
    NamedPositive(sheet, rows, i);
  }

  /** What one lookup and one insert come to on a product table: `lookup` was found, `added` was inserted. */
  ghost predicate Resolved(products: seq<ProductRow>, enterprise: bool, colIndex: map<string, nat>, rows: seq<CsvRow>,
                           attrSet: nat, p: Parsers, lookup: map<string, nat>, added: seq<ProductRow>) {
    && Answers(lookup, Links(products, enterprise), RawSkus(Sheet(colIndex, lookup).SkuCol(), rows))
    && Created(NewProducts(Sheet(colIndex, lookup), rows, attrSet, p), added)
  }

  // ----- inserting -----

  lemma LinksAppend(a: seq<ProductRow>, b: seq<ProductRow>, enterprise: bool)
    ensures Links(a + b, enterprise) == Links(a, enterprise) + Links(b, enterprise)
  {
  }

  lemma CreatedAppend(a: seq<NewProduct>, b: seq<NewProduct>, x: seq<ProductRow>, y: seq<ProductRow>)
    requires Created(a, x) && Created(b, y)
    ensures Created(a + b, x + y)
  {
  }

  /** The entries that `for j, np := range batch { skuToID[np.sku] = first + j }` assigns. */
  method AssignBatch(m0: map<string, nat>, batch: seq<NewProduct>, first: nat, ghost added: seq<ProductRow>,
                     ghost enterprise: bool)
    returns (m: map<string, nat>)
    requires Created(batch, added)
    requires forall i :: 0 <= i < |added| ==> LinkOf(added[i], enterprise) == first + i
    ensures m == Assign(m0, Links(added, enterprise))
  {
    m := m0;
    ghost var ls := Links(added, enterprise);
    for j := 0 to |batch|
      invariant m == Assign(m0, ls[..j])
    {
      assert ls[..j + 1][..j] == ls[..j];
      assert ls[j] == Row(batch[j].sku, first + j);
      m := m[batch[j].sku := first + j];
    }
    assert ls[..|ls|] == ls;
  }

  /** One batch: the sequence values of the staging schema, the rows, and the map entries. */
  method InsertBatch(catalog: Catalog, batch: seq<NewProduct>, m0: map<string, nat>)
    returns (m: map<string, nat>, ghost added: seq<ProductRow>)
    requires catalog.Valid()
    modifies catalog
    ensures catalog.Valid()
    ensures catalog.products == old(catalog.products) + added
    ensures Created(batch, added)
    ensures m == Assign(m0, Links(added, catalog.enterprise))
  {
    hide Assign, Links, Catalog.Valid;
    var firstSeq := 0;
    if catalog.enterprise {
      firstSeq := NewSequence(catalog, |batch|);
    }
    var first;
    first, added := catalog.Insert(batch, firstSeq);
    m := AssignBatch(m0, batch, first, added, catalog.enterprise);
  }

  /**
   The insert of both schemas, batch by batch. In the staging schema this is `insertProductsRowIDSchema`;
   in the other one the batches are cut by the ORM. The map ends up with the link IDs of the rows that
   are in the table.
   */
  method InsertProducts(catalog: Catalog, toCreate: seq<NewProduct>, m0: map<string, nat>, batchSize: nat)
    returns (m: map<string, nat>, ghost added: seq<ProductRow>)
    requires batchSize > 0 && catalog.Valid()
    modifies catalog
    ensures catalog.Valid()
    ensures catalog.products == old(catalog.products) + added
    ensures Created(toCreate, added)
    ensures m == Assign(m0, Links(added, catalog.enterprise))
  {
    hide Assign, Links, Catalog.Valid, Created;
    m, added := m0, [];
    InsertedNothing(m0, catalog.enterprise);
    var i := 0;
    assert toCreate[..0] == [] && catalog.products == catalog.products + [];
    while i < |toCreate|
      invariant 0 <= i && catalog.Valid()
      invariant catalog.products == old(catalog.products) + added
      invariant Created(toCreate[..Min(i, |toCreate|)], added)
      invariant m == Assign(m0, Links(added, catalog.enterprise))
      decreases |toCreate| - i
    {
      var end := i + batchSize;
      if end > |toCreate| {
        end := |toCreate|;
      }
      ghost var more;
      m, more := InsertBatch(catalog, toCreate[i..end], m);
      AddedMore(old(catalog.products), added, more, toCreate, i, end, m0, catalog.enterprise);
      added := added + more;
      i := i + batchSize;
    }
    assert toCreate[..|toCreate|] == toCreate;
  }

  lemma AddedMore(products: seq<ProductRow>, added: seq<ProductRow>, more: seq<ProductRow>, toCreate: seq<NewProduct>,
                  i: nat, end: nat, m0: map<string, nat>, enterprise: bool)
    requires i <= end <= |toCreate|
    requires Created(toCreate[..i], added) && Created(toCreate[i..end], more)
    ensures products + added + more == products + (added + more)
    ensures Created(toCreate[..end], added + more)
    ensures Assign(Assign(m0, Links(added, enterprise)), Links(more, enterprise)) ==
            Assign(m0, Links(added + more, enterprise))
  {
    hide Assign, Links, Created;
    LinksAppend(added, more, enterprise);
    AssignAppend(m0, Links(added, enterprise), Links(more, enterprise));
    CreatedAppend(toCreate[..i], toCreate[i..end], added, more);
    assert toCreate[..i] + toCreate[i..end] == toCreate[..end];
  }

  /** Taking sequence values leaves the product table alone. */
  method NewSequence(catalog: Catalog, n: nat) returns (first: nat)
    requires catalog.Valid()
    modifies catalog`nextSequence
    ensures catalog.Valid()
  {
    first := catalog.NewSequence(n);
  }

  lemma InsertedNothing(m: map<string, nat>, enterprise: bool)
    ensures Created([], []) && m == Assign(m, Links([], enterprise))
  {
  }

  /** `insertNewEntities`: the rows to create, the two counters and the updated SKU map. */
  method InsertNewEntities(catalog: Catalog, rows: seq<CsvRow>, sheet: Sheet, attrSet: nat, batchSize: nat, p: Parsers)
    returns (created: nat, skipped: nat, skuToID: map<string, nat>, ghost added: seq<ProductRow>)
    requires batchSize > 0 && catalog.Valid()
    modifies catalog
    ensures catalog.Valid()
    ensures created == |NewProducts(sheet, rows, attrSet, p)| && skipped == Blanks(sheet, rows)
    ensures catalog.products == old(catalog.products) + added && Created(NewProducts(sheet, rows, attrSet, p), added)
    ensures skuToID == Assign(sheet.skuToID, Links(added, catalog.enterprise))
  {
    hide Sheet.Sku, Sheet.Cell, Links, Assign, Created, Catalog.Valid;
    var toCreate := [];
    skipped := 0;
    for ri := 0 to |rows|
      invariant toCreate == NewProducts(sheet, rows[..ri], attrSet, p)
      invariant skipped == Blanks(sheet, rows[..ri])
    {
      var row := rows[ri];
      assert rows[..ri + 1][..ri] == rows[..ri];
      var sku := sheet.Sku(row);
      if sku == "" {
        skipped := skipped + 1;
        continue;
      }
      if sku in sheet.skuToID {
        continue;
      }
      var np := NewProduct(sku, "simple", attrSet, ri);
      var v := sheet.Cell(row, "type_id");
      if v != "" {
        np := np.(typeID := v);
      }
      v := sheet.Cell(row, "attribute_set_id");
      if v != "" && p.parseUint16(v).ok && p.parseUint16(v).value > 0 {
        np := np.(attrSet := p.parseUint16(v).value);
      }
      toCreate := toCreate + [np];
    }
    assert rows[..|rows|] == rows;
    created := |toCreate|;
    skuToID, added := InsertProducts(catalog, toCreate, sheet.skuToID, batchSize);
  }

  // ----- what the new map says -----

  lemma {:induction false} LastForIndex<K, C>(rows: seq<Row<K, C>>, k: K) returns (i: nat)
    requires LastFor(rows, k).Some?
    ensures i < |rows| && rows[i].key == k && rows[i].cols == LastFor(rows, k).value
    ensures forall j :: i < j < |rows| ==> rows[j].key != k
    decreases |rows|
  {
    var n := |rows| - 1;
    if rows[n].key == k {
      i := n;
    } else {
      i := LastForIndex(rows[..n], k);
      assert forall j :: i < j < n ==> rows[j] == rows[..n][j];
    }
  }

  lemma {:induction false} NewIsListed(sheet: Sheet, rows: seq<CsvRow>, attrSet: nat, p: Parsers, i: nat)
    returns (j: nat)
    requires i < |rows| && IsNew(sheet, rows[i])
    ensures j < |NewProducts(sheet, rows, attrSet, p)| &&
            NewProducts(sheet, rows, attrSet, p)[j].sku == sheet.Sku(rows[i])
    decreases |rows|
  {
    hide Sheet.Sku, IsNew;
    var n := |rows| - 1;
    if i == n {
      j := |NewProducts(sheet, rows[..n], attrSet, p)|;
    } else {
      assert rows[..n][i] == rows[i];
      j := NewIsListed(sheet, rows[..n], attrSet, p, i);
    }
  }

  lemma {:induction false} ListedIsNew(sheet: Sheet, rows: seq<CsvRow>, attrSet: nat, p: Parsers)
    ensures forall j :: 0 <= j < |NewProducts(sheet, rows, attrSet, p)| ==>
                          NewProducts(sheet, rows, attrSet, p)[j].sku !in sheet.skuToID
    decreases |rows|
  {
    hide Sheet.Sku;
    if rows != [] {
      ListedIsNew(sheet, rows[..|rows| - 1], attrSet, p);
    }
  }

  lemma KnownNotReassigned(sheet: Sheet, rows: seq<CsvRow>, attrSet: nat, p: Parsers, added: seq<ProductRow>,
                           enterprise: bool, s: string)
    requires Created(NewProducts(sheet, rows, attrSet, p), added) && s in sheet.skuToID
    ensures LastFor(Links(added, enterprise), s).None?
  {
    var ls := Links(added, enterprise);
    LastForCovers(ls, s);
    ListedIsNew(sheet, rows, attrSet, p);
    forall k | 0 <= k < |ls|
      ensures ls[k].key != s
    {
      assert ls[k].key == added[k].sku == NewProducts(sheet, rows, attrSet, p)[k].sku;
    }
  }

  /**
   After the insert every row with a non-blank SKU resolves, the entries found by the lookup are unchanged,
   and every other SKU leads to a row that was really inserted for it: the last one, if it was inserted twice.
   */
  lemma EveryRowResolves(sheet: Sheet, rows: seq<CsvRow>, attrSet: nat, p: Parsers, added: seq<ProductRow>,
                         enterprise: bool, i: nat) returns (at: nat)
    requires Created(NewProducts(sheet, rows, attrSet, p), added)
    requires i < |rows| && sheet.Sku(rows[i]) != ""
    ensures var m := Assign(sheet.skuToID, Links(added, enterprise));
            var s := sheet.Sku(rows[i]);
            && s in m
            && (s in sheet.skuToID ==> m[s] == sheet.skuToID[s])
            && (s !in sheet.skuToID ==>
                  && at < |added| && added[at].sku == s && m[s] == LinkOf(added[at], enterprise)
                  && forall j :: at < j < |added| ==> added[j].sku != s)
  {
    hide Sheet.Sku, Assign;
    var ls := Links(added, enterprise);
    var s := sheet.Sku(rows[i]);
    AssignAt(sheet.skuToID, ls, s);
    LastForCovers(ls, s);
    at := 0;
    if s in sheet.skuToID {
      KnownNotReassigned(sheet, rows, attrSet, p, added, enterprise, s);
    } else {
      var j := NewIsListed(sheet, rows, attrSet, p, i);
      assert ls[j].key == s;
      at := LastForIndex(ls, s);
      assert forall j :: at < j < |added| ==> ls[j].key == added[j].sku;
    }
  }

  /** No entry of the lookup map is lost or changed. */
  lemma PriorEntriesKept(sheet: Sheet, rows: seq<CsvRow>, attrSet: nat, p: Parsers, added: seq<ProductRow>,
                         enterprise: bool)
    requires Created(NewProducts(sheet, rows, attrSet, p), added)
    ensures forall s :: s in sheet.skuToID ==>
                          && s in Assign(sheet.skuToID, Links(added, enterprise))
                          && Assign(sheet.skuToID, Links(added, enterprise))[s] == sheet.skuToID[s]
  {
    hide Assign;
    var ls := Links(added, enterprise);
    forall s | s in sheet.skuToID
      ensures s in Assign(sheet.skuToID, ls) && Assign(sheet.skuToID, ls)[s] == sheet.skuToID[s]
    {
      AssignAt(sheet.skuToID, ls, s);
      KnownNotReassigned(sheet, rows, attrSet, p, added, enterprise, s);
    }
  }
}
