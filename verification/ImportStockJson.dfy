/** The stock import API (`ImportStockJSON`). */
module ImportStockJson {
  import opened Text
  import opened Batching
  import opened Tables
  import opened CsvSheet
  import opened ImportStock
  import opened ImportService
  import opened BatchUpsert

  datatype StockItemInput = StockItemInput(sku: string, qty: Option<Float64>, isInStock: Option<nat>,
                                           manageStock: Option<nat>,
                                           minQty: Option<Float64>, minSaleQty: Option<Float64>,
                                           maxSaleQty: Option<Float64>)

  datatype ItemWarning = EmptySku | NotFound(sku: string)
  datatype StockImportResult = StockImportResult(imported: nat, skipped: nat, warnings: seq<ItemWarning>)
  datatype Outcome = Ok(result: StockImportResult) | UpsertError

  function GetOr<T>(o: Option<T>, otherwise: T): T {
    match o case Some(v) => v case None => otherwise
  }

  function ItemCols(it: StockItemInput): StockCols {
    StockCols(GetOr(it.qty, DEFAULTS.qty), GetOr(it.isInStock, DEFAULTS.isInStock),
              GetOr(it.manageStock, DEFAULTS.manageStock),
              GetOr(it.minQty, DEFAULTS.minQty), GetOr(it.minSaleQty, DEFAULTS.minSaleQty),
              GetOr(it.maxSaleQty, DEFAULTS.maxSaleQty))
  }

  /** The product of an item, by exact SKU: this path does not trim. */
  function Target(ls: seq<SkuLink>, it: StockItemInput): Option<nat> {
    if it.sku == "" then None else LastFor(ls, it.sku)
  }

  /** One row per item whose product exists, in order. */
  function ItemRows(ls: seq<SkuLink>, items: seq<StockItemInput>): seq<StockRow> {
    if items == [] then []
    else
      var it := items[|items| - 1];
      ItemRows(ls, items[..|items| - 1]) +
      match Target(ls, it) case Some(id) => [Row(StockKey(id, 1), ItemCols(it))] case None => []
  }

  /** One warning per item whose product does not exist, in order. */
  function ItemWarnings(ls: seq<SkuLink>, items: seq<StockItemInput>): seq<ItemWarning> {
    if items == [] then []
    else
      var it := items[|items| - 1];
      ItemWarnings(ls, items[..|items| - 1]) +
      if Target(ls, it).Some? then [] else [if it.sku == "" then EmptySku else NotFound(it.sku)]
  }

  function Skus(items: seq<StockItemInput>): seq<string> {
    if items == [] then []
    else Skus(items[..|items| - 1]) + if items[|items| - 1].sku == "" then [] else [items[|items| - 1].sku]
  }

  lemma {:induction false} SkusListed(items: seq<StockItemInput>, i: nat)
    requires i < |items| && items[i].sku != ""
    ensures items[i].sku in Skus(items)
    decreases |items|
  {
    if i < |items| - 1 {
      SkusListed(items[..|items| - 1], i);
    }
  }

  /** Every item is either imported or skipped with one warning. */
  lemma {:induction false} ItemAccounting(ls: seq<SkuLink>, items: seq<StockItemInput>)
    ensures |ItemRows(ls, items)| + |ItemWarnings(ls, items)| == |items|
    decreases |items|
  {
    if items != [] {
      ItemAccounting(ls, items[..|items| - 1]);
    }
  }

  /** The loop that turns items into stock rows. */
  method BuildRows(items: seq<StockItemInput>, skuToID: map<string, nat>, ghost ls: seq<SkuLink>)
    returns (rows: seq<StockRow>, result: StockImportResult)
    requires Answers(skuToID, ls, Skus(items))
    ensures rows == ItemRows(ls, items)
    ensures result.warnings == ItemWarnings(ls, items) && result.skipped == |result.warnings|
  {
    hide LastFor, Skus;
    rows, result := [], StockImportResult(0, 0, []);
    for i := 0 to |items|
      invariant rows == ItemRows(ls, items[..i])
      invariant result.warnings == ItemWarnings(ls, items[..i]) && result.skipped == |result.warnings|
    {
      assert items[..i + 1][..i] == items[..i];
      var it := items[i];
      if it.sku == "" {
        result := result.(skipped := result.skipped + 1, warnings := result.warnings + [EmptySku]);
        continue;
      }
      SkusListed(items, i);
      if it.sku !in skuToID {
        result := result.(skipped := result.skipped + 1, warnings := result.warnings + [NotFound(it.sku)]);
        continue;
      }
      var item := DEFAULTS;
      if it.qty.Some? {
        item := item.(qty := it.qty.value);
      }
      if it.isInStock.Some? {
        item := item.(isInStock := it.isInStock.value);
      }
      if it.manageStock.Some? {
        item := item.(manageStock := it.manageStock.value);
      }
      if it.minQty.Some? {
        item := item.(minQty := it.minQty.value);
      }
      if it.minSaleQty.Some? {
        item := item.(minSaleQty := it.minSaleQty.value);
      }
      if it.maxSaleQty.Some? {
        item := item.(maxSaleQty := it.maxSaleQty.value);
      }
      rows := rows + [Row(StockKey(skuToID[it.sku], 1), item)];
    }
    assert items[..|items|] == items;
  }

  function BatchSize(batchSize: int): (n: nat)
    ensures n > 0 && (n == batchSize || (batchSize <= 0 && n == 500))
  {
    if batchSize <= 0 then 500 else batchSize
  }

  /**
   `ImportStockJSON`: resolve, build, upsert; the counters add up to the number of items. On an error the table
   is as it was, if the ORM runs its batches in a transaction, or else the batches before the failing one are in it.
   */
  method ImportStockJSON<R>(products: seq<ProductRow>, store: TableStore<StockKey, StockCols, R>,
                            items: seq<StockItemInput>, batchSize: int, transactions: bool, fails: nat -> bool)
    returns (outcome: Outcome)
    modifies store`rows
    ensures var rows := ItemRows(Links(products, false), items);
            match outcome
            case Ok(r) =>
              && store.rows == UpsertAll(old(store.rows), rows, store.dflt)
              && r.imported == |rows| && r.imported + r.skipped == |items|
              && r.warnings == ItemWarnings(Links(products, false), items) && |r.warnings| == r.skipped
            case UpsertError =>
              exists sent: seq<seq<StockRow>> ::
                var chunks := Chunks(rows, BatchSize(batchSize));
                && sent <= chunks && |sent| < |chunks| && fails(|sent|) && (forall i :: 0 <= i < |sent| ==> !fails(i))
                && store.rows == if transactions then old(store.rows)
                                 else UpsertAll(old(store.rows), Flatten(sent), store.dflt)
  {
    hide Answers, Links, UpsertAll, ItemRows, ItemWarnings;
    var n := BatchSize(batchSize);
    var skus := [];
    for i := 0 to |items|
      invariant skus == Skus(items[..i])
    {
      assert items[..i + 1][..i] == items[..i];
      if items[i].sku != "" {
        skus := skus + [items[i].sku];
      }
    }
    assert items[..|items|] == items;
    var skuToID := LookupSKUs(products, false, skus, n);
    ghost var ls := Links(products, false);
    var rows, result := BuildRows(items, skuToID, ls);
    ItemAccounting(ls, items);
    if |rows| > 0 {
      var err, sent := CreateInBatches(store, rows, n, transactions, fails);
      if err {
        return UpsertError;
      }
    } else {
      NoRows(store.rows, store.dflt);
    }
    outcome := Ok(result.(imported := |rows|));
  }

  lemma NoRows<K, C, R>(t: Table<K, C, R>, dflt: R)
    ensures UpsertAll(t, [], dflt) == t
  {
  }

  // ----- what the items say -----

  /** Every column of the row is the field of the item with its name, or its default. */
  lemma ItemColumns(it: StockItemInput)
    ensures var v := ItemCols(it);
            && v.qty == (match it.qty case Some(x) => x case None => 0)
            && v.isInStock == (match it.isInStock case Some(x) => x case None => 1)
            && v.manageStock == (match it.manageStock case Some(x) => x case None => 1)
            && v.minQty == (match it.minQty case Some(x) => x case None => 0)
            && v.minSaleQty == (match it.minSaleQty case Some(x) => x case None => 0)
            && v.maxSaleQty == (match it.maxSaleQty case Some(x) => x case None => 0)
  {
  }

  lemma {:induction false} LastItem(ls: seq<SkuLink>, items: seq<StockItemInput>, i: nat, id: nat)
    requires i < |items| && items[i].sku != "" && LastFor(ls, items[i].sku) == Some(id)
    requires forall j :: i < j < |items| && items[j].sku != "" ==> LastFor(ls, items[j].sku) != Some(id)
    ensures LastFor(ItemRows(ls, items), StockKey(id, 1)) == Some(ItemCols(items[i]))
    decreases |items|
  {
    hide ItemCols;
    var n := |items| - 1;
    var before := ItemRows(ls, items[..n]);
    var x := Target(ls, items[n]);
    if x.Some? {
      LastForAppend(before, [Row(StockKey(x.value, 1), ItemCols(items[n]))], StockKey(id, 1));
      LastForOne(Row(StockKey(x.value, 1), ItemCols(items[n])), StockKey(id, 1));
    } else {
      assert before + [] == before;
    }
    if i < n {
      LastItem(ls, items[..n], i, id);
    }
  }

  /** After the import an existing product has the stock values of the last item with its exact SKU. */
  lemma LastItemWins<R>(t: Table<StockKey, StockCols, R>, dflt: R, ls: seq<SkuLink>, items: seq<StockItemInput>,
                        i: nat, id: nat)
    requires i < |items| && items[i].sku != "" && LastFor(ls, items[i].sku) == Some(id)
    requires forall j :: i < j < |items| && items[j].sku != "" ==> LastFor(ls, items[j].sku) != Some(id)
    ensures var after := UpsertAll(t, ItemRows(ls, items), dflt);
            var key := StockKey(id, 1);
            key in after && after[key] == Stored(ItemCols(items[i]), if key in t then t[key].kept else dflt)
  {
    hide ItemCols, ItemRows, LastFor, UpsertAll;
    LastItem(ls, items, i, id);
    UpsertAllAt(t, ItemRows(ls, items), dflt, StockKey(id, 1));
  }

  /** The warnings name the items without a SKU and those whose SKU does not exist. */
  lemma {:induction false} ItemWarned(ls: seq<SkuLink>, items: seq<StockItemInput>, w: ItemWarning)
    ensures w in ItemWarnings(ls, items) <==>
            exists i :: 0 <= i < |items| &&
                        if items[i].sku == "" then w == EmptySku
                        else LastFor(ls, items[i].sku).None? && w == NotFound(items[i].sku)
    decreases |items|
  {
    hide LastFor;
    if items != [] {
      var n := |items| - 1;
      ItemWarned(ls, items[..n], w);
      assert forall i :: 0 <= i < n ==> items[..n][i] == items[i];
    }
  }
}
