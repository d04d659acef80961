/** Media gallery entries from a CSV sheet (`collectGallery`): deduplicated, in order of first appearance. */
module ImportGallery {
  import opened Text
  import opened CsvSheet

  const IMAGE_COLUMNS: seq<string> := ["image", "small_image", "thumbnail", "media_gallery"]

  /** One image named by one product row. */
  datatype Occurrence = Occurrence(sku: string, img: string)

  /** The key of the `seen` map. */
  function Key(o: Occurrence): string {
    o.sku + ":" + o.img
  }

  function PartOccurrences(sku: string, parts: seq<string>): seq<Occurrence> {
    if parts == [] then []
    else
      var img := TrimSpace(parts[|parts| - 1]);
      PartOccurrences(sku, parts[..|parts| - 1]) + if img == "" then [] else [Occurrence(sku, img)]
  }

  function ColumnOccurrences(sheet: Sheet, row: CsvRow, cols: seq<string>): seq<Occurrence> {
    if cols == [] then []
    else
      var val := sheet.Cell(row, cols[|cols| - 1]);
      ColumnOccurrences(sheet, row, cols[..|cols| - 1]) +
      if val == "" then [] else PartOccurrences(sheet.Sku(row), Split(val, '|'))
  }

  /** Every image the sheet names for a known product, in reading order. */
  function Occurrences(sheet: Sheet, rows: seq<CsvRow>): seq<Occurrence> {
    if rows == [] then []
    else
      var row := rows[|rows| - 1];
      Occurrences(sheet, rows[..|rows| - 1]) +
      if sheet.Link(row).None? then [] else ColumnOccurrences(sheet, row, IMAGE_COLUMNS)
  }

  function Keys(occ: seq<Occurrence>): set<string> {
    set o | o in occ :: Key(o)
  }

  /** The occurrences whose key has not been seen before them. */
  function FirstSeen(occ: seq<Occurrence>): seq<Occurrence> {
    if occ == [] then []
    else
      var before := occ[..|occ| - 1];
      FirstSeen(before) + if Key(occ[|occ| - 1]) in Keys(before) then [] else [occ[|occ| - 1]]
  }

  function Images(occ: seq<Occurrence>): seq<string> {
    seq(|occ|, i requires 0 <= i < |occ| => occ[i].img)
  }

  lemma KeysAppend(a: seq<Occurrence>, o: Occurrence)
    ensures Keys(a + [o]) == Keys(a) + {Key(o)}
  {
    assert forall x :: x in a + [o] <==> x in a || x == o;
  }

  ghost predicate DistinctKeys(occ: seq<Occurrence>) {
    forall i, j :: 0 <= i < j < |occ| ==> Key(occ[i]) != Key(occ[j])
  }

  lemma DistinctMore(kept: seq<Occurrence>, o: Occurrence)
    requires DistinctKeys(kept) && Key(o) !in Keys(kept)
    ensures DistinctKeys(kept + [o])
  {
    hide Key;
    forall i | 0 <= i < |kept|
      ensures Key(kept[i]) != Key(o)
    {
      assert kept[i] in kept;
    }
  }

  /** The kept occurrences hold every key once. */
  lemma {:induction false} KeptOnce(occ: seq<Occurrence>)
    ensures Keys(FirstSeen(occ)) == Keys(occ)
    ensures |FirstSeen(occ)| == |Keys(occ)|
    ensures DistinctKeys(FirstSeen(occ))
    decreases |occ|
  {
    hide Key, Keys, DistinctKeys;
    if occ == [] {
      NothingKept();
    } else {
      var n := |occ| - 1;
      var kept := FirstSeen(occ[..n]);
      KeptOnce(occ[..n]);
      assert occ == occ[..n] + [occ[n]];
      KeysAppend(occ[..n], occ[n]);
      if Key(occ[n]) in Keys(occ[..n]) {
        assert kept + [] == kept;
        assert Keys(occ[..n]) + {Key(occ[n])} == Keys(occ[..n]);
      } else {
        KeysAppend(kept, occ[n]);
        DistinctMore(kept, occ[n]);
      }
    }
  }

  lemma NothingKept()
    ensures Keys([]) == {} && DistinctKeys([])
  {
  }

  /**
   Position `at[i]` of the sheet's images is where kept image `i` comes from: order is preserved, the first one stays.
   */
  ghost predicate KeepsFirst(occ: seq<Occurrence>, kept: seq<Occurrence>, at: seq<nat>) {
    && |at| == |kept|
    && (forall i :: 0 <= i < |at| ==> at[i] < |occ| && occ[at[i]] == kept[i])
    && (forall i, j :: 0 <= i < j < |at| ==> at[i] < at[j])
    && (forall i, m :: 0 <= i < |at| && 0 <= m < at[i] ==> Key(occ[m]) != Key(kept[i]))
  }

  lemma KeepsNothing()
    ensures KeepsFirst([], [], [])
  {
  }

  lemma KeepsFirstMore(occ: seq<Occurrence>, kept: seq<Occurrence>, at: seq<nat>, o: Occurrence)
    requires KeepsFirst(occ, kept, at)
    ensures KeepsFirst(occ + [o], kept, at)
  {
  }

  lemma KeepsFirstNew(occ: seq<Occurrence>, kept: seq<Occurrence>, at: seq<nat>, o: Occurrence)
    requires KeepsFirst(occ, kept, at) && Key(o) !in Keys(occ)
    ensures KeepsFirst(occ + [o], kept + [o], at + [|occ|])
  {
    hide Key;
    forall m | 0 <= m < |occ|
      ensures Key(occ[m]) != Key(o)
    {
      assert occ[m] in occ;
    }
  }

  lemma {:induction false} OrderPreserved(occ: seq<Occurrence>) returns (at: seq<nat>)
    ensures KeepsFirst(occ, FirstSeen(occ), at)
    decreases |occ|
  {
    hide Key, KeepsFirst;
    if occ == [] {
      at := [];
      assert KeepsFirst([], [], []) by { KeepsNothing(); }
    } else {
      var n := |occ| - 1;
      at := OrderPreserved(occ[..n]);
      var kept := FirstSeen(occ[..n]);
      assert occ == occ[..n] + [occ[n]];
      if Key(occ[n]) in Keys(occ[..n]) {
        assert FirstSeen(occ) == kept;
        KeepsFirstMore(occ[..n], kept, at, occ[n]);
      } else {
        KeepsFirstNew(occ[..n], kept, at, occ[n]);
        at := at + [n];
      }
    }
  }

  lemma KeyHead(o: Occurrence)
    requires Free(o.sku, ':')
    ensures Split(Key(o), ':')[0] == o.sku
  {
    SplitPrefix(o.sku, ":" + o.img, ':');
    assert Key(o) == o.sku + (":" + o.img);
    assert (":" + o.img)[1..] == o.img;
    assert o.sku + "" == o.sku;
  }

  /** Without a colon in the SKUs, two occurrences share a key only if they are the same image of the same SKU. */
  lemma KeyInjective(a: Occurrence, b: Occurrence)
    requires Free(a.sku, ':') && Free(b.sku, ':') && Key(a) == Key(b)
    ensures a == b
  {
    KeyHead(a);
    KeyHead(b);
    assert Key(a)[|a.sku| + 1..] == a.img && Key(b)[|b.sku| + 1..] == b.img;
  }

  lemma InjectiveKeysCount(pairs: set<Occurrence>)
    requires forall a, b :: a in pairs && b in pairs && Key(a) == Key(b) ==> a == b
    ensures |set o | o in pairs :: Key(o)| == |pairs|
  {
    if pairs != {} {
      var p :| p in pairs;
      var rest := pairs - {p};
      InjectiveKeysCount(rest);
      var ks := set o | o in rest :: Key(o);
      assert Key(p) !in ks;
      assert (set o | o in pairs :: Key(o)) == ks + {Key(p)};
    }
  }

  lemma KeyCountBound(pairs: set<Occurrence>)
    ensures |set o | o in pairs :: Key(o)| <= |pairs|
  {
    if pairs != {} {
      var p :| p in pairs;
      KeyCountBound(pairs - {p});
      assert (set o | o in pairs :: Key(o)) == (set o | o in pairs - {p} :: Key(o)) + {Key(p)};
    }
  }

  /**
   One row per distinct (SKU, image) pair is written exactly when no two pairs of the sheet share a `seen` key;
   `a:b` + `c` and `a` + `b:c` do, and then one of the two images is lost.
   */
  lemma OneRowPerPair(occ: seq<Occurrence>)
    ensures |FirstSeen(occ)| == |set o | o in occ| <==>
            forall a, b :: a in occ && b in occ && Key(a) == Key(b) ==> a == b
  {
    KeptOnce(occ);
    var pairs := set o | o in occ;
    assert Keys(occ) == set o | o in pairs :: Key(o);
    if forall a, b :: a in occ && b in occ && Key(a) == Key(b) ==> a == b {
      InjectiveKeysCount(pairs);
    } else {
      var a, b :| a in occ && b in occ && Key(a) == Key(b) && a != b;
      var rest := pairs - {a};
      KeyCountBound(rest);
      assert b in rest;
      assert (set o | o in pairs :: Key(o)) == set o | o in rest :: Key(o);
    }
  }

  /** The `seen` key of two different pairs can be the same. */
  lemma KeysCollide()
    ensures Key(Occurrence("a:b", "c")) == Key(Occurrence("a", "b:c"))
  {
    assert Key(Occurrence("a:b", "c")) == "a:b:c" == Key(Occurrence("a", "b:c"));
  }

  // ----- the collector -----

  /** The innermost loop: the images of one cell. */
  method CollectCell(sku: string, parts: seq<string>, seen0: set<string>, rows0: seq<string>,
                     ghost occ: seq<Occurrence>)
    returns (seen: set<string>, rows: seq<string>)
    requires seen0 == Keys(occ) && rows0 == Images(FirstSeen(occ))
    ensures seen == Keys(occ + PartOccurrences(sku, parts))
    ensures rows == Images(FirstSeen(occ + PartOccurrences(sku, parts)))
  {
    hide TrimSpace, FirstSeen;
    seen, rows := seen0, rows0;
    assert occ + [] == occ;
    for i := 0 to |parts|
      invariant seen == Keys(occ + PartOccurrences(sku, parts[..i]))
      invariant rows == Images(FirstSeen(occ + PartOccurrences(sku, parts[..i])))
    {
      assert parts[..i + 1][..i] == parts[..i];
      ghost var before := occ + PartOccurrences(sku, parts[..i]);
      var img := TrimSpace(parts[i]);
      if img != "" {
        var key := sku + ":" + img;
        ghost var o := Occurrence(sku, img);
        assert occ + PartOccurrences(sku, parts[..i + 1]) == before + [o];
        Push(before, o);
        if key !in seen {
          rows := rows + [img];
        }
        seen := seen + {key};
      } else {
        assert occ + PartOccurrences(sku, parts[..i + 1]) == before;
      }
    }
    assert parts[..|parts|] == parts;
  }

  lemma {:induction false} Push(before: seq<Occurrence>, o: Occurrence)
    ensures Keys(before + [o]) == Keys(before) + {Key(o)}
    ensures Images(FirstSeen(before + [o])) ==
            Images(FirstSeen(before)) + if Key(o) in Keys(before) then [] else [o.img]
  {
    hide Key, Keys;
    KeysAppend(before, o);
    assert (before + [o])[..|before|] == before;
    var kept := FirstSeen(before);
    if Key(o) in Keys(before) {
      assert kept + [] == kept;
      assert Images(kept) + [] == Images(kept);
    } else {
      assert Images(kept + [o]) == Images(kept) + [o.img];
    }
  }

  /** The loop over the image columns of one row. */
  method CollectRow(sheet: Sheet, row: CsvRow, seen0: set<string>, rows0: seq<string>, ghost occ: seq<Occurrence>)
    returns (seen: set<string>, rows: seq<string>)
    requires seen0 == Keys(occ) && rows0 == Images(FirstSeen(occ))
    ensures seen == Keys(occ + ColumnOccurrences(sheet, row, IMAGE_COLUMNS))
    ensures rows == Images(FirstSeen(occ + ColumnOccurrences(sheet, row, IMAGE_COLUMNS)))
  {
    hide Sheet.Cell, Sheet.Sku, FirstSeen, PartOccurrences, Images, Keys;
    seen, rows := seen0, rows0;
    assert occ + [] == occ;
    for i := 0 to |IMAGE_COLUMNS|
      invariant seen == Keys(occ + ColumnOccurrences(sheet, row, IMAGE_COLUMNS[..i]))
      invariant rows == Images(FirstSeen(occ + ColumnOccurrences(sheet, row, IMAGE_COLUMNS[..i])))
    {
      assert IMAGE_COLUMNS[..i + 1][..i] == IMAGE_COLUMNS[..i];
      ghost var before := occ + ColumnOccurrences(sheet, row, IMAGE_COLUMNS[..i]);
      var val := sheet.Cell(row, IMAGE_COLUMNS[i]);
      if val != "" {
        assert occ + ColumnOccurrences(sheet, row, IMAGE_COLUMNS[..i + 1]) ==
               before + PartOccurrences(sheet.Sku(row), Split(val, '|'));
        seen, rows := CollectCell(sheet.Sku(row), Split(val, '|'), seen, rows, before);
      } else {
        assert occ + ColumnOccurrences(sheet, row, IMAGE_COLUMNS[..i + 1]) == before;
      }
    }
    assert IMAGE_COLUMNS[..|IMAGE_COLUMNS|] == IMAGE_COLUMNS;
  }

  /** `collectGallery`: the values of the gallery rows, in insertion order. */
  method CollectGallery(rows: seq<CsvRow>, sheet: Sheet) returns (values: seq<string>)
    ensures values == Images(FirstSeen(Occurrences(sheet, rows)))
  {
    hide Sheet.Cell, Sheet.Link, FirstSeen, ColumnOccurrences;
    values := [];
    var seen := {};
    assert FirstSeen([]) == [] by { NothingSeen(); }
    if forall col :: col in IMAGE_COLUMNS ==> col !in sheet.colIndex {
      NoImageColumns(sheet, rows);
      return;
    }
    for i := 0 to |rows|
      invariant seen == Keys(Occurrences(sheet, rows[..i]))
      invariant values == Images(FirstSeen(Occurrences(sheet, rows[..i])))
    {
      assert rows[..i + 1][..i] == rows[..i];
      ghost var before := Occurrences(sheet, rows[..i]);
      if sheet.Link(rows[i]).Some? {
        seen, values := CollectRow(sheet, rows[i], seen, values, before);
      } else {
        assert before + [] == before;
      }
    }
    assert rows[..|rows|] == rows;
  }

  lemma NothingSeen()
    ensures FirstSeen([]) == []
  {
  }

  lemma {:induction false} NoCells(sheet: Sheet, row: CsvRow, cols: seq<string>)
    requires forall col :: col in cols ==> col !in sheet.colIndex
    ensures ColumnOccurrences(sheet, row, cols) == []
    decreases |cols|
  {
    if cols != [] {
      NoCells(sheet, row, cols[..|cols| - 1]);
    }
  }

  lemma {:induction false} NoImageColumns(sheet: Sheet, rows: seq<CsvRow>)
    requires forall col :: col in IMAGE_COLUMNS ==> col !in sheet.colIndex
    ensures Occurrences(sheet, rows) == []
    decreases |rows|
  {
    if rows != [] {
      NoImageColumns(sheet, rows[..|rows| - 1]);
      NoCells(sheet, rows[|rows| - 1], IMAGE_COLUMNS);
    }
  }
}
