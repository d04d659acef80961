/** The chunked upsert loop (`rawBatchUpsert`) on a mutable table. */
module BatchUpsert {
  import opened Batching
  import opened Tables

  /** A database table; `Exec` is one multi-row upsert statement, atomic and possibly failing. */
  class TableStore<K(==), C, R> {
    var rows: Table<K, C, R>
    const dflt: R

    constructor (rows: Table<K, C, R>, dflt: R)
      ensures this.rows == rows && this.dflt == dflt
    {
      this.rows, this.dflt := rows, dflt;
    }

    method Exec(chunk: seq<Row<K, C>>, fails: bool) returns (err: bool)
      modifies this`rows
      ensures err == fails
      ensures rows == if err then old(rows) else UpsertAll(old(rows), chunk, dflt)
    {
      err := fails;
      if !fails {
        UpsertRows(chunk);
      }
    }

    /** The rows of one statement take effect in order. */
    method UpsertRows(chunk: seq<Row<K, C>>)
      modifies this`rows
      ensures rows == UpsertAll(old(rows), chunk, dflt)
    {
      for i := 0 to |chunk|
        invariant rows == UpsertAll(old(rows), chunk[..i], dflt)
      {
        assert chunk[..i + 1] == chunk[..i] + [chunk[i]];
        UpsertAllSnoc(old(rows), chunk[..i], chunk[i], dflt);
        rows := Upsert(rows, chunk[i], dflt);
      }
      assert chunk[..|chunk|] == chunk;
    }
  }

  /**
   `rawBatchUpsert`: one statement per chunk, stopping at the first error. `fails(i)` says whether
   statement `i` fails. Without an error the whole list is in the table; with one, exactly the chunks before it.
   */
  method RawBatchUpsert<K, C, R>(store: TableStore<K, C, R>, rows: seq<Row<K, C>>, batchSize: nat, fails: nat -> bool)
    returns (err: bool, sent: seq<seq<Row<K, C>>>)
    requires batchSize > 0
    modifies store`rows
    ensures store.rows == UpsertAll(old(store.rows), Flatten(sent), store.dflt)
    ensures if err then sent <= Chunks(rows, batchSize) else sent == Chunks(rows, batchSize)
    ensures err ==> |sent| < |Chunks(rows, batchSize)| && fails(|sent|)
    ensures forall i :: 0 <= i < |sent| ==> !fails(i)
    ensures !err ==> store.rows == UpsertAll(old(store.rows), rows, store.dflt)
  {
    hide Flatten, UpsertAll, Chunks;
    err, sent := false, [];
    SentNothing(store.rows, store.dflt);
    ghost var all := Chunks(rows, batchSize);
    var i := 0;
    while i < |rows|
      invariant 0 <= i
      invariant all == sent + Chunks(rows[Min(i, |rows|)..], batchSize)
      invariant store.rows == UpsertAll(old(store.rows), Flatten(sent), store.dflt)
      invariant forall j :: 0 <= j < |sent| ==> !fails(j)
      decreases |rows| - i
    {
      var end := i + batchSize;
      if end > |rows| {
        end := |rows|;
      }
      var chunk := rows[i..end];
      NextChunk(rows, batchSize, i);
      ghost var rest := Chunks(rows[end..], batchSize);
      assert all == sent + ([chunk] + rest);
      err := store.Exec(chunk, fails(|sent|));
      if err {
        assert all[|sent|] == chunk;
        return;
      }
      FlattenSnoc(sent, chunk);
      UpsertAllAppend(old(store.rows), Flatten(sent), chunk, store.dflt);
      assert sent + ([chunk] + rest) == (sent + [chunk]) + rest;
      sent := sent + [chunk];
      i := i + batchSize;
    }
    NoChunkLeft(rows, batchSize, i);
    assert sent + [] == sent;
    ChunksPartition(rows, batchSize);
  }

  /**
   The batches of the ORM (`CreateInBatches`): the same loop, which a failure undoes if the ORM runs it in a
   transaction.
   */
  method CreateInBatches<K, C, R>(store: TableStore<K, C, R>, rows: seq<Row<K, C>>, batchSize: nat, transactions: bool,
                                  fails: nat -> bool)
    returns (err: bool, sent: seq<seq<Row<K, C>>>)
    requires batchSize > 0
    modifies store`rows
    ensures if err then sent <= Chunks(rows, batchSize) else sent == Chunks(rows, batchSize)
    ensures err ==> |sent| < |Chunks(rows, batchSize)| && fails(|sent|)
    ensures forall i :: 0 <= i < |sent| ==> !fails(i)
    ensures !err ==> store.rows == UpsertAll(old(store.rows), rows, store.dflt)
    ensures err && transactions ==> store.rows == old(store.rows)
    ensures err && !transactions ==> store.rows == UpsertAll(old(store.rows), Flatten(sent), store.dflt)
  {
    hide Flatten, UpsertAll, Chunks;
    var begun := store.rows;
    err, sent := RawBatchUpsert(store, rows, batchSize, fails);
    if err && transactions {
      store.rows := begun;
    }
  }

  lemma SentNothing<K, C, R>(t: Table<K, C, R>, dflt: R)
    ensures t == UpsertAll(t, Flatten([]), dflt)
  {
  }
}
