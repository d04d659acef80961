/**
 A table written by multi-row upserts: `INSERT ... ON CONFLICT(key) DO UPDATE SET cols`.
 A conflicting row overwrites the listed columns and keeps every other column as it was stored.
 */
module Tables {
  import opened Text

  datatype Row<K, C> = Row(key: K, cols: C)
  /** `kept` stands for the columns that the conflict clause does not list. */
  datatype Stored<C, R> = Stored(cols: C, kept: R)
  type Table<K, C, R> = map<K, Stored<C, R>>

  /** One row of one statement; `dflt` is what the unlisted columns get on a first insert. */
  function Upsert<K, C, R>(t: Table<K, C, R>, row: Row<K, C>, dflt: R): Table<K, C, R> {
    t[row.key := Stored(row.cols, if row.key in t then t[row.key].kept else dflt)]
  }

  /** The rows of a statement, or of several statements, in order. */
  function UpsertAll<K, C, R>(t: Table<K, C, R>, rows: seq<Row<K, C>>, dflt: R): Table<K, C, R>
    decreases |rows|
  {
    if rows == [] then t else UpsertAll(Upsert(t, rows[0], dflt), rows[1..], dflt)
  }

  /** The last row written for a key. */
  function LastFor<K(==), C>(rows: seq<Row<K, C>>, k: K): Option<C> {
    if rows == [] then None
    else if rows[|rows| - 1].key == k then Some(rows[|rows| - 1].cols)
    else LastFor(rows[..|rows| - 1], k)
  }

  predicate Covers<K(==), C>(rows: seq<Row<K, C>>, k: K) {
    exists i :: 0 <= i < |rows| && rows[i].key == k
  }

  lemma {:induction false} UpsertAllAppend<K, C, R>(t: Table<K, C, R>, a: seq<Row<K, C>>, b: seq<Row<K, C>>, dflt: R)
    ensures UpsertAll(t, a + b, dflt) == UpsertAll(UpsertAll(t, a, dflt), b, dflt)
    decreases |a|
  {
    if a == [] {
      assert a + b == b;
    } else {
      UpsertAllAppend(Upsert(t, a[0], dflt), a[1..], b, dflt);
      assert (a + b)[1..] == a[1..] + b;
    }
  }

  lemma UpsertAllSnoc<K, C, R>(t: Table<K, C, R>, a: seq<Row<K, C>>, r: Row<K, C>, dflt: R)
    ensures UpsertAll(t, a + [r], dflt) == Upsert(UpsertAll(t, a, dflt), r, dflt)
  {
    UpsertAllAppend(t, a, [r], dflt);
    var u := UpsertAll(t, a, dflt);
    assert [r][1..] == [];
    assert UpsertAll(u, [r], dflt) == UpsertAll(Upsert(u, r, dflt), [], dflt);
  }

  lemma {:induction false} LastForCovers<K, C>(rows: seq<Row<K, C>>, k: K)
    ensures LastFor(rows, k).Some? <==> Covers(rows, k)
  {
    if rows != [] {
      var n := |rows| - 1;
      LastForCovers(rows[..n], k);
      if Covers(rows[..n], k) {
        var i :| 0 <= i < n && rows[..n][i].key == k;
        assert rows[i].key == k;
      }
    }
  }

  lemma {:induction false} LastForAppend<K, C>(a: seq<Row<K, C>>, b: seq<Row<K, C>>, k: K)
    ensures LastFor(a + b, k) == if LastFor(b, k).Some? then LastFor(b, k) else LastFor(a, k)
    decreases |b|
  {
    if b == [] {
      assert a + b == a;
    } else {
      LastForAppend(a, b[..|b| - 1], k);
      assert (a + b)[..|a + b| - 1] == a + b[..|b| - 1];
    }
  }

  lemma LastForOne<K, C>(r: Row<K, C>, k: K)
    ensures LastFor([r], k) == if r.key == k then Some(r.cols) else None
  {
    assert [r][..0] == [];
  }

  /** The content of an upserted table, key by key: the last writer wins, the unlisted columns stay. */
  lemma {:induction false} UpsertAllAt<K, C, R>(t: Table<K, C, R>, rows: seq<Row<K, C>>, dflt: R, k: K)
    ensures k in UpsertAll(t, rows, dflt) <==> k in t || LastFor(rows, k).Some?
    ensures k in UpsertAll(t, rows, dflt) ==>
              UpsertAll(t, rows, dflt)[k] ==
              Stored(if LastFor(rows, k).Some? then LastFor(rows, k).value else t[k].cols,
                     if k in t then t[k].kept else dflt)
    decreases |rows|
  {
    if rows != [] {
      var n := |rows| - 1;
      UpsertAllAt(t, rows[..n], dflt, k);
      UpsertAllSnoc(t, rows[..n], rows[n], dflt);
      assert rows == rows[..n] + [rows[n]];
    }
  }

  /**
   Writing any rows whose keys all occur in `full`, and then `full`, is the same as writing `full`:
   what an interrupted flush left behind is overwritten by the next complete one.
   */
  lemma Absorb<K(!new), C, R>(t: Table<K, C, R>, part: seq<Row<K, C>>, full: seq<Row<K, C>>, dflt: R)
    requires forall i :: 0 <= i < |part| ==> Covers(full, part[i].key)
    ensures UpsertAll(UpsertAll(t, part, dflt), full, dflt) == UpsertAll(t, full, dflt)
  {
    var mid := UpsertAll(t, part, dflt);
    var a, b := UpsertAll(mid, full, dflt), UpsertAll(t, full, dflt);
    forall k
      ensures k in a <==> k in b
      ensures k in a ==> a[k] == b[k]
    {
      UpsertAllAt(mid, full, dflt, k);
      UpsertAllAt(t, full, dflt, k);
      UpsertAllAt(t, part, dflt, k);
      LastForCovers(full, k);
      LastForCovers(part, k);
    }
    assert a == b;
  }

  /** Two row lists that agree on the last row of every key leave the same table. */
  lemma SameLastSameTable<K(!new), C, R>(t: Table<K, C, R>, a: seq<Row<K, C>>, b: seq<Row<K, C>>, dflt: R)
    requires forall k :: LastFor(a, k) == LastFor(b, k)
    ensures UpsertAll(t, a, dflt) == UpsertAll(t, b, dflt)
  {
    var ta, tb := UpsertAll(t, a, dflt), UpsertAll(t, b, dflt);
    forall k
      ensures k in ta <==> k in tb
      ensures k in ta ==> ta[k] == tb[k]
    {
      UpsertAllAt(t, a, dflt, k);
      UpsertAllAt(t, b, dflt, k);
      assert LastFor(a, k) == LastFor(b, k);
    }
    assert ta == tb;
  }

  /** A key that only the second row list writes, and that was not in the table, tells the two tables apart. */
  lemma ForeignKeyTells<K, C, R>(t: Table<K, C, R>, other: Table<K, C, R>, a: seq<Row<K, C>>, b: seq<Row<K, C>>,
                                 dflt: R, k: K)
    requires k !in t && LastFor(a, k).None? && LastFor(b, k).Some?
    ensures UpsertAll(other, b, dflt) != UpsertAll(t, a, dflt)
  {
    UpsertAllAt(t, a, dflt, k);
    UpsertAllAt(other, b, dflt, k);
  }
}
