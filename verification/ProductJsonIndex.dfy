/** The JSON index command (`cmd/product_json.go`): products are buffered into insert and update batches. */
module ProductJsonIndex {
  import opened Text
  import opened Batching
  import opened Uid

  const BATCH_SIZE: nat := 100

  /** A row of `product_json`. */
  datatype JsonRow<J> = JsonRow(id: nat, entityID: nat, storeID: nat, attributes: J)

  // ----- the composite key -----

  /** `fmt.Sprintf("%d_%d", entity, store)` */
  function Key(entity: nat, store: nat): string {
    FormatUint(entity) + "_" + FormatUint(store)
  }

  lemma KeyInjective(e1: nat, s1: nat, e2: nat, s2: nat)
    requires Key(e1, s1) == Key(e2, s2)
    ensures e1 == e2 && s1 == s2
  {
    hide FormatUint;
    KeyParts(e1, s1);
    KeyParts(e2, s2);
    FormatUintInjective(e1, e2);
    FormatUintInjective(s1, s2);
  }

  lemma KeyParts(e: nat, s: nat)
    ensures Split(Key(e, s), '_') == [FormatUint(e), FormatUint(s)]
  {
    hide FormatUint, Split;
    FormatUintValue(e);
    FormatUintValue(s);
    var parts := [FormatUint(e), FormatUint(s)];
    assert parts[1..] == [FormatUint(s)];
    assert Join(parts, '_') == Key(e, s);
    SplitJoin(parts, '_');
  }

  /** `existingEntries`: the last row of each key. */
  function IndexMap<J>(existing: seq<JsonRow<J>>): map<string, nat> {
    if existing == [] then map[]
    else
      var n := |existing| - 1;
      IndexMap(existing[..n])[Key(existing[n].entityID, existing[n].storeID) := n]
  }

  predicate Exists<J>(existing: seq<JsonRow<J>>, entity: nat) {
    exists i :: 0 <= i < |existing| && existing[i].entityID == entity && existing[i].storeID == 0
  }

  /** The map finds a row exactly for the products that have one for store 0. */
  lemma {:induction false} IndexMapFinds<J>(existing: seq<JsonRow<J>>, entity: nat)
    ensures Key(entity, 0) in IndexMap(existing) <==> Exists(existing, entity)
    ensures Key(entity, 0) in IndexMap(existing) ==>
              var i := IndexMap(existing)[Key(entity, 0)];
              && i < |existing| && existing[i].entityID == entity && existing[i].storeID == 0
              && forall j :: i < j < |existing| ==> existing[j].entityID != entity || existing[j].storeID != 0
    decreases |existing|
  {
    hide Key;
    if existing != [] {
      var n := |existing| - 1;
      IndexMapFinds(existing[..n], entity);
      if Key(existing[n].entityID, existing[n].storeID) == Key(entity, 0) {
        KeyInjective(existing[n].entityID, existing[n].storeID, entity, 0);
        assert Exists(existing, entity);
      } else if Exists(existing, entity) {
        var i :| 0 <= i < |existing| && existing[i].entityID == entity && existing[i].storeID == 0;
        assert existing[..n][i] == existing[i];
      }
    }
  }

  // ----- what is written for an iteration order -----

  /** The products and how they are marshalled; None is a marshalling error. */
  datatype Input<A, J> = Input(flat: map<nat, A>, existing: seq<JsonRow<J>>, json: map<nat, J>)

  predicate Valid<A, J>(c: Input<A, J>) {
    c.json.Keys <= c.flat.Keys
  }

  /** The row to insert for a product without one. */
  function InsertOf<A, J>(c: Input<A, J>, id: nat): seq<JsonRow<J>> {
    if id in c.json && Key(id, 0) !in IndexMap(c.existing) then [JsonRow(0, id, 0, c.json[id])] else []
  }

  /** The existing row of a product, with new attributes. */
  function UpdateOf<A, J>(c: Input<A, J>, id: nat): seq<JsonRow<J>> {
    if id in c.json && Key(id, 0) in IndexMap(c.existing) then
      IndexMapFinds(c.existing, id);
      [c.existing[IndexMap(c.existing)[Key(id, 0)]].(attributes := c.json[id])]
    else []
  }

  function Inserts<A, J>(c: Input<A, J>, order: seq<nat>): seq<JsonRow<J>> {
    if order == [] then [] else Inserts(c, order[..|order| - 1]) + InsertOf(c, order[|order| - 1])
  }

  function Updates<A, J>(c: Input<A, J>, order: seq<nat>): seq<JsonRow<J>> {
    if order == [] then [] else Updates(c, order[..|order| - 1]) + UpdateOf(c, order[|order| - 1])
  }

  /** A new row for a product without one, with its new attributes. */
  ghost predicate NewRow<A, J>(c: Input<A, J>, r: JsonRow<J>) {
    && r.id == 0 && r.storeID == 0 && !Exists(c.existing, r.entityID)
    && r.entityID in c.json && r.attributes == c.json[r.entityID]
  }

  /** The last existing row of a product for store 0, with its new attributes. */
  ghost predicate ChangedRow<A, J>(c: Input<A, J>, r: JsonRow<J>) {
    && r.storeID == 0 && r.entityID in c.json && r.attributes == c.json[r.entityID]
    && exists i :: 0 <= i < |c.existing| && c.existing[i].id == r.id && c.existing[i].entityID == r.entityID &&
                   c.existing[i].storeID == 0 && forall j :: i < j < |c.existing| ==>
                     c.existing[j].entityID != r.entityID || c.existing[j].storeID != 0
  }

  lemma {:induction false} RowsSent<A, J>(c: Input<A, J>, order: seq<nat>)
    ensures forall r :: r in Inserts(c, order) ==> NewRow(c, r)
    ensures forall r :: r in Updates(c, order) ==> ChangedRow(c, r)
    decreases |order|
  {
    hide Key, IndexMap, Exists;
    if order != [] {
      var n := |order| - 1;
      RowsSent(c, order[..n]);
      IndexMapFinds(c.existing, order[n]);
    }
  }

  function Times<J>(rows: seq<JsonRow<J>>, entity: nat): nat {
    if rows == [] then 0 else Times(rows[..|rows| - 1], entity) + if rows[|rows| - 1].entityID == entity then 1 else 0
  }

  lemma TimesOne<J>(a: seq<JsonRow<J>>, b: seq<JsonRow<J>>, entity: nat)
    requires |b| <= 1
    ensures Times(a + b, entity) == Times(a, entity) + if b != [] && b[0].entityID == entity then 1 else 0
  {
    if b == [] {
      assert a + b == a;
    } else {
      assert (a + b)[..|a|] == a;
    }
  }

  lemma NoTimes<J>(entity: nat)
    ensures Times<J>([], entity) == 0
  {
  }

  lemma {:induction false} TimesByOrder<A, J>(c: Input<A, J>, order: seq<nat>, id: nat)
    ensures Times(Inserts(c, order), id) == if id in c.json && !Exists(c.existing, id) then multiset(order)[id] else 0
    ensures Times(Updates(c, order), id) == if id in c.json && Exists(c.existing, id) then multiset(order)[id] else 0
    decreases |order|
  {
    hide Exists, Key, IndexMap, Times;
    if order != [] {
      var n := |order| - 1;
      TimesByOrder(c, order[..n], id);
      IndexMapFinds(c.existing, id);
      IndexMapFinds(c.existing, order[n]);
      assert order == order[..n] + [order[n]];
      TimesOne(Inserts(c, order[..n]), InsertOf(c, order[n]), id);
      TimesOne(Updates(c, order[..n]), UpdateOf(c, order[n]), id);
      assert multiset(order)[id] == multiset(order[..n])[id] + if id == order[n] then 1 else 0;
    } else {
      NoTimes<J>(id);
    }
  }

  // ----- batches -----

  /** A slice that is filled, flushed and refilled in place. */
  class Buffer<T(0)> {
    const data: array<T>
    var len: nat

    ghost predicate Valid()
      reads this
    {
      len <= data.Length == BATCH_SIZE
    }

    ghost function Contents(): seq<T>
      requires Valid()
      reads this, data
    {
      data[..len]
    }

    constructor ()
      ensures Valid() && Contents() == [] && fresh(data)
    {
      data := new T[BATCH_SIZE];
      len := 0;
    }

    method Append(x: T)
      requires Valid() && len < BATCH_SIZE
      modifies this`len, data
      ensures Valid() && Contents() == old(Contents()) + [x]
    {
      data[len] := x;
      len := len + 1;
    }

    /** `batch = batch[:0]`: the array stays. */
    method Reset()
      requires Valid()
      modifies this`len
      ensures Valid() && Contents() == []
    {
      len := 0;
    }
  }

  /** Everything buffered so far is either in a full batch that was sent or still in the buffer. */
  ghost predicate Buffered<J>(sent: seq<seq<JsonRow<J>>>, left: seq<JsonRow<J>>, rows: seq<JsonRow<J>>) {
    && Flatten(sent) + left == rows
    && |left| < BATCH_SIZE
    && forall i :: 0 <= i < |sent| ==> |sent[i]| == BATCH_SIZE
  }

  /** The batches hold the rows, in order; only the last one may be short, and none is empty. */
  ghost predicate BatchesOf<J>(batches: seq<seq<JsonRow<J>>>, rows: seq<JsonRow<J>>) {
    && Flatten(batches) == rows
    && (forall i :: 0 <= i < |batches| ==> 0 < |batches[i]| <= BATCH_SIZE)
    && (forall i :: 0 <= i < |batches| - 1 ==> |batches[i]| == BATCH_SIZE)
  }

  /** Append, and flush at the threshold. */
  method Push<J(0)>(buffer: Buffer<JsonRow<J>>, row: JsonRow<J>, sent0: seq<seq<JsonRow<J>>>,
                    ghost rows: seq<JsonRow<J>>)
    returns (sent: seq<seq<JsonRow<J>>>)
    requires buffer.Valid() && Buffered(sent0, buffer.Contents(), rows)
    modifies buffer`len, buffer.data
    ensures buffer.Valid() && Buffered(sent, buffer.Contents(), rows + [row])
  {
    sent := sent0;
    buffer.Append(row);
    assert Flatten(sent0) + buffer.Contents() == rows + [row];
    if buffer.len >= BATCH_SIZE {
      FlattenSnoc(sent, buffer.Contents());
      sent := sent + [buffer.data[..buffer.len]];
      buffer.Reset();
      assert Flatten(sent) + [] == Flatten(sent);
    }
  }

  /** The final flush of what is left. */
  method Finish<J(0)>(buffer: Buffer<JsonRow<J>>, sent: seq<seq<JsonRow<J>>>, ghost rows: seq<JsonRow<J>>)
    returns (batches: seq<seq<JsonRow<J>>>)
    requires buffer.Valid() && Buffered(sent, buffer.Contents(), rows)
    ensures BatchesOf(batches, rows)
  {
    batches := sent;
    if buffer.len > 0 {
      FlattenSnoc(sent, buffer.Contents());
      batches := batches + [buffer.data[..buffer.len]];
    }
  }

  /** `bulkUpdate` cuts each batch again, but a batch is never longer than one statement. */
  lemma BatchesAreStatements<J>(batches: seq<seq<JsonRow<J>>>, rows: seq<JsonRow<J>>)
    requires BatchesOf(batches, rows)
    ensures forall i :: 0 <= i < |batches| ==> Chunks(batches[i], BATCH_SIZE) == [batches[i]]
  {
    forall i | 0 <= i < |batches|
      ensures Chunks(batches[i], BATCH_SIZE) == [batches[i]]
    {
      SingleChunk(batches[i], BATCH_SIZE);
    }
  }

  method BuildIndex<J>(existing: seq<JsonRow<J>>) returns (m: map<string, nat>)
    ensures m == IndexMap(existing)
  {
    hide Key;
    m := map[];
    for i := 0 to |existing|
      invariant m == IndexMap(existing[..i])
    {
      assert existing[..i + 1][..i] == existing[..i];
      m := m[Key(existing[i].entityID, existing[i].storeID) := i];
    }
    assert existing[..|existing|] == existing;
  }

  /**
   The command's main loop, over the products in any order. Each buffer's rows are sent in order, in batches
   of 100 but for the last one. `order` is the order in which the products were met.
   */
  method IndexProducts<A, J(0)>(c: Input<A, J>)
    returns (insertBatches: seq<seq<JsonRow<J>>>, updateBatches: seq<seq<JsonRow<J>>>, successCount: nat,
             ghost order: seq<nat>)
    requires Valid(c)
    ensures multiset(order) == multiset(c.flat.Keys)
    ensures BatchesOf(insertBatches, Inserts(c, order)) && BatchesOf(updateBatches, Updates(c, order))
    ensures successCount == |Inserts(c, order)| + |Updates(c, order)| ==
            |Flatten(insertBatches)| + |Flatten(updateBatches)|
    ensures forall id :: Times(Flatten(insertBatches), id) == if id in c.json && !Exists(c.existing, id) then 1 else 0
    ensures forall id :: Times(Flatten(updateBatches), id) == if id in c.json && Exists(c.existing, id) then 1 else 0
    ensures forall r :: r in Flatten(insertBatches) ==> NewRow(c, r)
    ensures forall r :: r in Flatten(updateBatches) ==> ChangedRow(c, r)
    ensures forall i :: 0 <= i < |insertBatches| ==> |insertBatches[i]| <= 100
    ensures forall i :: 0 <= i < |updateBatches| ==> |updateBatches[i]| <= 100
  {
    hide NewRow, ChangedRow, Buffered, Key, IndexMap, BatchesOf, Times, Exists, Flatten;
    var entries := BuildIndex(c.existing);
    var insertBuffer := new Buffer<JsonRow<J>>();
    var updateBuffer := new Buffer<JsonRow<J>>();
    insertBatches, updateBatches, successCount, order := [], [], 0, [];
    assert Buffered<J>([], [], []) by { NothingBuffered<J>(); }
    var todo := c.flat.Keys;
    ghost var done: set<nat> := {};
    while todo != {}
      invariant insertBuffer.Valid() && updateBuffer.Valid()
      invariant fresh(insertBuffer) && fresh(updateBuffer) && fresh(insertBuffer.data) && fresh(updateBuffer.data)
      invariant insertBuffer != updateBuffer && insertBuffer.data != updateBuffer.data
      invariant Buffered(insertBatches, insertBuffer.Contents(), Inserts(c, order))
      invariant Buffered(updateBatches, updateBuffer.Contents(), Updates(c, order))
      invariant successCount == |Inserts(c, order)| + |Updates(c, order)|
      invariant forall id :: id in todo <==> id in c.flat && id !in done
      invariant multiset(order) == multiset(done) && done <= c.flat.Keys
    {
      var id :| id in todo;
      todo := todo - {id};
      ghost var before := order;
      order := order + [id];
      OneMoreMet(before, done, id);
      done := done + {id};
      assert order[..|before|] == before;
      if id !in c.json {
        assert Inserts(c, order) == Inserts(c, before) && Updates(c, order) == Updates(c, before);
        continue;
      }
      var key := Key(id, 0);
      if key in entries {
        IndexMapFinds(c.existing, id);
        var row := c.existing[entries[key]].(attributes := c.json[id]);
        assert Inserts(c, order) == Inserts(c, before);
        updateBatches := Push(updateBuffer, row, updateBatches, Updates(c, before));
      } else {
        assert Updates(c, order) == Updates(c, before);
        insertBatches := Push(insertBuffer, JsonRow(0, id, 0, c.json[id]), insertBatches, Inserts(c, before));
      }
      successCount := successCount + 1;
    }
    assert done == c.flat.Keys;
    updateBatches := Finish(updateBuffer, updateBatches, Updates(c, order));
    insertBatches := Finish(insertBuffer, insertBatches, Inserts(c, order));
    EveryProductOnce(c, order, insertBatches, updateBatches);
    RowsSent(c, order);
    BatchFacts(insertBatches, Inserts(c, order));
    BatchFacts(updateBatches, Updates(c, order));
  }

  lemma BatchFacts<J>(batches: seq<seq<JsonRow<J>>>, rows: seq<JsonRow<J>>)
    requires BatchesOf(batches, rows)
    ensures Flatten(batches) == rows && forall i :: 0 <= i < |batches| ==> |batches[i]| <= 100
  {
  }

  lemma EveryProductOnce<A, J>(c: Input<A, J>, order: seq<nat>, insertBatches: seq<seq<JsonRow<J>>>,
                               updateBatches: seq<seq<JsonRow<J>>>)
    requires Valid(c) && multiset(order) == multiset(c.flat.Keys)
    requires BatchesOf(insertBatches, Inserts(c, order)) && BatchesOf(updateBatches, Updates(c, order))
    ensures |Flatten(insertBatches)| == |Inserts(c, order)| && |Flatten(updateBatches)| == |Updates(c, order)|
    ensures forall id :: Times(Flatten(insertBatches), id) == if id in c.json && !Exists(c.existing, id) then 1 else 0
    ensures forall id :: Times(Flatten(updateBatches), id) == if id in c.json && Exists(c.existing, id) then 1 else 0
  {
    hide Exists, Inserts, Updates, Times;
    forall id
      ensures Times(Flatten(insertBatches), id) == if id in c.json && !Exists(c.existing, id) then 1 else 0
      ensures Times(Flatten(updateBatches), id) == if id in c.json && Exists(c.existing, id) then 1 else 0
    {
      EachProductOnce(c, order, insertBatches, updateBatches, id);
    }
  }

  lemma NothingBuffered<J>()
    ensures Buffered<J>([], [], [])
  {
  }

  lemma OneMoreMet(order: seq<nat>, done: set<nat>, id: nat)
    requires multiset(order) == multiset(done) && id !in done
    ensures multiset(order + [id]) == multiset(done + {id})
  {
    assert multiset(done + {id}) == multiset(done) + multiset{id};
  }

  /**
   Work is conserved: every product that could be marshalled is in the update batches exactly once if it had
   a row for store 0, and otherwise in the insert batches exactly once; nothing else is in either.
   */
  lemma EachProductOnce<A, J>(c: Input<A, J>, order: seq<nat>, insertBatches: seq<seq<JsonRow<J>>>,
                              updateBatches: seq<seq<JsonRow<J>>>, id: nat)
    requires Valid(c) && multiset(order) == multiset(c.flat.Keys)
    requires BatchesOf(insertBatches, Inserts(c, order)) && BatchesOf(updateBatches, Updates(c, order))
    ensures Times(Flatten(insertBatches), id) == if id in c.json && !Exists(c.existing, id) then 1 else 0
    ensures Times(Flatten(updateBatches), id) == if id in c.json && Exists(c.existing, id) then 1 else 0
  {
    hide Exists, Inserts, Updates, Times;
    TimesByOrder(c, order, id);
    assert id in c.flat ==> multiset(c.flat.Keys)[id] == 1;
  }
}
