/**
 The in-process cache with deadlines and tags. Every call is atomic and reads the clock as its argument
 `now`, in nanoseconds; `GetMany` and `IterateFilter` read it once per entry.
 */
module TtlCache {
  import opened Text
  import opened MachineInts

  // ----- deadlines -----

  const NANOS: int := 1_000_000_000

  /** `time.Now().Add(time.Duration(ttl) * time.Second).UnixNano()`, or 0 for no deadline. */
  function Deadline(now: int, ttl: int): int {
    if ttl > 0 then Wrap64(now + Wrap64(ttl * NANOS)) else 0
  }

  /** The deadline is `ttl` seconds from now exactly when neither the product nor the sum leaves the int64 range. */
  lemma DeadlineExact(now: int, ttl: int)
    requires 0 <= now < INT64_HALF && 0 < ttl < INT64_HALF
    ensures Deadline(now, ttl) == now + ttl * NANOS <==> now + ttl * NANOS < INT64_HALF
  {
  }

  datatype Item<V> = Item(value: V, expiresAt: int)

  predicate Expired<V>(item: Item<V>, now: int) {
    item.expiresAt > 0 && now > item.expiresAt
  }

  // ----- the cache as a value -----

  type Entries<K, V> = map<K, Item<V>>
  datatype State<K, V> = State(m: Entries<K, V>, tags: map<string, set<K>>)

  /** The tag index with some keys taken out of every tag. */
  function Without<K>(tags: map<string, set<K>>, keys: set<K>): map<string, set<K>> {
    map t | t in tags :: tags[t] - keys
  }

  lemma WithoutNone<K>(tags: map<string, set<K>>)
    ensures Without(tags, {}) == tags
  {
    assert forall t :: t in tags ==> tags[t] - {} == tags[t];
  }

  lemma WithoutMore<K>(tags: map<string, set<K>>, a: set<K>, b: set<K>)
    ensures Without(Without(tags, a), b) == Without(tags, a + b)
  {
    assert forall t :: t in tags ==> tags[t] - a - b == tags[t] - (a + b);
  }

  function Evict<K, V>(s: State<K, V>, k: K): State<K, V> {
    State(s.m - {k}, Without(s.tags, {k}))
  }

  function EvictAll<K, V>(s: State<K, V>, keys: seq<K>): State<K, V> {
    if keys == [] then s else Evict(EvictAll(s, keys[..|keys| - 1]), keys[|keys| - 1])
  }

  function AddTags<K, V>(s: State<K, V>, k: K, tags: seq<string>): State<K, V> {
    if tags == [] then s
    else
      var before := AddTags(s, k, tags[..|tags| - 1]);
      var t := tags[|tags| - 1];
      before.(tags := before.tags[t := (if t in before.tags then before.tags[t] else {}) + {k}])
  }

  function RemoveTags<K, V>(s: State<K, V>, k: K, tags: seq<string>): State<K, V> {
    if tags == [] then s
    else
      var before := RemoveTags(s, k, tags[..|tags| - 1]);
      var t := tags[|tags| - 1];
      if t in before.tags then before.(tags := before.tags[t := before.tags[t] - {k}]) else before
  }

  function Read<K, V>(m: Entries<K, V>, k: K, now: int): Option<V> {
    if k in m && !Expired(m[k], now) then Some(m[k].value) else None
  }

  /** A read throws an expired entry out. */
  function AfterRead<K, V>(s: State<K, V>, k: K, now: int): State<K, V> {
    if k in s.m && Expired(s.m[k], now) then Evict(s, k) else s
  }

  function AfterReads<K, V>(s: State<K, V>, keys: seq<K>, nows: seq<int>): State<K, V>
    requires |keys| == |nows|
  {
    if keys == [] then s
    else AfterRead(AfterReads(s, keys[..|keys| - 1], nows[..|nows| - 1]), keys[|keys| - 1], nows[|nows| - 1])
  }

  /** `GetMany`: each key is read after the evictions that the keys before it caused. */
  function Reads<K, V>(s: State<K, V>, keys: seq<K>, nows: seq<int>): seq<Option<V>>
    requires |keys| == |nows|
  {
    if keys == [] then []
    else
      var n := |keys| - 1;
      Reads(s, keys[..n], nows[..n]) + [Read(AfterReads(s, keys[..n], nows[..n]).m, keys[n], nows[n])]
  }

  /** The entries that `IterateFilter` returns the values of; `at(k)` is the clock reading when `k` is visited. */
  function Live<K, V>(m: Entries<K, V>, filter: (K, V) -> bool, at: K -> int): map<K, V> {
    map k | k in m && !Expired(m[k], at(k)) && filter(k, m[k].value) :: m[k].value
  }

  function ExpiredKeys<K, V>(m: Entries<K, V>, at: K -> int): set<K> {
    set k | k in m && Expired(m[k], at(k))
  }

  function AfterSweep<K, V>(s: State<K, V>, at: K -> int): State<K, V> {
    State(s.m - ExpiredKeys(s.m, at), Without(s.tags, ExpiredKeys(s.m, at)))
  }

  function AfterDeleteByTag<K, V>(s: State<K, V>, tag: string): State<K, V> {
    if tag in s.tags then
      State(s.m - s.tags[tag], Without(s.tags - {tag}, s.tags[tag]))
    else s
  }

  // ----- operations and runs -----

  datatype Op<!K, !V> =
    | Set(key: K, value: V, ttl: int, tagList: seq<string>, now: int)
    | Get(key: K, now: int)
    | GetOrDefault(key: K, default: V, now: int)
    | GetMany(keys: seq<K>, nows: seq<int>)
    | IterateFilter(filter: (K, V) -> bool, at: K -> int, now: int)
    | Delete(key: K)
    | DeleteMany(keys: seq<K>)
    | TagKey(key: K, tagList: seq<string>)
    | UntagKey(key: K, tagList: seq<string>)
    | DeleteByTag(tag: string)

  datatype Answer<K, V> = Done | One(o: Option<V>) | Value(v: V) | Many(os: seq<Option<V>>) | Entries(es: map<K, V>)

  predicate WellFormed<K, V>(op: Op<K, V>) {
    op.GetMany? ==> |op.keys| == |op.nows|
  }

  function Step<K, V>(s: State<K, V>, op: Op<K, V>): State<K, V>
    requires WellFormed(op)
  {
    match op
    case Set(k, v, ttl, tags, now) => AddTags(s.(m := s.m[k := Item(v, Deadline(now, ttl))]), k, tags)
    case Get(k, now) => AfterRead(s, k, now)
    case GetOrDefault(k, _, now) => AfterRead(s, k, now)
    case GetMany(keys, nows) => AfterReads(s, keys, nows)
    case IterateFilter(_, at, _) => AfterSweep(s, at)
    case Delete(k) => Evict(s, k)
    case DeleteMany(keys) => EvictAll(s, keys)
    case TagKey(k, tags) => AddTags(s, k, tags)
    case UntagKey(k, tags) => RemoveTags(s, k, tags)
    case DeleteByTag(tag) => AfterDeleteByTag(s, tag)
  }

  function OrDefault<V>(o: Option<V>, default: V): V {
    match o case Some(v) => v case None => default
  }

  function AnswerOf<K, V>(s: State<K, V>, op: Op<K, V>): Answer<K, V>
    requires WellFormed(op)
  {
    match op
    case Get(k, now) => One(Read(s.m, k, now))
    case GetOrDefault(k, default, now) => Value(OrDefault(Read(s.m, k, now), default))
    case GetMany(keys, nows) => Many(Reads(s, keys, nows))
    case IterateFilter(filter, at, _) => Entries(Live(s.m, filter, at))
    case _ => Done
  }

  // ----- the reference: no eviction -----

  /** A cache that reads leave alone: it keeps all last writes with their deadlines, and all tags given to them. */
  function RefStep<K, V>(r: State<K, V>, op: Op<K, V>): State<K, V>
    requires WellFormed(op)
  {
    if op.Get? || op.GetOrDefault? || op.GetMany? || op.IterateFilter? then r else Step(r, op)
  }

  function RefReads<K, V>(m: Entries<K, V>, keys: seq<K>, nows: seq<int>): seq<Option<V>>
    requires |keys| == |nows|
  {
    if keys == [] then []
    else
      var n := |keys| - 1;
      RefReads(m, keys[..n], nows[..n]) + [Read(m, keys[n], nows[n])]
  }

  function RefAnswer<K, V>(r: State<K, V>, op: Op<K, V>): Answer<K, V>
    requires WellFormed(op)
  {
    if op.GetMany? then Many(RefReads(r.m, op.keys, op.nows)) else AnswerOf(r, op)
  }

  /** The clock after an operation that starts at `clock`. */
  function Clock<K, V>(op: Op<K, V>, clock: int): int {
    match op
    case Set(_, _, _, _, now) => now
    case Get(_, now) => now
    case GetOrDefault(_, _, now) => now
    case IterateFilter(_, _, now) => now
    case GetMany(_, nows) => if nows == [] then clock else nows[|nows| - 1]
    case _ => clock
  }

  predicate Sorted(clock: int, nows: seq<int>) {
    nows == [] || (Sorted(clock, nows[..|nows| - 1]) &&
                   (if |nows| == 1 then clock else nows[|nows| - 2]) <= nows[|nows| - 1])
  }

  /** The clock does not run backwards. */
  ghost predicate InTime<K(!new), V>(op: Op<K, V>, clock: int) {
    match op
    case GetMany(_, nows) => Sorted(clock, nows)
    case IterateFilter(_, at, now) => clock <= now && forall k :: clock <= at(k) <= now
    case _ => clock <= Clock(op, clock)
  }

  ghost predicate GoodRun<K(!new), V>(run: seq<Op<K, V>>, clock: int)
    decreases |run|
  {
    run == [] || (WellFormed(run[0]) && InTime(run[0], clock) && GoodRun(run[1..], Clock(run[0], clock)))
  }

  function Answers<K(!new), V>(s: State<K, V>, run: seq<Op<K, V>>, clock: int): seq<Answer<K, V>>
    requires GoodRun(run, clock)
    decreases |run|
  {
    if run == [] then []
    else [AnswerOf(s, run[0])] + Answers(Step(s, run[0]), run[1..], Clock(run[0], clock))
  }

  function RefAnswers<K(!new), V>(r: State<K, V>, run: seq<Op<K, V>>, clock: int): seq<Answer<K, V>>
    requires GoodRun(run, clock)
    decreases |run|
  {
    if run == [] then []
    else [RefAnswer(r, run[0])] + RefAnswers(RefStep(r, run[0]), run[1..], Clock(run[0], clock))
  }

  // ----- what reads can tell -----

  /** No read from `clock` on can tell the two apart. */
  ghost predicate ReadsAgree<K(!new), V>(m: Entries<K, V>, r: Entries<K, V>, clock: int) {
    forall k: K, now: int :: clock <= now ==> Read(m, k, now) == Read(r, k, now)
  }

  lemma AgreeTrans<K(!new), V>(a: Entries<K, V>, m: Entries<K, V>, r: Entries<K, V>, clock: int, now: int)
    requires ReadsAgree(a, m, now) && ReadsAgree(m, r, clock) && clock <= now
    ensures ReadsAgree(a, r, now)
  {
    hide Read;
    forall k: K, later: int | now <= later
      ensures Read(a, k, later) == Read(r, k, later)
    {
      assert Read(a, k, later) == Read(m, k, later);
    }
  }

  lemma ReadUnseen<K(!new), V>(s: State<K, V>, k: K, now: int)
    ensures ReadsAgree(AfterRead(s, k, now).m, s.m, now)
  {
  }

  lemma {:induction false} ReadsUnseen<K(!new), V>(s: State<K, V>, r: State<K, V>, keys: seq<K>, nows: seq<int>,
                                                   clock: int)
    requires |keys| == |nows| && ReadsAgree(s.m, r.m, clock) && Sorted(clock, nows)
    ensures Reads(s, keys, nows) == RefReads(r.m, keys, nows)
    ensures ReadsAgree(AfterReads(s, keys, nows).m, r.m, if nows == [] then clock else nows[|nows| - 1])
    decreases |keys|
  {
    hide ReadsAgree, Read, AfterRead;
    if keys != [] {
      var n := |keys| - 1;
      var before := AfterReads(s, keys[..n], nows[..n]);
      var last := if n == 0 then clock else nows[n - 1];
      ReadsUnseen(s, r, keys[..n], nows[..n], clock);
      AgreeAt(before.m, r.m, last, keys[n], nows[n]);
      ReadUnseen(before, keys[n], nows[n]);
      AgreeTrans(AfterRead(before, keys[n], nows[n]).m, before.m, r.m, last, nows[n]);
    }
  }

  lemma AgreeAt<K(!new), V>(m: Entries<K, V>, r: Entries<K, V>, clock: int, k: K, now: int)
    requires ReadsAgree(m, r, clock) && clock <= now
    ensures Read(m, k, now) == Read(r, k, now)
  {
  }

  lemma SweepUnseen<K(!new), V>(s: State<K, V>, r: State<K, V>, filter: (K, V) -> bool, at: K -> int, clock: int,
                                now: int)
    requires ReadsAgree(s.m, r.m, clock) && clock <= now && forall k :: clock <= at(k) <= now
    ensures Live(s.m, filter, at) == Live(r.m, filter, at)
    ensures ReadsAgree(AfterSweep(s, at).m, r.m, now)
  {
    var a, b := Live(s.m, filter, at), Live(r.m, filter, at);
    forall k
      ensures k in a <==> k in b
      ensures k in a ==> a[k] == b[k]
    {
      assert clock <= at(k);
      assert Read(s.m, k, at(k)) == Read(r.m, k, at(k));
    }
    assert a == b;
    SweepLater(s, at, now);
    AgreeTrans(AfterSweep(s, at).m, s.m, r.m, clock, now);
  }

  lemma SweepLater<K(!new), V>(s: State<K, V>, at: K -> int, now: int)
    requires forall k :: at(k) <= now
    ensures ReadsAgree(AfterSweep(s, at).m, s.m, now)
  {
    assert forall k :: k in ExpiredKeys(s.m, at) ==> at(k) <= now;
  }

  lemma {:induction false} TagsLeaveEntries<K, V>(s: State<K, V>, k: K, tags: seq<string>)
    ensures AddTags(s, k, tags).m == s.m && RemoveTags(s, k, tags).m == s.m
    decreases |tags|
  {
    if tags != [] {
      TagsLeaveEntries(s, k, tags[..|tags| - 1]);
    }
  }

  lemma {:induction false} DeletesAgree<K(!new), V>(s: State<K, V>, r: State<K, V>, keys: seq<K>, clock: int)
    requires ReadsAgree(s.m, r.m, clock)
    ensures ReadsAgree(EvictAll(s, keys).m, EvictAll(r, keys).m, clock)
    decreases |keys|
  {
    if keys != [] {
      var n := |keys| - 1;
      DeletesAgree(s, r, keys[..n], clock);
      DeleteAgrees(EvictAll(s, keys[..n]), EvictAll(r, keys[..n]), keys[n], clock);
    }
  }

  lemma DeleteAgrees<K(!new), V>(s: State<K, V>, r: State<K, V>, key: K, clock: int)
    requires ReadsAgree(s.m, r.m, clock)
    ensures ReadsAgree(Evict(s, key).m, Evict(r, key).m, clock)
  {
    forall k: K, now: int | clock <= now
      ensures Read(Evict(s, key).m, k, now) == Read(Evict(r, key).m, k, now)
    {
      assert Read(s.m, k, now) == Read(r.m, k, now);
    }
  }

  lemma SetAgrees<K(!new), V>(m: Entries<K, V>, r: Entries<K, V>, key: K, item: Item<V>, clock: int, now: int)
    requires ReadsAgree(m, r, clock) && clock <= now
    ensures ReadsAgree(m[key := item], r[key := item], now)
  {
    var a, b := m[key := item], r[key := item];
    forall k: K, later: int | now <= later
      ensures Read(a, k, later) == Read(b, k, later)
    {
      AgreeAt(m, r, clock, k, later);
    }
  }

  // ----- tags -----

  predicate Tagged<K, V>(s: State<K, V>, k: K, t: string) {
    t in s.tags && k in s.tags[t]
  }

  /**
   Deleting by a tag can be told apart by a later read exactly when some key that can still be read has the tag in one
   of the two caches only.
   */
  lemma DeleteByTagUnseenIff<K(!new), V>(s: State<K, V>, r: State<K, V>, tag: string, clock: int)
    requires ReadsAgree(s.m, r.m, clock)
    ensures ReadsAgree(AfterDeleteByTag(s, tag).m, AfterDeleteByTag(r, tag).m, clock) <==>
            forall k :: Read(s.m, k, clock).Some? ==> (Tagged(s, k, tag) <==> Tagged(r, k, tag))
  {
    var a, b := AfterDeleteByTag(s, tag).m, AfterDeleteByTag(r, tag).m;
    if forall k :: Read(s.m, k, clock).Some? ==> (Tagged(s, k, tag) <==> Tagged(r, k, tag)) {
      forall k: K, now: int | clock <= now
        ensures Read(a, k, now) == Read(b, k, now)
      {
        assert Read(s.m, k, now) == Read(r.m, k, now);
        assert Read(s.m, k, clock).None? ==> Read(s.m, k, now).None?;
      }
    } else {
      var k :| Read(s.m, k, clock).Some? && !(Tagged(s, k, tag) <==> Tagged(r, k, tag));
      assert Read(s.m, k, clock) == Read(r.m, k, clock);
      assert Read(a, k, clock) != Read(b, k, clock);
    }
  }

  /**
   The answers agree, and so do all later reads, unless a `DeleteByTag` meets a key with the tag in one of the two only.
   */
  lemma StepUnseen<K(!new), V>(s: State<K, V>, r: State<K, V>, op: Op<K, V>, clock: int)
    requires WellFormed(op) && InTime(op, clock) && ReadsAgree(s.m, r.m, clock)
    requires op.DeleteByTag? ==>
               forall k :: Read(s.m, k, clock).Some? ==> (Tagged(s, k, op.tag) <==> Tagged(r, k, op.tag))
    ensures AnswerOf(s, op) == RefAnswer(r, op)
    ensures ReadsAgree(Step(s, op).m, RefStep(r, op).m, Clock(op, clock))
  {
    hide ReadsAgree, Read, AfterRead, AfterReads, AddTags, RemoveTags, Evict, EvictAll, AfterSweep, AfterDeleteByTag,
         Live;
    match op
    case Set(k, v, ttl, tags, now) =>
      var item := Item(v, Deadline(now, ttl));
      TagsLeaveEntries(s.(m := s.m[k := item]), k, tags);
      TagsLeaveEntries(r.(m := r.m[k := item]), k, tags);
      SetAgrees(s.m, r.m, k, item, clock, now);
    case Get(k, now) => GetUnseen(s, r, k, clock, now);
    case GetOrDefault(k, _, now) => GetUnseen(s, r, k, clock, now);
    case GetMany(keys, nows) => ReadsUnseen(s, r, keys, nows, clock);
    case IterateFilter(filter, at, now) => SweepUnseen(s, r, filter, at, clock, now);
    case Delete(k) => DeleteAgrees(s, r, k, clock);
    case DeleteMany(keys) => DeletesAgree(s, r, keys, clock);
    case TagKey(k, tags) =>
      TagsLeaveEntries(s, k, tags);
      TagsLeaveEntries(r, k, tags);
    case UntagKey(k, tags) =>
      TagsLeaveEntries(s, k, tags);
      TagsLeaveEntries(r, k, tags);
    case DeleteByTag(tag) => DeleteByTagUnseenIff(s, r, tag, clock);
  }

  lemma GetUnseen<K(!new), V>(s: State<K, V>, r: State<K, V>, k: K, clock: int, now: int)
    requires ReadsAgree(s.m, r.m, clock) && clock <= now
    ensures Read(s.m, k, now) == Read(r.m, k, now)
    ensures ReadsAgree(AfterRead(s, k, now).m, r.m, now)
  {
    hide Read;
    ReadUnseen(s, k, now);
    AgreeTrans(AfterRead(s, k, now).m, s.m, r.m, clock, now);
  }

  /**
   Lazy eviction cannot be seen: over every run without `DeleteByTag` and with a clock that does not run
   backwards, every read answers as a cache that keeps all last writes with their deadlines would.
   */
  lemma {:induction false} EvictionInvisible<K(!new), V>(s: State<K, V>, r: State<K, V>, run: seq<Op<K, V>>, clock: int)
    requires GoodRun(run, clock) && ReadsAgree(s.m, r.m, clock)
    requires forall i :: 0 <= i < |run| ==> !run[i].DeleteByTag?
    ensures Answers(s, run, clock) == RefAnswers(r, run, clock)
    decreases |run|
  {
    hide ReadsAgree, Step, RefStep, AnswerOf, RefAnswer;
    if run != [] {
      StepUnseen(s, r, run[0], clock);
      EvictionInvisible(Step(s, run[0]), RefStep(r, run[0]), run[1..], Clock(run[0], clock));
    }
  }

  // ----- eviction and DeleteByTag -----

  ghost predicate SameTags<K, V>(s: State<K, V>, r: State<K, V>, k: K) {
    forall t: string :: Tagged(s, k, t) <==> Tagged(r, k, t)
  }

  ghost predicate NoTags<K, V>(s: State<K, V>, k: K) {
    forall t: string :: !Tagged(s, k, t)
  }

  /** What eviction may have done to the tags: a key that can no longer be read may have lost all of its own. */
  ghost predicate TagsAgree<K(!new), V>(s: State<K, V>, r: State<K, V>, clock: int) {
    forall k: K :: SameTags(s, r, k) || (Read(r.m, k, clock).None? && NoTags(s, k))
  }

  /** A key that expired or was never there is only written or tagged with at least the tags it was last given. */
  ghost predicate Repeats<K, V>(r: State<K, V>, op: Op<K, V>, clock: int) {
    op.Set? || (op.TagKey? && op.tagList != []) ==>
      Read(r.m, op.key, clock).Some? || forall t: string :: Tagged(r, op.key, t) ==> t in op.tagList
  }

  ghost predicate RepeatsTags<K(!new), V>(r: State<K, V>, run: seq<Op<K, V>>, clock: int)
    requires GoodRun(run, clock)
    decreases |run|
  {
    run == [] ||
    (Repeats(r, run[0], clock) && RepeatsTags(RefStep(r, run[0]), run[1..], Clock(run[0], clock)))
  }

  lemma {:induction false} TaggedAfterAdd<K, V>(s: State<K, V>, k: K, tags: seq<string>, x: K, t: string)
    ensures Tagged(AddTags(s, k, tags), x, t) <==> Tagged(s, x, t) || (x == k && t in tags)
    decreases |tags|
  {
    if tags != [] {
      var n := |tags| - 1;
      TaggedAfterAdd(s, k, tags[..n], x, t);
      assert tags == tags[..n] + [tags[n]];
    }
  }

  lemma {:induction false} TaggedAfterRemove<K, V>(s: State<K, V>, k: K, tags: seq<string>, x: K, t: string)
    ensures Tagged(RemoveTags(s, k, tags), x, t) <==> Tagged(s, x, t) && !(x == k && t in tags)
    decreases |tags|
  {
    if tags != [] {
      var n := |tags| - 1;
      TaggedAfterRemove(s, k, tags[..n], x, t);
      assert tags == tags[..n] + [tags[n]];
    }
  }

  lemma {:induction false} TaggedAfterDeletes<K, V>(s: State<K, V>, keys: seq<K>, x: K, t: string)
    ensures Tagged(EvictAll(s, keys), x, t) <==> Tagged(s, x, t) && x !in keys
    decreases |keys|
  {
    if keys != [] {
      var n := |keys| - 1;
      TaggedAfterDeletes(s, keys[..n], x, t);
      assert keys == keys[..n] + [keys[n]];
    }
  }

  /** An entry that a read or a sweep throws out loses its tags and could not be read any more; nothing else happens. */
  lemma EvictedTagsAgree<K(!new), V>(s: State<K, V>, after: State<K, V>, r: State<K, V>, gone: set<K>, clock: int,
                                     now: int)
    requires ReadsAgree(s.m, r.m, clock) && TagsAgree(s, r, clock) && clock <= now
    requires after.tags == Without(s.tags, gone) && forall k :: k in gone ==> Read(s.m, k, now).None?
    ensures TagsAgree(after, r, now)
  {
    forall k: K
      ensures SameTags(after, r, k) || (Read(r.m, k, now).None? && NoTags(after, k))
    {
      assert forall t: string :: Tagged(after, k, t) <==> Tagged(s, k, t) && k !in gone;
      assert Read(s.m, k, now) == Read(r.m, k, now);
      assert SameTags(s, r, k) || (Read(r.m, k, clock).None? && NoTags(s, k));
      assert Read(r.m, k, clock).None? ==> Read(r.m, k, now).None?;
    }
  }

  lemma ReadTagsAgree<K(!new), V>(s: State<K, V>, r: State<K, V>, k: K, clock: int, now: int)
    requires ReadsAgree(s.m, r.m, clock) && TagsAgree(s, r, clock) && clock <= now
    ensures TagsAgree(AfterRead(s, k, now), r, now)
  {
    hide ReadsAgree, TagsAgree;
    if k in s.m && Expired(s.m[k], now) {
      EvictedTagsAgree(s, AfterRead(s, k, now), r, {k}, clock, now);
    } else {
      WithoutNone(s.tags);
      EvictedTagsAgree(s, s, r, {}, clock, now);
    }
  }

  lemma {:induction false} ReadsTagsAgree<K(!new), V>(s: State<K, V>, r: State<K, V>, keys: seq<K>, nows: seq<int>,
                                                      clock: int)
    requires |keys| == |nows| && ReadsAgree(s.m, r.m, clock) && TagsAgree(s, r, clock) && Sorted(clock, nows)
    ensures TagsAgree(AfterReads(s, keys, nows), r, if nows == [] then clock else nows[|nows| - 1])
    decreases |keys|
  {
    hide ReadsAgree, Read, AfterRead, TagsAgree;
    if keys != [] {
      var n := |keys| - 1;
      ReadsTagsAgree(s, r, keys[..n], nows[..n], clock);
      ReadsUnseen(s, r, keys[..n], nows[..n], clock);
      ReadTagsAgree(AfterReads(s, keys[..n], nows[..n]), r, keys[n], if n == 0 then clock else nows[n - 1], nows[n]);
    }
  }

  lemma SweepTagsAgree<K(!new), V>(s: State<K, V>, r: State<K, V>, at: K -> int, clock: int, now: int)
    requires ReadsAgree(s.m, r.m, clock) && TagsAgree(s, r, clock) && clock <= now && forall k :: clock <= at(k) <= now
    ensures TagsAgree(AfterSweep(s, at), r, now)
  {
    hide ReadsAgree, TagsAgree;
    forall k | k in ExpiredKeys(s.m, at)
      ensures Read(s.m, k, now).None?
    {
      assert at(k) <= now;
    }
    EvictedTagsAgree(s, AfterSweep(s, at), r, ExpiredKeys(s.m, at), clock, now);
  }

  /** Writing or tagging a key keeps the tags in step, if a key that may have lost its tags is given them again. */
  lemma AddedTagsAgree<K(!new), V>(s: State<K, V>, r: State<K, V>, m: Entries<K, V>, key: K, tags: seq<string>,
                                   clock: int, now: int)
    requires TagsAgree(s, r, clock) && clock <= now
    requires Read(r.m, key, clock).Some? || forall t: string :: Tagged(r, key, t) ==> t in tags
    requires forall k :: k != key && Read(r.m, k, clock).None? ==> Read(m, k, now).None?
    ensures TagsAgree(AddTags(s, key, tags), AddTags(r.(m := m), key, tags), now)
    ensures AddTags(r.(m := m), key, tags).m == m
  {
    hide AddTags;
    var a, b := AddTags(s, key, tags), AddTags(r.(m := m), key, tags);
    TagsLeaveEntries(r.(m := m), key, tags);
    forall k: K
      ensures SameTags(a, b, k) || (Read(b.m, k, now).None? && NoTags(a, k))
    {
      assert SameTags(s, r, k) || (Read(r.m, k, clock).None? && NoTags(s, k));
      forall t: string
        ensures Tagged(a, k, t) <==> Tagged(s, k, t) || (k == key && t in tags)
        ensures Tagged(b, k, t) <==> Tagged(r, k, t) || (k == key && t in tags)
      {
        TaggedAfterAdd(s, key, tags, k, t);
        TaggedAfterAdd(r.(m := m), key, tags, k, t);
        assert Tagged(r.(m := m), k, t) <==> Tagged(r, k, t);
      }
    }
  }

  lemma RemovedTagsAgree<K(!new), V>(s: State<K, V>, r: State<K, V>, key: K, tags: seq<string>, clock: int)
    requires TagsAgree(s, r, clock)
    ensures TagsAgree(RemoveTags(s, key, tags), RemoveTags(r, key, tags), clock)
  {
    hide RemoveTags, Read;
    var a, b := RemoveTags(s, key, tags), RemoveTags(r, key, tags);
    TagsLeaveEntries(r, key, tags);
    forall k: K
      ensures SameTags(a, b, k) || (Read(b.m, k, clock).None? && NoTags(a, k))
    {
      assert SameTags(s, r, k) || (Read(r.m, k, clock).None? && NoTags(s, k));
      forall t: string
        ensures Tagged(a, k, t) <==> Tagged(s, k, t) && !(k == key && t in tags)
        ensures Tagged(b, k, t) <==> Tagged(r, k, t) && !(k == key && t in tags)
      {
        TaggedAfterRemove(s, key, tags, k, t);
        TaggedAfterRemove(r, key, tags, k, t);
      }
    }
  }

  lemma {:induction false} EvictAllEntries<K, V>(s: State<K, V>, keys: seq<K>, k: K, now: int)
    ensures Read(s.m, k, now).None? ==> Read(EvictAll(s, keys).m, k, now).None?
    decreases |keys|
  {
    if keys != [] {
      EvictAllEntries(s, keys[..|keys| - 1], k, now);
    }
  }

  lemma DeletedTagsAgree<K(!new), V>(s: State<K, V>, r: State<K, V>, keys: seq<K>, clock: int)
    requires TagsAgree(s, r, clock)
    ensures TagsAgree(EvictAll(s, keys), EvictAll(r, keys), clock)
  {
    hide EvictAll, Read;
    var a, b := EvictAll(s, keys), EvictAll(r, keys);
    forall k: K
      ensures SameTags(a, b, k) || (Read(b.m, k, clock).None? && NoTags(a, k))
    {
      assert SameTags(s, r, k) || (Read(r.m, k, clock).None? && NoTags(s, k));
      EvictAllEntries(r, keys, k, clock);
      forall t: string
        ensures Tagged(a, k, t) <==> Tagged(s, k, t) && k !in keys
        ensures Tagged(b, k, t) <==> Tagged(r, k, t) && k !in keys
      {
        TaggedAfterDeletes(s, keys, k, t);
        TaggedAfterDeletes(r, keys, k, t);
      }
    }
  }

  lemma TaggedAfterDeleteByTag<K, V>(s: State<K, V>, tag: string, k: K, t: string)
    ensures Tagged(AfterDeleteByTag(s, tag), k, t) <==> Tagged(s, k, t) && t != tag && !Tagged(s, k, tag)
  {
  }

  lemma DeletedByTagAgree<K(!new), V>(s: State<K, V>, r: State<K, V>, tag: string, clock: int)
    requires TagsAgree(s, r, clock)
    ensures TagsAgree(AfterDeleteByTag(s, tag), AfterDeleteByTag(r, tag), clock)
  {
    var a, b := AfterDeleteByTag(s, tag), AfterDeleteByTag(r, tag);
    forall k: K
      ensures SameTags(a, b, k) || (Read(b.m, k, clock).None? && NoTags(a, k))
    {
      assert SameTags(s, r, k) || (Read(r.m, k, clock).None? && NoTags(s, k));
      forall t: string
        ensures Tagged(a, k, t) <==> Tagged(s, k, t) && t != tag && !Tagged(s, k, tag)
        ensures Tagged(b, k, t) <==> Tagged(r, k, t) && t != tag && !Tagged(r, k, tag)
      {
        TaggedAfterDeleteByTag(s, tag, k, t);
        TaggedAfterDeleteByTag(r, tag, k, t);
      }
    }
  }

  lemma SetTagsAgree<K(!new), V>(s: State<K, V>, r: State<K, V>, op: Op<K, V>, clock: int)
    requires op.Set? && InTime(op, clock) && TagsAgree(s, r, clock) && Repeats(r, op, clock)
    ensures TagsAgree(Step(s, op), RefStep(r, op), Clock(op, clock))
  {
    hide AddTags;
    var item := Item(op.value, Deadline(op.now, op.ttl));
    var w := s.(m := s.m[op.key := item]);
    assert forall k, t :: Tagged(w, k, t) <==> Tagged(s, k, t);
    assert forall k :: NoTags(s, k) ==> NoTags(w, k);
    AddedTagsAgree(w, r, r.m[op.key := item], op.key, op.tagList, clock, op.now);
  }

  /** Operations that repeat tags keep the two caches in step. */
  lemma StepTagsAgree<K(!new), V>(s: State<K, V>, r: State<K, V>, op: Op<K, V>, clock: int)
    requires WellFormed(op) && InTime(op, clock) && ReadsAgree(s.m, r.m, clock) && TagsAgree(s, r, clock)
    requires Repeats(r, op, clock)
    ensures TagsAgree(Step(s, op), RefStep(r, op), Clock(op, clock))
  {
    hide ReadsAgree, TagsAgree, Read, AfterRead, AfterReads, AddTags, RemoveTags, AfterSweep, AfterDeleteByTag;
    match op
    case Set(_, _, _, _, _) => SetTagsAgree(s, r, op, clock);
    case Get(k, now) => ReadTagsAgree(s, r, k, clock, now);
    case GetOrDefault(k, _, now) => ReadTagsAgree(s, r, k, clock, now);
    case GetMany(keys, nows) => ReadsTagsAgree(s, r, keys, nows, clock);
    case IterateFilter(_, at, now) => SweepTagsAgree(s, r, at, clock, now);
    case Delete(k) =>
      OneDeleted(s, k);
      OneDeleted(r, k);
      DeletedTagsAgree(s, r, [k], clock);
    case DeleteMany(keys) => DeletedTagsAgree(s, r, keys, clock);
    case TagKey(k, tags) =>
      assert r.(m := r.m) == r;
      if tags != [] {
        AddedTagsAgree(s, r, r.m, k, tags, clock, clock);
      } else {
        NothingAdded(s, k);
        NothingAdded(r, k);
      }
    case UntagKey(k, tags) => RemovedTagsAgree(s, r, k, tags, clock);
    case DeleteByTag(tag) => DeletedByTagAgree(s, r, tag, clock);
  }

  lemma OneDeleted<K, V>(s: State<K, V>, k: K)
    ensures EvictAll(s, [k]) == Evict(s, k)
  {
    assert [k][..0] == [];
    assert EvictAll(s, []) == s;
  }

  lemma ReadableKeysKeepTags<K(!new), V>(s: State<K, V>, r: State<K, V>, clock: int, tag: string)
    requires ReadsAgree(s.m, r.m, clock) && TagsAgree(s, r, clock)
    ensures forall k :: Read(s.m, k, clock).Some? ==> (Tagged(s, k, tag) <==> Tagged(r, k, tag))
  {
    hide Tagged;
    forall k | Read(s.m, k, clock).Some?
      ensures Tagged(s, k, tag) <==> Tagged(r, k, tag)
    {
      assert Read(s.m, k, clock) == Read(r.m, k, clock);
      assert SameTags(s, r, k);
    }
  }

  /**
   With `DeleteByTag` among the operations, eviction still cannot be seen as long as whoever writes or tags a key that
   is no longer there gives it at least the tags it had.
   */
  lemma {:induction false} TaggedEvictionInvisible<K(!new), V>(s: State<K, V>, r: State<K, V>, run: seq<Op<K, V>>,
                                                               clock: int)
    requires GoodRun(run, clock) && ReadsAgree(s.m, r.m, clock) && TagsAgree(s, r, clock) && RepeatsTags(r, run, clock)
    ensures Answers(s, run, clock) == RefAnswers(r, run, clock)
    decreases |run|
  {
    hide ReadsAgree, TagsAgree, Step, RefStep, AnswerOf, RefAnswer, Repeats, InTime, Read, Tagged;
    if run != [] {
      if run[0].DeleteByTag? {
        ReadableKeysKeepTags(s, r, clock, run[0].tag);
      }
      StepUnseen(s, r, run[0], clock);
      StepTagsAgree(s, r, run[0], clock);
      TaggedEvictionInvisible(Step(s, run[0]), RefStep(r, run[0]), run[1..], Clock(run[0], clock));
    }
  }

  lemma NothingAdded<K, V>(s: State<K, V>, k: K)
    ensures AddTags(s, k, []) == s
  {
  }

  /** What a read of `k` finds after a write and a `DeleteByTag`. */
  function WriteThenDelete<K, V>(s: State<K, V>, write: Op<K, V>, tag: string): Option<V>
    requires write.Set?
  {
    Read(Step(Step(s, write), DeleteByTag(tag)).m, write.key, write.now)
  }

  lemma AfterWrite<K, V>(s: State<K, V>, write: Op<K, V>, tag: string)
    requires write.Set? && !Expired(Item(write.value, Deadline(write.now, write.ttl)), write.now)
    ensures WriteThenDelete(s, write, tag) ==
            if Tagged(s, write.key, tag) || tag in write.tagList then None else Some(write.value)
  {
    hide AddTags;
    var w := s.(m := s.m[write.key := Item(write.value, Deadline(write.now, write.ttl))]);
    TagsLeaveEntries(w, write.key, write.tagList);
    TaggedAfterAdd(w, write.key, write.tagList, write.key, tag);
    assert Tagged(w, write.key, tag) <==> Tagged(s, write.key, tag);
  }

  /**
   The condition cannot be weaker: whether somebody read an expired key before it was written again decides what a later
   `DeleteByTag` does, for some tag, exactly when the write does not repeat all tags of the key.
   */
  lemma ReadDecidesDeleteByTag<K, V>(s: State<K, V>, write: Op<K, V>)
    requires write.Set? && !Expired(Item(write.value, Deadline(write.now, write.ttl)), write.now)
    requires write.key in s.m && Expired(s.m[write.key], write.now)
    ensures (forall t: string ::
               WriteThenDelete(AfterRead(s, write.key, write.now), write, t) == WriteThenDelete(s, write, t)) <==>
            Repeats(s, write, write.now)
  {
    hide WriteThenDelete;
    var read := AfterRead(s, write.key, write.now);
    forall t: string
      ensures WriteThenDelete(read, write, t) == WriteThenDelete(s, write, t) <==>
              (Tagged(s, write.key, t) ==> t in write.tagList)
    {
      AfterWrite(s, write, t);
      AfterWrite(read, write, t);
    }
  }

  /** What a read of `k` finds after it was tagged, deleted by tag `a`, written without tags and deleted by tag `b`. */
  function TagThenDelete<K, V>(s: State<K, V>, tags: seq<string>, a: string, write: Op<K, V>, b: string): Option<V>
    requires write.Set?
  {
    WriteThenDelete(Step(Step(s, TagKey(write.key, tags)), DeleteByTag(a)), write, b)
  }

  lemma AfterTag<K, V>(s: State<K, V>, tags: seq<string>, a: string, write: Op<K, V>, b: string)
    requires write.Set? && !Expired(Item(write.value, Deadline(write.now, write.ttl)), write.now) && write.tagList == []
    ensures TagThenDelete(s, tags, a, write, b) ==
            if !(Tagged(s, write.key, a) || a in tags) && (Tagged(s, write.key, b) || b in tags) && a != b then None
            else Some(write.value)
  {
    hide AddTags, WriteThenDelete, AfterDeleteByTag, Tagged;
    var k := write.key;
    var w := AddTags(s, k, tags);
    AfterWrite(AfterDeleteByTag(w, a), write, b);
    TaggedAfterDeleteByTag(w, a, k, b);
    TaggedAfterAdd(s, k, tags, k, a);
    TaggedAfterAdd(s, k, tags, k, b);
  }

  /**
   The same for tagging. After a `DeleteByTag` of one of its tags the key has none left to repeat, so a write without
   tags is as it should be; but whether the expired key was read before it was tagged still decides what a second
   `DeleteByTag` does to the new value, for some two tags, exactly when the tagging does not repeat all tags.
   */
  lemma ReadDecidesAfterTagKey<K, V>(s: State<K, V>, tags: seq<string>, write: Op<K, V>)
    requires write.Set? && !Expired(Item(write.value, Deadline(write.now, write.ttl)), write.now) && write.tagList == []
    requires write.key in s.m && Expired(s.m[write.key], write.now)
    ensures (forall a: string, b: string :: Tagged(s, write.key, a) || a in tags ==>
               TagThenDelete(AfterRead(s, write.key, write.now), tags, a, write, b) ==
               TagThenDelete(s, tags, a, write, b)) <==>
            Repeats(s, TagKey(write.key, tags), write.now)
  {
    hide TagThenDelete;
    var k, read := write.key, AfterRead(s, write.key, write.now);
    assert forall t: string :: !Tagged(read, k, t);
    forall a: string, b: string
      ensures TagThenDelete(read, tags, a, write, b) ==
              if a !in tags && b in tags && a != b then None else Some(write.value)
      ensures Tagged(s, k, a) || a in tags ==> TagThenDelete(s, tags, a, write, b) == Some(write.value)
    {
      AfterTag(s, tags, a, write, b);
      AfterTag(read, tags, a, write, b);
    }
    if tags != [] && !Repeats(s, TagKey(k, tags), write.now) {
      var a: string :| Tagged(s, k, a) && a !in tags;
      assert tags[0] in tags;
      assert TagThenDelete(read, tags, a, write, tags[0]) != TagThenDelete(s, tags, a, write, tags[0]);
    }
  }

  // ----- the tag index -----

  /** Every tagged key is in the cache. */
  ghost predicate TagsInside<K, V>(s: State<K, V>) {
    forall t :: t in s.tags ==> s.tags[t] <= s.m.Keys
  }

  predicate TagsPresent<K, V>(s: State<K, V>, op: Op<K, V>) {
    op.TagKey? ==> op.tagList == [] || op.key in s.m
  }

  lemma {:induction false} AddTagsInside<K, V>(s: State<K, V>, k: K, tags: seq<string>)
    requires TagsInside(s) && k in s.m
    ensures TagsInside(AddTags(s, k, tags)) && AddTags(s, k, tags).m == s.m
    decreases |tags|
  {
    if tags != [] {
      AddTagsInside(s, k, tags[..|tags| - 1]);
    }
  }

  lemma {:induction false} RemoveTagsInside<K, V>(s: State<K, V>, k: K, tags: seq<string>)
    requires TagsInside(s)
    ensures TagsInside(RemoveTags(s, k, tags)) && RemoveTags(s, k, tags).m == s.m
    decreases |tags|
  {
    if tags != [] {
      RemoveTagsInside(s, k, tags[..|tags| - 1]);
    }
  }

  lemma {:induction false} EvictAllInside<K, V>(s: State<K, V>, keys: seq<K>)
    requires TagsInside(s)
    ensures TagsInside(EvictAll(s, keys))
    decreases |keys|
  {
    if keys != [] {
      EvictAllInside(s, keys[..|keys| - 1]);
    }
  }

  lemma {:induction false} AfterReadsInside<K, V>(s: State<K, V>, keys: seq<K>, nows: seq<int>)
    requires |keys| == |nows| && TagsInside(s)
    ensures TagsInside(AfterReads(s, keys, nows))
    decreases |keys|
  {
    if keys != [] {
      AfterReadsInside(s, keys[..|keys| - 1], nows[..|keys| - 1]);
    }
  }

  lemma {:induction false} TaggedAbsent<K, V>(s: State<K, V>, k: K, tags: seq<string>)
    requires tags != []
    ensures var t := tags[|tags| - 1]; t in AddTags(s, k, tags).tags && k in AddTags(s, k, tags).tags[t]
  {
  }

  /** An operation keeps the tag index inside the cache exactly when it does not tag an absent key. */
  lemma StepInside<K, V>(s: State<K, V>, op: Op<K, V>)
    requires WellFormed(op) && TagsInside(s)
    ensures TagsInside(Step(s, op)) <==> TagsPresent(s, op)
  {
    match op
    case Set(k, v, ttl, tags, now) =>
      var w := s.(m := s.m[k := Item(v, Deadline(now, ttl))]);
      assert TagsInside(w);
      AddTagsInside(w, k, tags);
    case GetMany(keys, nows) => AfterReadsInside(s, keys, nows);
    case DeleteMany(keys) => EvictAllInside(s, keys);
    case TagKey(k, tags) =>
      if tags == [] || k in s.m {
        if tags != [] {
          AddTagsInside(s, k, tags);
        }
      } else {
        TaggedAbsent(s, k, tags);
        TagsLeaveEntries(s, k, tags);
      }
    case UntagKey(k, tags) => RemoveTagsInside(s, k, tags);
    case _ =>
  }

  predicate TagRun<K, V>(s: State<K, V>, run: seq<Op<K, V>>)
    decreases |run|
  {
    run == [] || (WellFormed(run[0]) && TagsPresent(s, run[0]) && TagRun(Step(s, run[0]), run[1..]))
  }

  function After<K, V>(s: State<K, V>, run: seq<Op<K, V>>): State<K, V>
    requires TagRun(s, run)
    decreases |run|
  {
    if run == [] then s else After(Step(s, run[0]), run[1..])
  }

  /**
   In every run that tags only present keys, each tagged key is in the cache; deleting by tag drops just the tagged
   keys.
   */
  lemma {:induction false} TagIndexInside<K, V>(s: State<K, V>, run: seq<Op<K, V>>)
    requires TagsInside(s) && TagRun(s, run)
    ensures TagsInside(After(s, run))
    decreases |run|
  {
    hide TagsInside, Step, TagsPresent;
    if run != [] {
      StepInside(s, run[0]);
      TagIndexInside(Step(s, run[0]), run[1..]);
    }
  }

  /** After `DeleteByTag` the keys that had the tag are gone everywhere, and nothing else has changed. */
  lemma DeleteByTagExact<K(!new), V>(s: State<K, V>, tag: string)
    ensures var r := AfterDeleteByTag(s, tag);
            var tagged := if tag in s.tags then s.tags[tag] else {};
            && tag !in r.tags
            && (forall k :: k in r.m <==> k in s.m && k !in tagged)
            && (forall k :: k in r.m ==> r.m[k] == s.m[k])
            && (forall t :: t in r.tags <==> t in s.tags && t != tag)
            && (forall t, k :: t in r.tags ==> (k in r.tags[t] <==> k in s.tags[t] && k !in tagged))
  {
  }

  // ----- composite keys -----

  /** `makeCompositeKey` of already formatted parts. */
  function CompositeKey(parts: seq<string>): string {
    Join(parts, '|')
  }

  /** Composite keys of bar-free parts are equal only for equal lists. */
  lemma CompositeKeyInjective(p: seq<string>, q: seq<string>)
    requires p != [] && q != []
    requires (forall i :: 0 <= i < |p| ==> Free(p[i], '|')) && (forall i :: 0 <= i < |q| ==> Free(q[i], '|'))
    ensures CompositeKey(p) == CompositeKey(q) <==> p == q
  {
    SplitJoin(p, '|');
    SplitJoin(q, '|');
  }

  /** A bar inside a part lets two lists share one key. */
  lemma CompositeKeysCollide()
    ensures CompositeKey(["a|b"]) == CompositeKey(["a", "b"])
  {
    assert ["a", "b"][1..] == ["b"];
    assert "a" + ['|'] + "b" == "a|b";
  }

  // ----- the cache object -----

  class Cache<K(==), V> {
    var m: Entries<K, V>
    var tagIndex: map<string, set<K>>

    ghost function Abstract(): State<K, V>
      reads this
    {
      State(m, tagIndex)
    }

    constructor ()
      ensures Abstract() == State(map[], map[])
    {
      m, tagIndex := map[], map[];
    }

    method Set(key: K, value: V, ttl: int, tags: seq<string>, now: int)
      modifies this
      ensures Abstract() == Step(old(Abstract()), Op.Set(key, value, ttl, tags, now))
    {
      var expiresAt := 0;
      if ttl > 0 {
        expiresAt := Wrap64(now + Wrap64(ttl * NANOS));
      }
      m := m[key := Item(value, expiresAt)];
      if |tags| > 0 {
        TagKey(key, tags);
      }
    }

    method Get(key: K, now: int) returns (v: Option<V>)
      modifies this
      ensures Abstract() == Step(old(Abstract()), Op.Get(key, now))
      ensures One(v) == AnswerOf(old(Abstract()), Op.Get(key, now))
    {
      if key !in m {
        return None;
      }
      var item := m[key];
      if item.expiresAt > 0 && now > item.expiresAt {
        Delete(key);
        return None;
      }
      v := Some(item.value);
    }

    method GetOrDefault(key: K, default: V, now: int) returns (v: V)
      modifies this
      ensures Abstract() == Step(old(Abstract()), Op.GetOrDefault(key, default, now))
      ensures Value(v) == AnswerOf(old(Abstract()), Op.GetOrDefault(key, default, now))
    {
      var o := Get(key, now);
      v := if o.Some? then o.value else default;
    }

    method Delete(key: K)
      modifies this
      ensures Abstract() == Evict(old(Abstract()), key)
    {
      m := m - {key};
      RemoveKeyFromTagIndex(key);
    }

    /** Visits the tags in any order. */
    method RemoveKeyFromTagIndex(key: K)
      modifies this`tagIndex
      ensures tagIndex == Without(old(tagIndex), {key})
    {
      var todo := tagIndex.Keys;
      while todo != {}
        invariant todo <= old(tagIndex).Keys == tagIndex.Keys
        invariant forall t :: t in tagIndex ==>
                    tagIndex[t] == if t in todo then old(tagIndex)[t] else old(tagIndex)[t] - {key}
      {
        var t :| t in todo;
        tagIndex := tagIndex[t := tagIndex[t] - {key}];
        todo := todo - {t};
      }
    }

    method DeleteMany(keys: seq<K>)
      modifies this
      ensures Abstract() == Step(old(Abstract()), Op.DeleteMany(keys))
    {
      for i := 0 to |keys|
        invariant Abstract() == EvictAll(old(Abstract()), keys[..i])
      {
        assert keys[..i + 1][..i] == keys[..i];
        Delete(keys[i]);
      }
      assert keys[..|keys|] == keys;
    }

    method GetMany(keys: seq<K>, nows: seq<int>) returns (results: seq<Option<V>>)
      requires |keys| == |nows|
      modifies this
      ensures Abstract() == Step(old(Abstract()), Op.GetMany(keys, nows))
      ensures Many(results) == AnswerOf(old(Abstract()), Op.GetMany(keys, nows))
    {
      hide AfterRead, Read;
      results := [];
      for i := 0 to |keys|
        invariant Abstract() == AfterReads(old(Abstract()), keys[..i], nows[..i])
        invariant results == Reads(old(Abstract()), keys[..i], nows[..i])
      {
        assert keys[..i + 1][..i] == keys[..i] && nows[..i + 1][..i] == nows[..i];
        var v := Get(keys[i], nows[i]);
        results := results + [v];
      }
      assert keys[..|keys|] == keys && nows[..|nows|] == nows;
    }

    /**
     `at(k)` is the clock reading when entry `k` is met and `now` one after the last; `order` is the order in which the
     entries were met. The results are the values of the live ones among them.
     */
    method IterateFilter(filter: (K, V) -> bool, at: K -> int, ghost now: int)
      returns (results: seq<V>, ghost order: seq<K>)
      modifies this
      ensures Abstract() == Step(old(Abstract()), Op.IterateFilter(filter, at, now))
      ensures var es := Live(old(m), filter, at);
              && (forall k :: k in order <==> k in es)
              && (forall i, j :: 0 <= i < j < |order| ==> order[i] != order[j])
              && |results| == |order| && forall i :: 0 <= i < |order| ==> results[i] == es[order[i]]
    {
      results, order := [], [];
      ghost var es := Live(m, filter, at);
      ghost var dead := {};
      WithoutNone(tagIndex);
      var todo := m.Keys;
      while todo != {}
        invariant todo <= old(m).Keys && dead == (set k | k in old(m) && k !in todo && Expired(old(m)[k], at(k)))
        invariant m == old(m) - dead
        invariant tagIndex == Without(old(tagIndex), dead)
        invariant forall k :: k in order <==> k in es && k !in todo
        invariant forall i, j :: 0 <= i < j < |order| ==> order[i] != order[j]
        invariant |results| == |order| && forall i :: 0 <= i < |order| ==> order[i] in es && results[i] == es[order[i]]
      {
        var key :| key in todo;
        var item := m[key];
        if item.expiresAt > 0 && at(key) > item.expiresAt {
          m := m - {key};
          RemoveKeyFromTagIndex(key);
          WithoutMore(old(tagIndex), dead, {key});
          dead := dead + {key};
        } else if filter(key, item.value) {
          results := results + [item.value];
          order := order + [key];
        }
        todo := todo - {key};
      }
      assert dead == ExpiredKeys(old(m), at);
    }

    method TagKey(key: K, tags: seq<string>)
      modifies this`tagIndex
      ensures Abstract() == AddTags(old(Abstract()), key, tags)
    {
      for i := 0 to |tags|
        invariant Abstract() == AddTags(old(Abstract()), key, tags[..i])
      {
        assert tags[..i + 1][..i] == tags[..i];
        if tags[i] !in tagIndex {
          tagIndex := tagIndex[tags[i] := {}];
        }
        tagIndex := tagIndex[tags[i] := tagIndex[tags[i]] + {key}];
      }
      assert tags[..|tags|] == tags;
    }

    method UntagKey(key: K, tags: seq<string>)
      modifies this`tagIndex
      ensures Abstract() == RemoveTags(old(Abstract()), key, tags)
    {
      for i := 0 to |tags|
        invariant Abstract() == RemoveTags(old(Abstract()), key, tags[..i])
      {
        assert tags[..i + 1][..i] == tags[..i];
        if tags[i] in tagIndex {
          tagIndex := tagIndex[tags[i] := tagIndex[tags[i]] - {key}];
        }
      }
      assert tags[..|tags|] == tags;
    }

    /** Deletes the tagged keys one by one, in any order, then the tag. */
    method DeleteByTag(tag: string)
      modifies this
      ensures Abstract() == AfterDeleteByTag(old(Abstract()), tag)
    {
      if tag in tagIndex {
        var todo := tagIndex[tag];
        ghost var gone := {};
        WithoutNone(tagIndex);
        while todo != {}
          invariant gone !! todo && gone + todo == old(tagIndex)[tag]
          invariant m == old(m) - gone
          invariant tagIndex == Without(old(tagIndex), gone)
        {
          var key :| key in todo;
          Delete(key);
          WithoutMore(old(tagIndex), gone, {key});
          todo := todo - {key};
          gone := gone + {key};
        }
        tagIndex := tagIndex - {tag};
      }
    }
  }
}
