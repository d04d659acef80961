/**
 What reads of the cache answer, said about the calls alone: the last write of the key that nothing has deleted since,
 until its time is up. No state of the cache is mentioned, and no eviction.
 */
module CacheHistory {
  import opened Text
  import opened MachineInts
  import opened TtlCache

  /** A write: the value, the time to live in seconds, and the clock reading. */
  datatype Write<V> = Write(value: V, ttl: int, at: int)

  /** The key has been given the tag, and neither the tag nor the key has been taken away since. */
  predicate HasTag<K(==), V>(run: seq<Op<K, V>>, k: K, t: string) {
    run != [] &&
    var before := HasTag(run[..|run| - 1], k, t);
    match run[|run| - 1]
    case Set(key, _, _, tags, _) => before || (key == k && t in tags)
    case TagKey(key, tags) => before || (key == k && t in tags)
    case UntagKey(key, tags) => before && !(key == k && t in tags)
    case Delete(key) => before && key != k
    case DeleteMany(keys) => before && k !in keys
    case DeleteByTag(tag) => before && t != tag && !HasTag(run[..|run| - 1], k, tag)
    case _ => before
  }

  /** The last write of the key, unless the key was deleted after it, by name or by a tag that it had then. */
  function LastWrite<K(==), V>(run: seq<Op<K, V>>, k: K): Option<Write<V>> {
    if run == [] then None
    else
      var before := LastWrite(run[..|run| - 1], k);
      match run[|run| - 1]
      case Set(key, v, ttl, _, now) => if key == k then Some(Write(v, ttl, now)) else before
      case Delete(key) => if key == k then None else before
      case DeleteMany(keys) => if k in keys then None else before
      case DeleteByTag(tag) => if HasTag(run[..|run| - 1], k, tag) then None else before
      case _ => before
  }

  /** A write without a positive time to live is good for ever, another one for so many seconds. */
  function Found<K(==), V>(run: seq<Op<K, V>>, k: K, now: int): Option<V> {
    match LastWrite(run, k)
    case None => None
    case Some(w) => if w.ttl <= 0 || now <= w.at + w.ttl * 1_000_000_000 then Some(w.value) else None
  }

  predicate WellFormedRun<K, V>(run: seq<Op<K, V>>) {
    forall i :: 0 <= i < |run| ==> WellFormed(run[i])
  }

  /** The clock has passed 1970, and no deadline lies beyond the int64 range. */
  predicate DeadlinesFit<K, V>(run: seq<Op<K, V>>) {
    forall i :: 0 <= i < |run| && run[i].Set? ==>
                  && 0 <= run[i].now && run[i].ttl <= 0x7FFF_FFFF_FFFF_FFFF
                  && run[i].now + run[i].ttl * 1_000_000_000 <= 0x7FFF_FFFF_FFFF_FFFF
  }

  /** The answer to `op` after the calls of `run`. */
  ghost predicate RightAnswer<K(!new), V>(run: seq<Op<K, V>>, op: Op<K, V>, a: Answer<K, V>)
    requires WellFormed(op)
  {
    match op
    case Get(k, now) => a == One(Found(run, k, now))
    case GetOrDefault(k, default, now) =>
      a == Value(if Found(run, k, now).Some? then Found(run, k, now).value else default)
    case GetMany(keys, nows) =>
      a.Many? && |a.os| == |keys| && forall j :: 0 <= j < |keys| ==> a.os[j] == Found(run, keys[j], nows[j])
    case IterateFilter(filter, at, _) =>
      && a.Entries?
      && (forall k :: k in a.es <==> Found(run, k, at(k)).Some? && filter(k, Found(run, k, at(k)).value))
      && (forall k :: k in a.es ==> a.es[k] == Found(run, k, at(k)).value)
    case _ => a == Done
  }

  // ----- the cache without eviction is the history -----

  function RefRun<K, V>(run: seq<Op<K, V>>): State<K, V>
    requires WellFormedRun(run)
  {
    if run == [] then State(map[], map[]) else RefStep(RefRun(run[..|run| - 1]), run[|run| - 1])
  }

  lemma WriteIsRead<V>(w: Write<V>, now: int)
    requires 0 <= w.at && w.ttl <= 0x7FFF_FFFF_FFFF_FFFF && w.at + w.ttl * 1_000_000_000 <= 0x7FFF_FFFF_FFFF_FFFF
    ensures Expired(Item(w.value, Deadline(w.at, w.ttl)), now) <==> !(w.ttl <= 0 || now <= w.at + w.ttl * 1_000_000_000)
  {
    if w.ttl > 0 {
      DeadlineExact(w.at, w.ttl);
    }
  }

  /** The entry of the key is that of its last write. */
  ghost predicate SameEntry<K, V>(s: State<K, V>, run: seq<Op<K, V>>, k: K) {
    match LastWrite(run, k)
    case None => k !in s.m
    case Some(w) => k in s.m && s.m[k] == Item(w.value, Deadline(w.at, w.ttl))
  }

  lemma {:induction false} TagsAreHistory<K, V>(run: seq<Op<K, V>>, k: K, t: string)
    requires WellFormedRun(run)
    ensures Tagged(RefRun(run), k, t) <==> HasTag(run, k, t)
    decreases |run|
  {
    hide AddTags, RemoveTags, EvictAll, AfterDeleteByTag;
    if run != [] {
      var before := run[..|run| - 1];
      var s := RefRun(before);
      TagsAreHistory(before, k, t);
      match run[|run| - 1]
      case Set(key, v, ttl, tags, now) =>
        TaggedAfterAdd(s.(m := s.m[key := Item(v, Deadline(now, ttl))]), key, tags, k, t);
      case TagKey(key, tags) => TaggedAfterAdd(s, key, tags, k, t);
      case UntagKey(key, tags) => TaggedAfterRemove(s, key, tags, k, t);
      case DeleteMany(keys) => TaggedAfterDeletes(s, keys, k, t);
      case DeleteByTag(tag) =>
        TagsAreHistory(before, k, tag);
        TaggedAfterDeleteByTag(s, tag, k, t);
      case _ =>
    }
  }

  lemma {:induction false} EvictedEntries<K, V>(s: State<K, V>, keys: seq<K>, k: K)
    ensures k in EvictAll(s, keys).m <==> k in s.m && k !in keys
    ensures k in EvictAll(s, keys).m ==> EvictAll(s, keys).m[k] == s.m[k]
    decreases |keys|
  {
    if keys != [] {
      EvictedEntries(s, keys[..|keys| - 1], k);
      assert keys == keys[..|keys| - 1] + [keys[|keys| - 1]];
    }
  }

  lemma DeletedEntries<K, V>(s: State<K, V>, tag: string, k: K)
    ensures k in AfterDeleteByTag(s, tag).m <==> k in s.m && !Tagged(s, k, tag)
    ensures k in AfterDeleteByTag(s, tag).m ==> AfterDeleteByTag(s, tag).m[k] == s.m[k]
  {
  }

  lemma {:induction false} EntriesAreHistory<K, V>(run: seq<Op<K, V>>, k: K)
    requires WellFormedRun(run)
    ensures SameEntry(RefRun(run), run, k)
    decreases |run|
  {
    hide AddTags, RemoveTags, EvictAll, AfterDeleteByTag, Deadline, HasTag, Tagged;
    if run != [] {
      var before := run[..|run| - 1];
      var s := RefRun(before);
      EntriesAreHistory(before, k);
      match run[|run| - 1]
      case Set(key, v, ttl, tags, now) =>
        TagsLeaveEntries(s.(m := s.m[key := Item(v, Deadline(now, ttl))]), key, tags);
      case TagKey(key, tags) => TagsLeaveEntries(s, key, tags);
      case UntagKey(key, tags) => TagsLeaveEntries(s, key, tags);
      case DeleteMany(keys) => EvictedEntries(s, keys, k);
      case DeleteByTag(tag) =>
        TagsAreHistory(before, k, tag);
        DeletedEntries(s, tag, k);
      case _ =>
    }
  }

  /** A write is the last write of its key, so it is one of the run. */
  lemma {:induction false} WrittenInRun<K, V>(run: seq<Op<K, V>>, k: K) returns (i: nat)
    requires LastWrite(run, k).Some?
    ensures i < |run| && run[i].Set? && LastWrite(run, k).value == Write(run[i].value, run[i].ttl, run[i].now)
    decreases |run|
  {
    hide HasTag;
    var n := |run| - 1;
    if run[n].Set? && run[n].key == k {
      i := n;
    } else {
      i := WrittenInRun(run[..n], k);
    }
  }

  lemma ReadIsFound<K, V>(run: seq<Op<K, V>>, k: K, now: int)
    requires WellFormedRun(run) && DeadlinesFit(run)
    ensures Read(RefRun(run).m, k, now) == Found(run, k, now)
  {
    hide RefRun, LastWrite, Deadline, Expired;
    EntriesAreHistory(run, k);
    if LastWrite(run, k).Some? {
      var i := WrittenInRun(run, k);
      WriteIsRead(LastWrite(run, k).value, now);
    }
  }

  lemma {:induction false} RefReadsAt<K, V>(m: Entries<K, V>, keys: seq<K>, nows: seq<int>)
    requires |keys| == |nows|
    ensures |RefReads(m, keys, nows)| == |keys|
    ensures forall j :: 0 <= j < |keys| ==> RefReads(m, keys, nows)[j] == Read(m, keys[j], nows[j])
    decreases |keys|
  {
    hide Read;
    if keys != [] {
      RefReadsAt(m, keys[..|keys| - 1], nows[..|keys| - 1]);
    }
  }

  lemma LiveIsRead<K, V>(m: Entries<K, V>, filter: (K, V) -> bool, at: K -> int, k: K)
    ensures k in Live(m, filter, at) <==> Read(m, k, at(k)).Some? && filter(k, Read(m, k, at(k)).value)
    ensures k in Live(m, filter, at) ==> Live(m, filter, at)[k] == Read(m, k, at(k)).value
  {
  }

  lemma RefAnswerIsRight<K(!new), V>(run: seq<Op<K, V>>, op: Op<K, V>)
    requires WellFormedRun(run) && DeadlinesFit(run) && WellFormed(op)
    ensures RightAnswer(run, op, RefAnswer(RefRun(run), op))
  {
    hide RefRun, Found, Read, Live, RefReads;
    var m := RefRun(run).m;
    match op
    case Get(k, now) => ReadIsFound(run, k, now);
    case GetOrDefault(k, _, now) => ReadIsFound(run, k, now);
    case GetMany(keys, nows) =>
      RefReadsAt(m, keys, nows);
      forall j | 0 <= j < |keys|
        ensures RefReads(m, keys, nows)[j] == Found(run, keys[j], nows[j])
      {
        ReadIsFound(run, keys[j], nows[j]);
      }
    case IterateFilter(filter, at, _) =>
      forall k
        ensures k in Live(m, filter, at) <==> Found(run, k, at(k)).Some? && filter(k, Found(run, k, at(k)).value)
        ensures k in Live(m, filter, at) ==> Live(m, filter, at)[k] == Found(run, k, at(k)).value
      {
        LiveIsRead(m, filter, at, k);
        ReadIsFound(run, k, at(k));
      }
    case _ =>
  }

  // ----- runs -----

  lemma {:induction false} RefAnswersAreRight<K(!new), V>(before: seq<Op<K, V>>, run: seq<Op<K, V>>, clock: int)
    requires WellFormedRun(before + run) && DeadlinesFit(before + run) && WellFormedRun(before) && GoodRun(run, clock)
    ensures |RefAnswers(RefRun(before), run, clock)| == |run|
    ensures forall i :: 0 <= i < |run| && WellFormed(run[i]) ==>
                          RightAnswer(before + run[..i], run[i], RefAnswers(RefRun(before), run, clock)[i])
    decreases |run|
  {
    hide RightAnswer, RefAnswer, RefStep, WellFormed, InTime;
    if run != [] {
      var more := before + [run[0]];
      assert more + run[1..] == before + run && more[..|more| - 1] == before;
      assert WellFormedRun(more);
      RefAnswersAreRight(more, run[1..], Clock(run[0], clock));
      Fits(before, run);
      RefAnswerIsRight(before, run[0]);
      assert before + run[..0] == before;
      forall i | 1 <= i < |run|
        ensures more + run[1..][..i - 1] == before + run[..i]
      {
      }
    }
  }

  lemma Fits<K, V>(before: seq<Op<K, V>>, run: seq<Op<K, V>>)
    requires DeadlinesFit(before + run)
    ensures DeadlinesFit(before)
  {
    forall i | 0 <= i < |before| && before[i].Set?
      ensures && 0 <= before[i].now && before[i].ttl <= 0x7FFF_FFFF_FFFF_FFFF
              && before[i].now + before[i].ttl * 1_000_000_000 <= 0x7FFF_FFFF_FFFF_FFFF
    {
      assert (before + run)[i] == before[i];
    }
  }

  lemma {:induction false} GoodIsWellFormed<K(!new), V>(run: seq<Op<K, V>>, clock: int)
    requires GoodRun(run, clock)
    ensures WellFormedRun(run)
    decreases |run|
  {
    if run != [] {
      GoodIsWellFormed(run[1..], Clock(run[0], clock));
      assert forall i :: 1 <= i < |run| ==> run[i] == run[1..][i - 1];
    }
  }

  lemma SelfAgree<K(!new), V>(s: State<K, V>, clock: int)
    ensures ReadsAgree(s.m, s.m, clock) && TagsAgree(s, s, clock)
  {
    assert forall k: K :: SameTags(s, s, k);
  }

  /**
   In every run from an empty cache, each call answers what the calls before it say, as long as the clock does not run
   backwards, deadlines fit, and there is no `DeleteByTag` or keys that are gone get their tags again.
   */
  lemma HistoryDecides<K(!new), V>(run: seq<Op<K, V>>, clock: int)
    requires GoodRun(run, clock) && DeadlinesFit(run)
    requires (forall i :: 0 <= i < |run| ==> !run[i].DeleteByTag?) || RepeatsTags(State(map[], map[]), run, clock)
    ensures var answers := Answers(State(map[], map[]), run, clock);
            && |answers| == |run|
            && forall i :: 0 <= i < |run| && WellFormed(run[i]) ==> RightAnswer(run[..i], run[i], answers[i])
  {
    hide RightAnswer, WellFormed, RepeatsTags, ReadsAgree, TagsAgree;
    var s: State<K, V> := State(map[], map[]);
    var none: seq<Op<K, V>> := [];
    GoodIsWellFormed(run, clock);
    SelfAgree(s, clock);
    if forall i :: 0 <= i < |run| ==> !run[i].DeleteByTag? {
      EvictionInvisible(s, s, run, clock);
    } else {
      TaggedEvictionInvisible(s, s, run, clock);
    }
    assert none + run == run;
    assert RefRun(none) == s;
    RefAnswersAreRight(none, run, clock);
    assert forall i :: 0 <= i < |run| ==> none + run[..i] == run[..i];
  }
}
