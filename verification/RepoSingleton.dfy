/**
 `GetProductRepository` as a protocol: any number of callers, a read-write lock, and a map that is
 checked under the read lock and again under the write lock before a repository is made and published.
 */
module RepoSingleton {
  import opened Text

  type Thread = nat
  type Handle = nat
  type Repo = nat

  /** Where a caller is. `Reading` and `Looked` hold the read lock; `Writing`, `Made` and `Settled` the write lock. */
  datatype Pc =
    | Idle
    | Called(db: Handle)
    | Reading(db: Handle)
    | Looked(db: Handle, hit: Option<Repo>)
    | Missed(db: Handle)
    | Writing(db: Handle)
    | Made(db: Handle, repo: Repo)
    | Settled(db: Handle, repo: Repo)

  datatype Action = Call(db: Handle) | RLock | Look | RUnlock | Lock | LookAgain | Make | Publish | Unlock

  datatype Answer = Answer(t: Thread, db: Handle, repo: Repo)

  /** `published` and `answers` record what was stored in the map and what was returned to callers. */
  datatype State = State(
    repos: map<Handle, Repo>,
    next: Repo,
    readers: set<Thread>,
    writer: Option<Thread>,
    pcs: map<Thread, Pc>,
    published: seq<(Handle, Repo)>,
    answers: seq<Answer>)

  const INIT := State(map[], 0, {}, None, map[], [], [])

  function At(s: State, t: Thread): Pc {
    if t in s.pcs then s.pcs[t] else Idle
  }

  predicate Enabled(s: State, t: Thread, a: Action) {
    match a
    case Call(_) => At(s, t).Idle?
    case RLock => At(s, t).Called? && s.writer.None?
    case Look => At(s, t).Reading?
    case RUnlock => At(s, t).Looked?
    case Lock => At(s, t).Missed? && s.writer.None? && s.readers == {}
    case LookAgain => At(s, t).Writing? && At(s, t).db in s.repos
    case Make => At(s, t).Writing? && At(s, t).db !in s.repos
    case Publish => At(s, t).Made?
    case Unlock => At(s, t).Settled?
  }

  function Goto(s: State, t: Thread, pc: Pc): State {
    s.(pcs := s.pcs[t := pc])
  }

  function Step(s: State, t: Thread, a: Action): State
    requires Enabled(s, t, a)
  {
    var pc := At(s, t);
    match a
    case Call(db) => Goto(s, t, Called(db))
    case RLock => Goto(s, t, Reading(pc.db)).(readers := s.readers + {t})
    case Look => Goto(s, t, Looked(pc.db, if pc.db in s.repos then Some(s.repos[pc.db]) else None))
    case RUnlock =>
      var r := s.(readers := s.readers - {t});
      if pc.hit.Some? then Goto(r, t, Idle).(answers := s.answers + [Answer(t, pc.db, pc.hit.value)])
      else Goto(r, t, Missed(pc.db))
    case Lock => Goto(s, t, Writing(pc.db)).(writer := Some(t))
    case LookAgain => Goto(s, t, Settled(pc.db, s.repos[pc.db]))
    case Make => Goto(s, t, Made(pc.db, s.next)).(next := s.next + 1)
    case Publish =>
      Goto(s, t, Settled(pc.db, pc.repo)).(repos := s.repos[pc.db := pc.repo],
                                           published := s.published + [(pc.db, pc.repo)])
    case Unlock => Goto(s, t, Idle).(writer := None, answers := s.answers + [Answer(t, pc.db, pc.repo)])
  }

  // ----- invariant -----

  predicate HoldsRead(pc: Pc) {
    pc.Reading? || pc.Looked?
  }

  predicate HoldsWrite(pc: Pc) {
    pc.Writing? || pc.Made? || pc.Settled?
  }

  /** The lock: its holders are the callers that are between taking and releasing it, and a writer is alone. */
  ghost predicate LockInv(s: State) {
    && (forall t: Thread :: t in s.readers <==> HoldsRead(At(s, t)))
    && (forall t: Thread :: s.writer == Some(t) <==> HoldsWrite(At(s, t)))
    && (s.writer.Some? ==> s.readers == {})
  }

  /** What a caller has read or made agrees with the map. */
  ghost predicate LocalInv(s: State) {
    forall t: Thread ::
      match At(s, t)
      case Looked(db, Some(r)) => db in s.repos && s.repos[db] == r
      case Made(db, r) => db !in s.repos && r < s.next && r !in s.repos.Values
      case Settled(db, r) => db in s.repos && s.repos[db] == r
      case _ => true
  }

  /** The map holds what was published, once per handle, and different handles have different repositories. */
  ghost predicate MapInv(s: State) {
    && (forall db :: db in s.repos ==> s.repos[db] < s.next)
    && (forall a, b :: a in s.repos && b in s.repos && s.repos[a] == s.repos[b] ==> a == b)
    && (forall i :: 0 <= i < |s.published| ==>
          s.published[i].0 in s.repos && s.repos[s.published[i].0] == s.published[i].1)
    && (forall i, j :: 0 <= i < j < |s.published| ==> s.published[i].0 != s.published[j].0)
    && (forall i :: 0 <= i < |s.answers| ==>
          s.answers[i].db in s.repos && s.repos[s.answers[i].db] == s.answers[i].repo)
  }

  ghost predicate Inv(s: State) {
    LockInv(s) && LocalInv(s) && MapInv(s)
  }

  lemma StepKeepsLock(s: State, t: Thread, a: Action)
    requires Inv(s) && Enabled(s, t, a)
    ensures LockInv(Step(s, t, a))
  {
    hide LocalInv, MapInv;
    var r := Step(s, t, a);
    assert forall x :: x != t ==> At(r, x) == At(s, x);
  }

  lemma StepKeepsLocal(s: State, t: Thread, a: Action)
    requires Inv(s) && Enabled(s, t, a)
    ensures LocalInv(Step(s, t, a))
  {
    var r := Step(s, t, a);
    assert forall x :: x != t ==> At(r, x) == At(s, x);
    if a.Publish? {
      assert HoldsWrite(At(s, t));
      assert forall x :: x != t ==> !HoldsWrite(At(s, x)) && !HoldsRead(At(s, x));
    }
    if a.Make? {
      assert forall x :: x != t ==> !HoldsWrite(At(s, x));
    }
  }

  lemma StepKeepsMap(s: State, t: Thread, a: Action)
    requires Inv(s) && Enabled(s, t, a)
    ensures MapInv(Step(s, t, a))
  {
    hide LockInv;
    var pc := At(s, t);
    if a.Publish? {
      assert pc.db !in s.repos && pc.repo !in s.repos.Values;
      forall db | db in s.repos
        ensures s.repos[db] != pc.repo
      {
        assert s.repos[db] in s.repos.Values;
      }
    }
  }

  lemma StepKeepsInv(s: State, t: Thread, a: Action)
    requires Inv(s) && Enabled(s, t, a)
    ensures Inv(Step(s, t, a))
  {
    hide Inv, LockInv, LocalInv, MapInv;
    StepKeepsLock(s, t, a);
    StepKeepsLocal(s, t, a);
    StepKeepsMap(s, t, a);
    Combine(Step(s, t, a));
  }

  lemma Combine(s: State)
    requires LockInv(s) && LocalInv(s) && MapInv(s)
    ensures Inv(s)
  {
  }

  // ----- runs -----

  predicate Legal(s: State, run: seq<(Thread, Action)>)
    decreases |run|
  {
    run == [] || (Enabled(s, run[0].0, run[0].1) && Legal(Step(s, run[0].0, run[0].1), run[1..]))
  }

  function After(s: State, run: seq<(Thread, Action)>): State
    requires Legal(s, run)
    decreases |run|
  {
    if run == [] then s else After(Step(s, run[0].0, run[0].1), run[1..])
  }

  lemma {:induction false} RunKeepsInv(s: State, run: seq<(Thread, Action)>)
    requires Inv(s) && Legal(s, run)
    ensures Inv(After(s, run))
    decreases |run|
  {
    hide Inv, Step, Enabled;
    if run != [] {
      StepKeepsInv(s, run[0].0, run[0].1);
      RunKeepsInv(Step(s, run[0].0, run[0].1), run[1..]);
    }
  }

  /** An entry of the map stays what it is, in every continuation. */
  lemma {:induction false} EntryNeverChanges(s: State, run: seq<(Thread, Action)>, db: Handle)
    requires Inv(s) && Legal(s, run) && db in s.repos
    ensures db in After(s, run).repos && After(s, run).repos[db] == s.repos[db]
    decreases |run|
  {
    hide LockInv, MapInv;
    if run != [] {
      StepKeepsInv(s, run[0].0, run[0].1);
      EntryNeverChanges(Step(s, run[0].0, run[0].1), run[1..], db);
    }
  }

  lemma InitInv()
    ensures Inv(INIT)
  {
  }

  // ----- what was asked for -----

  /** The handles that a caller asked for, in order: this is read off the run, not off the state. */
  function CallsOf(run: seq<(Thread, Action)>, t: Thread): seq<Handle> {
    if run == [] then []
    else
      var last := run[|run| - 1];
      CallsOf(run[..|run| - 1], t) + if last.0 == t && last.1.Call? then [last.1.db] else []
  }

  /** The handles that a caller was given repositories for, in order. */
  function AnsweredTo(answers: seq<Answer>, t: Thread): seq<Handle> {
    if answers == [] then []
    else
      var last := answers[|answers| - 1];
      AnsweredTo(answers[..|answers| - 1], t) + if last.t == t then [last.db] else []
  }

  /** The call that is not answered yet. */
  function UnderWay(pc: Pc): seq<Handle> {
    if pc.Idle? then [] else [pc.db]
  }

  lemma {:induction false} AfterSnoc(s: State, run: seq<(Thread, Action)>)
    requires Legal(s, run) && run != []
    ensures var n := |run| - 1;
            && Legal(s, run[..n]) && Enabled(After(s, run[..n]), run[n].0, run[n].1)
            && After(s, run) == Step(After(s, run[..n]), run[n].0, run[n].1)
    decreases |run|
  {
    hide Enabled, Step;
    var n := |run| - 1;
    if n == 0 {
      assert run[..0] == [] && run[1..] == [];
    } else {
      AfterSnoc(Step(s, run[0].0, run[0].1), run[1..]);
      assert run[1..][..n - 1] == run[..n][1..];
    }
  }

  lemma AnswersGrow(s: State, t: Thread, a: Action, x: Thread)
    requires Enabled(s, t, a)
    ensures AnsweredTo(Step(s, t, a).answers, x) + UnderWay(At(Step(s, t, a), x)) ==
            AnsweredTo(s.answers, x) + UnderWay(At(s, x)) + if x == t && a.Call? then [a.db] else []
  {
    var r := Step(s, t, a);
    if |r.answers| > |s.answers| {
      assert r.answers[..|r.answers| - 1] == s.answers;
    }
  }

  /** Every call is answered once, in order, and for the handle that was asked for; only the last may still be open. */
  lemma {:induction false} EveryCallAnswered(run: seq<(Thread, Action)>, t: Thread)
    requires Legal(INIT, run)
    ensures AnsweredTo(After(INIT, run).answers, t) + UnderWay(At(After(INIT, run), t)) == CallsOf(run, t)
    decreases |run|
  {
    hide Enabled, Step, At;
    if run == [] {
      assert At(INIT, t) == Idle by { NobodyYet(t); }
    } else {
      var n := |run| - 1;
      AfterSnoc(INIT, run);
      EveryCallAnswered(run[..n], t);
      AnswersGrow(After(INIT, run[..n]), run[n].0, run[n].1, t);
    }
  }

  lemma NobodyYet(t: Thread)
    ensures At(INIT, t) == Idle
  {
  }

  /** How often a repository was published, read off the run. */
  function Publications(run: seq<(Thread, Action)>): nat {
    if run == [] then 0
    else Publications(run[..|run| - 1]) + if run[|run| - 1].1.Publish? then 1 else 0
  }

  lemma {:induction false} EveryPublicationCounts(run: seq<(Thread, Action)>)
    requires Legal(INIT, run)
    ensures |After(INIT, run).published| == Publications(run)
    decreases |run|
  {
    hide Enabled;
    if run != [] {
      AfterSnoc(INIT, run);
      EveryPublicationCounts(run[..|run| - 1]);
    }
  }

  /**
   In every interleaving of any number of callers: at most one repository is published per database handle, every
   answer is the published one, callers get the same repository exactly when they asked for the same handle, and what
   they are answered is what they asked for.
   */
  lemma OneRepositoryPerHandle(run: seq<(Thread, Action)>)
    requires Legal(INIT, run)
    ensures var s := After(INIT, run);
            && |s.published| == Publications(run)
            && (forall i, j :: 0 <= i < j < |s.published| ==> s.published[i].0 != s.published[j].0)
            && (forall i :: 0 <= i < |s.answers| ==>
                  s.answers[i].db in s.repos && s.repos[s.answers[i].db] == s.answers[i].repo)
            && (forall i, j :: 0 <= i < |s.answers| && 0 <= j < |s.answers| ==>
                  (s.answers[i].repo == s.answers[j].repo <==> s.answers[i].db == s.answers[j].db))
            && (forall t: Thread :: AnsweredTo(s.answers, t) + UnderWay(At(s, t)) == CallsOf(run, t))
  {
    hide LockInv, LocalInv;
    InitInv();
    RunKeepsInv(INIT, run);
    EveryPublicationCounts(run);
    forall t: Thread
      ensures AnsweredTo(After(INIT, run).answers, t) + UnderWay(At(After(INIT, run), t)) == CallsOf(run, t)
    {
      EveryCallAnswered(run, t);
    }
  }

  /** The action that a caller takes next. */
  function NextAction(s: State, t: Thread): Action {
    match At(s, t)
    case Idle => Call(0)
    case Called(_) => RLock
    case Reading(_) => Look
    case Looked(_, _) => RUnlock
    case Missed(_) => Lock
    case Writing(db) => if db in s.repos then LookAgain else Make
    case Made(_, _) => Publish
    case Settled(_, _) => Unlock
  }

  /** Nobody waits for ever on each other: as long as some caller is under way, some caller can go on. */
  lemma NoDeadlock(run: seq<(Thread, Action)>, t: Thread)
    requires Legal(INIT, run) && !At(After(INIT, run), t).Idle?
    ensures exists x: Thread ::
              !At(After(INIT, run), x).Idle? && Enabled(After(INIT, run), x, NextAction(After(INIT, run), x))
  {
    hide LocalInv, MapInv;
    InitInv();
    RunKeepsInv(INIT, run);
    var s := After(INIT, run);
    if s.writer.Some? {
      assert HoldsWrite(At(s, s.writer.value));
      assert Enabled(s, s.writer.value, NextAction(s, s.writer.value));
    } else if s.readers != {} {
      var x :| x in s.readers;
      assert HoldsRead(At(s, x));
      assert Enabled(s, x, NextAction(s, x));
    } else {
      assert !HoldsWrite(At(s, t)) && !HoldsRead(At(s, t));
      assert Enabled(s, t, NextAction(s, t));
    }
  }
}
