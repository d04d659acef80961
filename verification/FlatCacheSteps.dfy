/**
 The full request through the flat cache as a protocol: any number of requests look under the read lock, load from
 the database without a lock, and store under the write lock without looking again. A locked section is a single
 access to the map and so a single step; the database may hold another view at every load.
 */
module FlatCacheSteps {
  import opened Text

  type Thread = nat
  type Store = nat
  /** The identity of a flat view. */
  type View = nat

  datatype Pc = Idle | Called(store: Store) | Missed(store: Store) | Loaded(store: Store, view: View)
  datatype Action = Call(store: Store) | Look | Load(view: View) | Put
  datatype Answer = Answer(t: Thread, store: Store, view: View)
  datatype State = State(cache: map<Store, View>, pcs: map<Thread, Pc>, answers: seq<Answer>)

  const INIT := State(map[], map[], [])

  function At(s: State, t: Thread): Pc {
    if t in s.pcs then s.pcs[t] else Idle
  }

  predicate Enabled(s: State, t: Thread, a: Action) {
    match a
    case Call(_) => At(s, t).Idle?
    case Look => At(s, t).Called?
    case Load(_) => At(s, t).Missed?
    case Put => At(s, t).Loaded?
  }

  function Goto(s: State, t: Thread, pc: Pc): State {
    s.(pcs := s.pcs[t := pc])
  }

  function Step(s: State, t: Thread, a: Action): State
    requires Enabled(s, t, a)
  {
    var pc := At(s, t);
    match a
    case Call(store) => Goto(s, t, Called(store))
    case Look =>
      if pc.store in s.cache
      then Goto(s, t, Idle).(answers := s.answers + [Answer(t, pc.store, s.cache[pc.store])])
      else Goto(s, t, Missed(pc.store))
    case Load(view) => Goto(s, t, Loaded(pc.store, view))
    case Put =>
      Goto(s, t, Idle).(cache := s.cache[pc.store := pc.view], answers := s.answers + [Answer(t, pc.store, pc.view)])
  }

  predicate Legal(s: State, run: seq<(Thread, Action)>)
    decreases |run|
  {
    run == [] || (Enabled(s, run[0].0, run[0].1) && Legal(Step(s, run[0].0, run[0].1), run[1..]))
  }

  function After(s: State, run: seq<(Thread, Action)>): State
    requires Legal(s, run)
    decreases |run|
  {
    if run == [] then s else After(Step(s, run[0].0, run[0].1), run[1..])
  }

  lemma {:induction false} AfterSnoc(s: State, run: seq<(Thread, Action)>)
    requires Legal(s, run) && run != []
    ensures var n := |run| - 1;
            && Legal(s, run[..n]) && Enabled(After(s, run[..n]), run[n].0, run[n].1)
            && After(s, run) == Step(After(s, run[..n]), run[n].0, run[n].1)
    decreases |run|
  {
    hide Enabled, Step;
    var n := |run| - 1;
    if n == 0 {
      assert run[..0] == [] && run[1..] == [];
    } else {
      AfterSnoc(Step(s, run[0].0, run[0].1), run[1..]);
      assert run[1..][..n - 1] == run[..n][1..];
    }
  }

  lemma {:induction false} LegalPrefix(s: State, run: seq<(Thread, Action)>, n: nat)
    requires Legal(s, run) && n <= |run|
    ensures Legal(s, run[..n])
    decreases |run| - n
  {
    hide Enabled, Step;
    if n < |run| {
      AfterSnoc(s, run);
      LegalPrefix(s, run[..|run| - 1], n);
      assert run[..|run| - 1][..n] == run[..n];
    } else {
      assert run[..n] == run;
    }
  }

  // ----- what was done, read off the run -----

  /** The store that the request of `t` is for. */
  function LastCall(run: seq<(Thread, Action)>, t: Thread): Option<Store> {
    if run == [] then None
    else
      var last := run[|run| - 1];
      if last.0 == t && last.1.Call? then Some(last.1.store) else LastCall(run[..|run| - 1], t)
  }

  function LastLoad(run: seq<(Thread, Action)>, t: Thread): Option<View> {
    if run == [] then None
    else
      var last := run[|run| - 1];
      if last.0 == t && last.1.Load? then Some(last.1.view) else LastLoad(run[..|run| - 1], t)
  }

  /** When `t` last looked into the cache. */
  function LastLook(run: seq<(Thread, Action)>, t: Thread): Option<nat> {
    if run == [] then None
    else
      var n := |run| - 1;
      if run[n].0 == t && run[n].1.Look? then Some(n) else LastLook(run[..n], t)
  }

  /** Action `i` of the run stores into the cache of `store`. */
  predicate Stores(run: seq<(Thread, Action)>, i: nat, store: Store) {
    i < |run| && run[i].1.Put? && LastCall(run[..i], run[i].0) == Some(store)
  }

  /** Action `i` of the run loads `view` for `store`. */
  predicate Loads(run: seq<(Thread, Action)>, i: nat, store: Store, view: View) {
    i < |run| && run[i].1 == Load(view) && LastCall(run[..i], run[i].0) == Some(store)
  }

  function CallsOf(run: seq<(Thread, Action)>, t: Thread): seq<Store> {
    if run == [] then []
    else
      var last := run[|run| - 1];
      CallsOf(run[..|run| - 1], t) + if last.0 == t && last.1.Call? then [last.1.store] else []
  }

  function AnsweredTo(answers: seq<Answer>, t: Thread): seq<Store> {
    if answers == [] then []
    else
      var last := answers[|answers| - 1];
      AnsweredTo(answers[..|answers| - 1], t) + if last.t == t then [last.store] else []
  }

  function UnderWay(pc: Pc): seq<Store> {
    if pc.Idle? then [] else [pc.store]
  }

  // ----- the state and the run agree -----

  /** A request is for the store that was asked for, and carries the view that it loaded for it. */
  ghost predicate RequestInv(run: seq<(Thread, Action)>, s: State) {
    forall t: Thread ::
      && (!At(s, t).Idle? ==> LastCall(run, t) == Some(At(s, t).store))
      && (At(s, t).Loaded? ==>
            && LastLoad(run, t) == Some(At(s, t).view)
            && exists i :: Loads(run, i, At(s, t).store, At(s, t).view))
  }

  /** Whatever is cached or answered for a store was loaded for it. */
  ghost predicate LoadInv(run: seq<(Thread, Action)>, s: State) {
    && (forall store :: store in s.cache ==> exists i :: Loads(run, i, store, s.cache[store]))
    && (forall a :: a in s.answers ==> exists i :: Loads(run, i, a.store, a.view))
  }

  /** A store is cached exactly if something was stored for it; whoever missed had looked before that. */
  ghost predicate StoreInv(run: seq<(Thread, Action)>, s: State) {
    && (forall store: Store :: store in s.cache <==> exists i :: Stores(run, i, store))
    && (forall t: Thread :: At(s, t).Missed? || At(s, t).Loaded? ==>
          && LastLook(run, t).Some?
          && forall i :: Stores(run, i, At(s, t).store) ==> LastLook(run, t).value < i)
  }

  lemma EventsStay(run: seq<(Thread, Action)>, e: (Thread, Action))
    ensures forall i: nat, store: Store, view: View :: Loads(run, i, store, view) ==> Loads(run + [e], i, store, view)
    ensures forall i: nat, store: Store :: Stores(run + [e], i, store) <==>
              Stores(run, i, store) || (i == |run| && e.1.Put? && LastCall(run, e.0) == Some(store))
    ensures e.1.Load? && LastCall(run, e.0).Some? ==> Loads(run + [e], |run|, LastCall(run, e.0).value, e.1.view)
  {
    var more := run + [e];
    assert more[..|run|] == run;
    assert forall i :: 0 <= i < |run| ==> more[i] == run[i] && more[..i] == run[..i];
  }

  lemma LastStay(run: seq<(Thread, Action)>, e: (Thread, Action), t: Thread)
    ensures LastCall(run + [e], t) == if e.0 == t && e.1.Call? then Some(e.1.store) else LastCall(run, t)
    ensures LastLoad(run + [e], t) == if e.0 == t && e.1.Load? then Some(e.1.view) else LastLoad(run, t)
    ensures LastLook(run + [e], t) == if e.0 == t && e.1.Look? then Some(|run|) else LastLook(run, t)
  {
    assert (run + [e])[..|run|] == run;
  }

  lemma StepKeepsRequests(run: seq<(Thread, Action)>, s: State, t: Thread, a: Action)
    requires RequestInv(run, s) && Enabled(s, t, a)
    ensures RequestInv(run + [(t, a)], Step(s, t, a))
  {
    hide Loads, Stores, LastCall, LastLoad, LastLook;
    var r := Step(s, t, a);
    EventsStay(run, (t, a));
    assert forall x: Thread :: x != t ==> At(r, x) == At(s, x);
    forall x: Thread
      ensures !At(r, x).Idle? ==> LastCall(run + [(t, a)], x) == Some(At(r, x).store)
      ensures At(r, x).Loaded? ==> LastLoad(run + [(t, a)], x) == Some(At(r, x).view) &&
                                   exists i :: Loads(run + [(t, a)], i, At(r, x).store, At(r, x).view)
    {
      LastStay(run, (t, a), x);
    }
  }

  lemma StepKeepsLoads(run: seq<(Thread, Action)>, s: State, t: Thread, a: Action)
    requires RequestInv(run, s) && LoadInv(run, s) && Enabled(s, t, a)
    ensures LoadInv(run + [(t, a)], Step(s, t, a))
  {
    hide Loads, Stores, LastCall, LastLoad, LastLook;
    EventsStay(run, (t, a));
  }

  lemma StepKeepsStores(run: seq<(Thread, Action)>, s: State, t: Thread, a: Action)
    requires RequestInv(run, s) && StoreInv(run, s) && Enabled(s, t, a)
    ensures StoreInv(run + [(t, a)], Step(s, t, a))
  {
    hide Loads, LastCall, LastLoad, LastLook;
    var r := Step(s, t, a);
    EventsStay(run, (t, a));
    hide Stores;
    assert forall x: Thread :: x != t ==> At(r, x) == At(s, x);
    LooksInRun(run);
    forall x: Thread | At(r, x).Missed? || At(r, x).Loaded?
      ensures LastLook(run + [(t, a)], x).Some?
      ensures forall i :: Stores(run + [(t, a)], i, At(r, x).store) ==> LastLook(run + [(t, a)], x).value < i
    {
      LastStay(run, (t, a), x);
    }
    CachedIffStored(run, s, t, a);
  }

  lemma {:induction false} LooksInRun(run: seq<(Thread, Action)>)
    ensures forall t: Thread :: LastLook(run, t).Some? ==> LastLook(run, t).value < |run|
    decreases |run|
  {
    if run != [] {
      LooksInRun(run[..|run| - 1]);
    }
  }

  lemma CachedIffStored(run: seq<(Thread, Action)>, s: State, t: Thread, a: Action)
    requires RequestInv(run, s) && StoreInv(run, s) && Enabled(s, t, a)
    ensures forall store: Store :: store in Step(s, t, a).cache <==> exists i :: Stores(run + [(t, a)], i, store)
  {
    hide Loads, LastCall, LastLoad, LastLook;
    EventsStay(run, (t, a));
    hide Stores;
    if a.Put? {
      assert Stores(run + [(t, a)], |run|, At(s, t).store);
    }
  }

  lemma StepKeepsInv(run: seq<(Thread, Action)>, s: State, t: Thread, a: Action)
    requires RequestInv(run, s) && LoadInv(run, s) && StoreInv(run, s) && Enabled(s, t, a)
    ensures RequestInv(run + [(t, a)], Step(s, t, a))
    ensures LoadInv(run + [(t, a)], Step(s, t, a)) && StoreInv(run + [(t, a)], Step(s, t, a))
  {
    hide RequestInv, LoadInv, StoreInv, Step, Enabled;
    StepKeepsRequests(run, s, t, a);
    StepKeepsLoads(run, s, t, a);
    StepKeepsStores(run, s, t, a);
  }

  lemma InitInv()
    ensures RequestInv([], INIT) && LoadInv([], INIT) && StoreInv([], INIT)
  {
  }

  lemma {:induction false} RunKeepsInv(run: seq<(Thread, Action)>)
    requires Legal(INIT, run)
    ensures RequestInv(run, After(INIT, run)) && LoadInv(run, After(INIT, run)) && StoreInv(run, After(INIT, run))
    decreases |run|
  {
    hide RequestInv, LoadInv, StoreInv, Step, Enabled;
    if run == [] {
      InitInv();
    } else {
      var n := |run| - 1;
      AfterSnoc(INIT, run);
      RunKeepsInv(run[..n]);
      StepKeepsInv(run[..n], After(INIT, run[..n]), run[n].0, run[n].1);
      assert run == run[..n] + [(run[n].0, run[n].1)];
    }
  }

  /** In every interleaving, cached views and answers are views that some full request for the store loaded. */
  lemma OnlyLoadedViews(run: seq<(Thread, Action)>)
    requires Legal(INIT, run)
    ensures var s := After(INIT, run);
            && (forall store :: store in s.cache ==> exists i :: Loads(run, i, store, s.cache[store]))
            && (forall a :: a in s.answers ==> exists i :: Loads(run, i, a.store, a.view))
  {
    RunKeepsInv(run);
  }

  /** What is stored is what the storing request loaded, for the store it was called for. */
  lemma PutsItsLoad(run: seq<(Thread, Action)>, t: Thread)
    requires Legal(INIT, run) && Enabled(After(INIT, run), t, Put)
    ensures LastCall(run, t).Some? && LastLoad(run, t).Some?
    ensures Step(After(INIT, run), t, Put).cache ==
            After(INIT, run).cache[LastCall(run, t).value := LastLoad(run, t).value]
  {
    hide LastCall, LastLoad, Loads, LoadInv, StoreInv;
    RunKeepsInv(run);
  }

  lemma AnswersGrow(s: State, t: Thread, a: Action, x: Thread)
    requires Enabled(s, t, a)
    ensures AnsweredTo(Step(s, t, a).answers, x) + UnderWay(At(Step(s, t, a), x)) ==
            AnsweredTo(s.answers, x) + UnderWay(At(s, x)) + if x == t && a.Call? then [a.store] else []
  {
    var r := Step(s, t, a);
    if |r.answers| > |s.answers| {
      assert r.answers[..|r.answers| - 1] == s.answers;
    }
  }

  /** Every request is answered once, in order, and for the store it was made for; only the last may still be open. */
  lemma {:induction false} EveryRequestAnswered(run: seq<(Thread, Action)>, t: Thread)
    requires Legal(INIT, run)
    ensures AnsweredTo(After(INIT, run).answers, t) + UnderWay(At(After(INIT, run), t)) == CallsOf(run, t)
    decreases |run|
  {
    hide Enabled, Step, At;
    if run == [] {
      assert At(INIT, t) == Idle by { NobodyYet(t); }
    } else {
      var n := |run| - 1;
      AfterSnoc(INIT, run);
      EveryRequestAnswered(run[..n], t);
      AnswersGrow(After(INIT, run[..n]), run[n].0, run[n].1, t);
    }
  }

  lemma NobodyYet(t: Thread)
    ensures At(INIT, t) == Idle
  {
  }

  /** A cached view is only ever replaced by a request that had looked before the first view was stored. */
  lemma ReplacedByEarlyLook(run: seq<(Thread, Action)>, store: Store, i: nat, j: nat)
    requires Legal(INIT, run) && i < j && Stores(run, i, store) && Stores(run, j, store)
    ensures LastLook(run[..j], run[j].0).Some? && LastLook(run[..j], run[j].0).value < i
  {
    hide LastCall, LastLoad, LastLook, Loads, LoadInv;
    LegalPrefix(INIT, run, j + 1);
    AfterSnoc(INIT, run[..j + 1]);
    assert run[..j + 1][..j] == run[..j] && run[..j][..i] == run[..i];
    RunKeepsInv(run[..j]);
    assert Stores(run[..j], i, store);
  }

  // ----- when a cached view stays -----

  /** The request has looked, missed, and will store something else than what is cached, or may do so. */
  predicate MayReplace(s: State, pc: Pc, store: Store)
    requires store in s.cache
  {
    (pc.Missed? && pc.store == store) || (pc.Loaded? && pc.store == store && pc.view != s.cache[store])
  }

  ghost predicate Replaces(s: State, more: seq<(Thread, Action)>, store: Store)
    requires store in s.cache
  {
    Legal(s, more) && !(store in After(s, more).cache && After(s, more).cache[store] == s.cache[store])
  }

  lemma {:induction false} NobodyReplaces(s: State, more: seq<(Thread, Action)>, store: Store)
    requires store in s.cache && Legal(s, more)
    requires forall t: Thread :: !MayReplace(s, At(s, t), store)
    ensures !Replaces(s, more, store)
    decreases |more|
  {
    if more != [] {
      var r := Step(s, more[0].0, more[0].1);
      assert !MayReplace(s, At(s, more[0].0), store);
      assert forall t: Thread :: t != more[0].0 ==> At(r, t) == At(s, t);
      assert store in r.cache && r.cache[store] == s.cache[store];
      NobodyReplaces(r, more[1..], store);
    }
  }

  lemma RunCons(s: State, t: Thread, a: Action, more: seq<(Thread, Action)>)
    requires Enabled(s, t, a) && Legal(Step(s, t, a), more)
    ensures Legal(s, [(t, a)] + more) && After(s, [(t, a)] + more) == After(Step(s, t, a), more)
  {
    assert ([(t, a)] + more)[1..] == more;
  }

  /**
   From a state where a store is cached, its view is the same in every continuation exactly if no request for the
   store is between its miss and the store of another view.
   */
  lemma FrozenIff(s: State, store: Store)
    requires store in s.cache
    ensures (forall more :: !Replaces(s, more, store)) <==> forall t: Thread :: !MayReplace(s, At(s, t), store)
  {
    if forall t: Thread :: !MayReplace(s, At(s, t), store) {
      forall more
        ensures !Replaces(s, more, store)
      {
        if Legal(s, more) {
          NobodyReplaces(s, more, store);
        }
      }
    } else {
      var t: Thread :| MayReplace(s, At(s, t), store);
      var other := s.cache[store] + 1;
      var none: seq<(Thread, Action)> := [];
      if At(s, t).Missed? {
        RunCons(Step(s, t, Load(other)), t, Put, none);
        RunCons(s, t, Load(other), [(t, Put)] + none);
        assert Replaces(s, [(t, Load(other))] + ([(t, Put)] + none), store);
      } else {
        RunCons(s, t, Put, none);
        assert Replaces(s, [(t, Put)] + none, store);
      }
    }
  }

  /** Two requests that both miss: view 5 is cached and answered, and then view 6 takes its place. */
  lemma OverlapReplaces()
    ensures var run := [(0, Call(1)), (1, Call(1)), (0, Look), (1, Look), (0, Load(5)), (0, Put)];
            Legal(INIT, run) && After(INIT, run).cache == map[1 := 5]
    ensures var run := [(0, Call(1)), (1, Call(1)), (0, Look), (1, Look),
                        (0, Load(5)), (0, Put), (1, Load(6)), (1, Put)];
            Legal(INIT, run) && After(INIT, run).cache == map[1 := 6]
  {
    var s1 := Step(INIT, 0, Call(1));
    var s2 := Step(s1, 1, Call(1));
    var s3 := Step(s2, 0, Look);
    var s4 := Step(s3, 1, Look);
    var s5 := Step(s4, 0, Load(5));
    var s6 := Step(s5, 0, Put);
    var s7 := Step(s6, 1, Load(6));
    var none: seq<(Thread, Action)> := [];
    RunCons(s7, 1, Put, none);
    RunCons(s6, 1, Load(6), [(1, Put)]);
    TwoMisses(s5, none);
    TwoMisses(s5, [(1, Load(6)), (1, Put)]);
  }

  lemma TwoMisses(s5: State, more: seq<(Thread, Action)>)
    requires s5 == State(map[], map[0 := Loaded(1, 5), 1 := Missed(1)], []) && Legal(Step(s5, 0, Put), more)
    ensures var run := [(0, Call(1)), (1, Call(1)), (0, Look), (1, Look), (0, Load(5)), (0, Put)] + more;
            Legal(INIT, run) && After(INIT, run) == After(Step(s5, 0, Put), more)
  {
    var s1 := Step(INIT, 0, Call(1));
    var s2 := Step(s1, 1, Call(1));
    var s3 := Step(s2, 0, Look);
    var s4 := Step(s3, 1, Look);
    assert Step(s4, 0, Load(5)) == s5;
    RunCons(s5, 0, Put, more);
    RunCons(s4, 0, Load(5), [(0, Put)] + more);
    RunCons(s3, 1, Look, [(0, Load(5))] + ([(0, Put)] + more));
    RunCons(s2, 0, Look, [(1, Look)] + ([(0, Load(5))] + ([(0, Put)] + more)));
    RunCons(s1, 1, Call(1), [(0, Look)] + ([(1, Look)] + ([(0, Load(5))] + ([(0, Put)] + more))));
    RunCons(INIT, 0, Call(1), [(1, Call(1))] + ([(0, Look)] + ([(1, Look)] + ([(0, Load(5))] + ([(0, Put)] + more)))));
    assert [(0, Call(1))] + ([(1, Call(1))] + ([(0, Look)] + ([(1, Look)] + ([(0, Load(5))] + ([(0, Put)] + more))))) ==
           [(0, Call(1)), (1, Call(1)), (0, Look), (1, Look), (0, Load(5)), (0, Put)] + more;
  }
}
