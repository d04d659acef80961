/**
 `RegisterModule` and `ApplyModules` in every interleaving. A registration holds the mutex `mu` throughout,
 but `ApplyModules` does not take it: it may lock the key between the check and the store.
 */
module ModuleRegistration {
  import opened Text

  type Thread = nat
  type Module = nat

  datatype Pc =
    | Idle
    | Wanting(fn: Module)
    | Holding(fn: Module)
    | Checked(fn: Module)
    | Loaded(fn: Module, list: seq<Module>)
    | Leaving
    | Applying(list: seq<Module>, next: nat)
    | Applied(list: seq<Module>)

  datatype Action = Begin(fn: Module) | MuLock | CheckLocked | GetModules | SetGlobal | MuUnlock
                  | Snapshot | CallNext | LockKey

  /** `panicked` records the registrations that panicked, `called` the modules that each `ApplyModules` has called. */
  datatype State = State(list: seq<Module>, locked: bool, mu: Option<Thread>, pcs: map<Thread, Pc>,
                         panicked: seq<Module>, called: map<Thread, seq<Module>>)

  const INIT := State([], false, None, map[], [], map[])

  function At(s: State, t: Thread): Pc {
    if t in s.pcs then s.pcs[t] else Idle
  }

  function CalledBy(s: State, t: Thread): seq<Module> {
    if t in s.called then s.called[t] else []
  }

  predicate HoldsMu(pc: Pc) {
    pc.Holding? || pc.Checked? || pc.Loaded? || pc.Leaving?
  }

  /** The registration is under way and has not stored its module yet. */
  predicate Pending(pc: Pc) {
    pc.Wanting? || pc.Holding? || pc.Checked? || pc.Loaded?
  }

  predicate Enabled(s: State, t: Thread, a: Action) {
    match a
    case Begin(_) => At(s, t).Idle?
    case MuLock => At(s, t).Wanting? && s.mu.None?
    case CheckLocked => At(s, t).Holding?
    case GetModules => At(s, t).Checked?
    case SetGlobal => At(s, t).Loaded?
    case MuUnlock => At(s, t).Leaving?
    case Snapshot => At(s, t).Idle?
    case CallNext => At(s, t).Applying? && At(s, t).next < |At(s, t).list|
    case LockKey => At(s, t).Applying? && At(s, t).next >= |At(s, t).list|
  }

  function Goto(s: State, t: Thread, pc: Pc): State {
    s.(pcs := s.pcs[t := pc])
  }

  function Step(s: State, t: Thread, a: Action): State
    requires Enabled(s, t, a)
  {
    var pc := At(s, t);
    match a
    case Begin(fn) => Goto(s, t, Wanting(fn))
    case MuLock => Goto(s, t, Holding(pc.fn)).(mu := Some(t))
    case CheckLocked =>
      if s.locked then Goto(s, t, Leaving).(panicked := s.panicked + [pc.fn]) else Goto(s, t, Checked(pc.fn))
    case GetModules => Goto(s, t, Loaded(pc.fn, s.list))
    case SetGlobal =>
      if s.locked then Goto(s, t, Leaving).(panicked := s.panicked + [pc.fn])
      else Goto(s, t, Leaving).(list := pc.list + [pc.fn])
    case MuUnlock => Goto(s, t, Idle).(mu := None)
    case Snapshot => Goto(s, t, Applying(s.list, 0)).(called := s.called[t := []])
    case CallNext =>
      Goto(s, t, Applying(pc.list, pc.next + 1)).(called := s.called[t := CalledBy(s, t) + [pc.list[pc.next]]])
    case LockKey => Goto(s, t, Applied(pc.list)).(locked := true)
  }

  // ----- runs -----

  predicate Legal(s: State, run: seq<(Thread, Action)>)
    decreases |run|
  {
    run == [] || (Enabled(s, run[0].0, run[0].1) && Legal(Step(s, run[0].0, run[0].1), run[1..]))
  }

  function After(s: State, run: seq<(Thread, Action)>): State
    requires Legal(s, run)
    decreases |run|
  {
    if run == [] then s else After(Step(s, run[0].0, run[0].1), run[1..])
  }

  lemma {:induction false} LegalAppend(s: State, a: seq<(Thread, Action)>, b: seq<(Thread, Action)>)
    ensures Legal(s, a + b) <==> Legal(s, a) && Legal(After(s, a), b)
    ensures Legal(s, a + b) ==> After(s, a + b) == After(After(s, a), b)
    decreases |a|
  {
    hide Enabled, Step;
    if a == [] {
      assert a + b == b;
    } else {
      assert (a + b)[1..] == a[1..] + b;
      if Enabled(s, a[0].0, a[0].1) {
        LegalAppend(Step(s, a[0].0, a[0].1), a[1..], b);
      }
    }
  }

  lemma OneStep(s: State, t: Thread, a: Action)
    ensures Legal(s, [(t, a)]) <==> Enabled(s, t, a)
    ensures Enabled(s, t, a) ==> After(s, [(t, a)]) == Step(s, t, a)
  {
    hide Enabled, Step;
    assert [(t, a)][1..] == [];
  }

  lemma RunSnoc(s: State, run: seq<(Thread, Action)>, t: Thread, a: Action)
    ensures Legal(s, run + [(t, a)]) <==> Legal(s, run) && Enabled(After(s, run), t, a)
    ensures Legal(s, run + [(t, a)]) ==> After(s, run + [(t, a)]) == Step(After(s, run), t, a)
  {
    hide Enabled, Step;
    LegalAppend(s, run, [(t, a)]);
    if Legal(s, run) {
      OneStep(After(s, run), t, a);
    }
  }

  // ----- what was done, read off the run -----

  /** The module of the registration that `t` began last. */
  function LastBegin(run: seq<(Thread, Action)>, t: Thread): Option<Module> {
    if run == [] then None
    else
      var last := run[|run| - 1];
      if last.0 == t && last.1.Begin? then Some(last.1.fn) else LastBegin(run[..|run| - 1], t)
  }

  /** Some `ApplyModules` has locked the key. */
  predicate LockedBy(run: seq<(Thread, Action)>) {
    exists i :: 0 <= i < |run| && run[i].1.LockKey?
  }

  function Just(o: Option<Module>): seq<Module> {
    match o case Some(fn) => [fn] case None => []
  }

  /** The modules whose registration reached its end before the key was locked. */
  function RegisteredBy(run: seq<(Thread, Action)>): seq<Module> {
    if run == [] then []
    else
      var before := run[..|run| - 1];
      var last := run[|run| - 1];
      RegisteredBy(before) + if last.1.SetGlobal? && !LockedBy(before) then Just(LastBegin(before, last.0)) else []
  }

  /** The modules whose registration asked for the lock, or reached its end, after the key was locked. */
  function PanickedBy(run: seq<(Thread, Action)>): seq<Module> {
    if run == [] then []
    else
      var before := run[..|run| - 1];
      var last := run[|run| - 1];
      PanickedBy(before) +
      if (last.1.SetGlobal? || last.1.CheckLocked?) && LockedBy(before) then Just(LastBegin(before, last.0)) else []
  }

  // ----- invariants -----

  /** The mutex has one holder, and what a registration has read is still the list. */
  ghost predicate Inv(s: State) {
    && (forall t: Thread :: s.mu == Some(t) <==> HoldsMu(At(s, t)))
    && (forall t: Thread :: At(s, t).Loaded? ==> At(s, t).list == s.list)
  }

  lemma StepKeepsInv(s: State, t: Thread, a: Action)
    requires Inv(s) && Enabled(s, t, a)
    ensures Inv(Step(s, t, a))
    ensures s.list <= Step(s, t, a).list
    ensures s.locked ==> Step(s, t, a).list == s.list && Step(s, t, a).locked
  {
  }

  /** The state is what the run says. */
  ghost predicate History(run: seq<(Thread, Action)>, s: State) {
    && (forall t: Thread :: Pending(At(s, t)) ==> LastBegin(run, t) == Some(At(s, t).fn))
    && (s.locked <==> LockedBy(run))
    && s.list == RegisteredBy(run) && s.panicked == PanickedBy(run)
  }

  lemma HistorySnoc(run: seq<(Thread, Action)>, t: Thread, a: Action)
    ensures LockedBy(run + [(t, a)]) <==> LockedBy(run) || a.LockKey?
    ensures forall x: Thread ::
              LastBegin(run + [(t, a)], x) == if x == t && a.Begin? then Some(a.fn) else LastBegin(run, x)
    ensures RegisteredBy(run + [(t, a)]) ==
            RegisteredBy(run) + if a.SetGlobal? && !LockedBy(run) then Just(LastBegin(run, t)) else []
    ensures PanickedBy(run + [(t, a)]) ==
            PanickedBy(run) + if (a.SetGlobal? || a.CheckLocked?) && LockedBy(run) then Just(LastBegin(run, t)) else []
  {
    var more := run + [(t, a)];
    assert more[..|run|] == run;
    if a.LockKey? {
      assert more[|run|].1.LockKey?;
    }
    if i :| 0 <= i < |run| && run[i].1.LockKey? {
      assert more[i] == run[i];
    }
  }

  lemma StepKeepsHistory(run: seq<(Thread, Action)>, s: State, t: Thread, a: Action)
    requires Inv(s) && History(run, s) && Enabled(s, t, a)
    ensures History(run + [(t, a)], Step(s, t, a))
  {
    hide LockedBy, LastBegin, RegisteredBy, PanickedBy;
    HistorySnoc(run, t, a);
    var r := Step(s, t, a);
    assert forall x: Thread :: x != t ==> At(r, x) == At(s, x);
  }

  lemma {:induction false} RunKeepsHistory(run: seq<(Thread, Action)>)
    requires Legal(INIT, run)
    ensures Inv(After(INIT, run)) && History(run, After(INIT, run))
    decreases |run|
  {
    hide Inv, History, Step, Enabled;
    if run == [] {
      NothingDone();
    } else {
      var n := |run| - 1;
      assert run == run[..n] + [(run[n].0, run[n].1)];
      RunSnoc(INIT, run[..n], run[n].0, run[n].1);
      RunKeepsHistory(run[..n]);
      StepKeepsInv(After(INIT, run[..n]), run[n].0, run[n].1);
      StepKeepsHistory(run[..n], After(INIT, run[..n]), run[n].0, run[n].1);
    }
  }

  lemma NothingDone()
    ensures Inv(INIT) && History([], INIT)
  {
  }

  lemma {:induction false} RunKeepsInv(s: State, run: seq<(Thread, Action)>)
    requires Inv(s) && Legal(s, run)
    ensures Inv(After(s, run))
    ensures s.locked ==> After(s, run).list == s.list
    decreases |run|
  {
    hide Inv, Step, Enabled;
    if run != [] {
      StepKeepsInv(s, run[0].0, run[0].1);
      RunKeepsInv(Step(s, run[0].0, run[0].1), run[1..]);
    }
  }

  /**
   In every interleaving the list is exactly the modules that were registered before the key was locked, in order: none
   lost, none twice, none other than what was asked for; and whoever came later panicked.
   */
  lemma NothingLostNothingTwice(run: seq<(Thread, Action)>)
    requires Legal(INIT, run)
    ensures After(INIT, run).list == RegisteredBy(run) && After(INIT, run).panicked == PanickedBy(run)
  {
    RunKeepsHistory(run);
  }

  /** Once some `ApplyModules` has locked the key, the list stays what it is. */
  lemma LockedListIsFinal(run: seq<(Thread, Action)>, more: seq<(Thread, Action)>)
    requires Legal(INIT, run + more) && LockedBy(run)
    ensures Legal(INIT, run) && After(INIT, run + more).list == After(INIT, run).list
  {
    LegalAppend(INIT, run, more);
    RunKeepsHistory(run);
    RunKeepsInv(After(INIT, run), more);
  }

  // ----- which modules are called -----

  /** The `ApplyModules` of `t` works through `list`: what it has called so far are the first modules of it. */
  ghost predicate WorksOn(s: State, t: Thread, list: seq<Module>) {
    match At(s, t)
    case Applying(l, next) => l == list && next <= |list| && CalledBy(s, t) == list[..next]
    case Applied(l) => l == list && CalledBy(s, t) == list
    case _ => false
  }

  lemma StepKeepsWorking(s: State, x: Thread, a: Action, t: Thread, list: seq<Module>)
    requires Enabled(s, x, a) && WorksOn(s, t, list)
    ensures WorksOn(Step(s, x, a), t, list)
  {
    if x == t && a.CallNext? {
      var next := At(s, t).next;
      assert list[..next + 1] == list[..next] + [list[next]];
    }
  }

  lemma {:induction false} KeepsWorkingOn(s: State, run: seq<(Thread, Action)>, t: Thread, list: seq<Module>)
    requires Legal(s, run) && WorksOn(s, t, list)
    ensures WorksOn(After(s, run), t, list)
    decreases |run|
  {
    hide WorksOn, Enabled, Step;
    if run != [] {
      StepKeepsWorking(s, run[0].0, run[0].1, t, list);
      KeepsWorkingOn(Step(s, run[0].0, run[0].1), run[1..], t, list);
    }
  }

  lemma StartsWorking(s: State, t: Thread)
    requires Enabled(s, t, Snapshot)
    ensures WorksOn(Step(s, t, Snapshot), t, s.list)
  {
  }

  lemma WorkDone(s: State, t: Thread, list: seq<Module>)
    requires WorksOn(s, t, list) && At(s, t).Applied?
    ensures CalledBy(s, t) == list
  {
  }

  /**
   An `ApplyModules` that has ended has called exactly the modules registered before its snapshot, each once, in order.
   */
  lemma ApplyCallsSnapshot(run: seq<(Thread, Action)>, t: Thread, more: seq<(Thread, Action)>)
    requires Legal(INIT, run + [(t, Snapshot)] + more)
    requires At(After(INIT, run + [(t, Snapshot)] + more), t).Applied?
    ensures CalledBy(After(INIT, run + [(t, Snapshot)] + more), t) == RegisteredBy(run)
  {
    hide WorksOn, Enabled, Step;
    LegalAppend(INIT, run + [(t, Snapshot)], more);
    RunSnoc(INIT, run, t, Snapshot);
    NothingLostNothingTwice(run);
    StartsWorking(After(INIT, run), t);
    KeepsWorkingOn(Step(After(INIT, run), t, Snapshot), more, t, RegisteredBy(run));
    WorkDone(After(INIT, run + [(t, Snapshot)] + more), t, RegisteredBy(run));
  }

  // ----- when every registered module is called -----

  predicate NobodyBegins(run: seq<(Thread, Action)>) {
    forall i :: 0 <= i < |run| ==> !run[i].1.Begin?
  }

  /** After `run`, `t` takes its snapshot, and with `more` it ends without having called every registered module. */
  ghost predicate Misses(run: seq<(Thread, Action)>, t: Thread, more: seq<(Thread, Action)>) {
    var all := run + [(t, Snapshot)] + more;
    Legal(INIT, all) && At(After(INIT, all), t).Applied? && CalledBy(After(INIT, all), t) != RegisteredBy(all)
  }

  /** The same, from the state after the snapshot. */
  ghost predicate MissesFrom(s: State, t: Thread, more: seq<(Thread, Action)>) {
    Legal(s, more) && At(After(s, more), t).Applied? && CalledBy(After(s, more), t) != After(s, more).list
  }

  lemma MissesIff(run: seq<(Thread, Action)>, t: Thread, more: seq<(Thread, Action)>)
    requires Legal(INIT, run) && Enabled(After(INIT, run), t, Snapshot)
    ensures Misses(run, t, more) <==> MissesFrom(Step(After(INIT, run), t, Snapshot), t, more)
  {
    hide Enabled, Step, RegisteredBy;
    LegalAppend(INIT, run + [(t, Snapshot)], more);
    RunSnoc(INIT, run, t, Snapshot);
    if Legal(INIT, run + [(t, Snapshot)] + more) {
      NothingLostNothingTwice(run + [(t, Snapshot)] + more);
    }
  }

  lemma {:induction false} NothingRegisters(s: State, more: seq<(Thread, Action)>)
    requires Legal(s, more) && Inv(s)
    requires s.locked || (NobodyBegins(more) && forall x: Thread :: !Pending(At(s, x)))
    ensures After(s, more).list == s.list
    decreases |more|
  {
    if more != [] {
      var r := Step(s, more[0].0, more[0].1);
      StepKeepsInv(s, more[0].0, more[0].1);
      assert forall x: Thread :: x != more[0].0 ==> At(r, x) == At(s, x);
      assert !s.locked ==> !Pending(At(s, more[0].0)) && !more[0].1.Begin?;
      NothingRegisters(r, more[1..]);
    }
  }

  lemma MissesCons(s: State, t: Thread, x: Thread, a: Action, more: seq<(Thread, Action)>)
    requires Enabled(s, x, a) && MissesFrom(Step(s, x, a), t, more) && NobodyBegins(more)
    ensures MissesFrom(s, t, [(x, a)] + more)
    ensures !a.Begin? ==> NobodyBegins([(x, a)] + more)
  {
    hide Enabled, Step;
    OneStep(s, x, a);
    LegalAppend(s, [(x, a)], more);
  }

  /** Once a module has been registered that the snapshot does not have, the `ApplyModules` just has to finish. */
  lemma {:induction false} FinishesBehind(s: State, t: Thread) returns (more: seq<(Thread, Action)>)
    requires At(s, t).Applying? && WorksOn(s, t, At(s, t).list) && At(s, t).list != s.list
    ensures MissesFrom(s, t, more) && NobodyBegins(more)
    decreases |At(s, t).list| - At(s, t).next
  {
    if At(s, t).next < |At(s, t).list| {
      StepKeepsWorking(s, t, CallNext, t, At(s, t).list);
      more := FinishesBehind(Step(s, t, CallNext), t);
      MissesCons(s, t, t, CallNext, more);
      more := [(t, CallNext)] + more;
    } else {
      assert MissesFrom(Step(s, t, LockKey), t, []);
      MissesCons(s, t, t, LockKey, []);
      more := [(t, LockKey)] + [];
    }
  }

  /** A registration that holds the mutex of an unlocked registry can store its module before the key is locked. */
  lemma HolderOvertakes(s: State, t: Thread, x: Thread) returns (more: seq<(Thread, Action)>)
    requires Inv(s) && !s.locked && At(s, t).Applying? && WorksOn(s, t, s.list)
    requires At(s, x).Holding? || At(s, x).Checked? || At(s, x).Loaded?
    ensures MissesFrom(s, t, more) && NobodyBegins(more)
    decreases if At(s, x).Holding? then 2 else if At(s, x).Checked? then 1 else 0
  {
    var a := if At(s, x).Holding? then CheckLocked else if At(s, x).Checked? then GetModules else SetGlobal;
    StepKeepsInv(s, x, a);
    StepKeepsWorking(s, x, a, t, s.list);
    if a == SetGlobal {
      more := FinishesBehind(Step(s, x, a), t);
    } else {
      more := HolderOvertakes(Step(s, x, a), t, x);
    }
    MissesCons(s, t, x, a, more);
    more := [(x, a)] + more;
  }

  /** A registration that waits for the mutex can overtake too: the holder leaves, or overtakes itself. */
  lemma PendingOvertakes(s: State, t: Thread, x: Thread) returns (more: seq<(Thread, Action)>)
    requires Inv(s) && !s.locked && At(s, t).Applying? && WorksOn(s, t, s.list)
    requires Pending(At(s, x))
    ensures MissesFrom(s, t, more) && NobodyBegins(more)
    decreases if s.mu.Some? then 1 else 0
  {
    if !At(s, x).Wanting? {
      more := HolderOvertakes(s, t, x);
    } else if s.mu.None? {
      StepKeepsInv(s, x, MuLock);
      StepKeepsWorking(s, x, MuLock, t, s.list);
      more := HolderOvertakes(Step(s, x, MuLock), t, x);
      MissesCons(s, t, x, MuLock, more);
      more := [(x, MuLock)] + more;
    } else {
      var y := s.mu.value;
      assert HoldsMu(At(s, y));
      if At(s, y).Leaving? {
        StepKeepsInv(s, y, MuUnlock);
        StepKeepsWorking(s, y, MuUnlock, t, s.list);
        more := PendingOvertakes(Step(s, y, MuUnlock), t, x);
        MissesCons(s, t, y, MuUnlock, more);
        more := [(y, MuUnlock)] + more;
      } else {
        more := HolderOvertakes(s, t, y);
      }
    }
  }

  lemma NothingMissed(s: State, t: Thread, list: seq<Module>, more: seq<(Thread, Action)>)
    requires Inv(s) && WorksOn(s, t, s.list)
    requires s.locked || (NobodyBegins(more) && forall x: Thread :: !Pending(At(s, x)))
    ensures !MissesFrom(s, t, more)
  {
    hide Enabled, Step, Inv, WorksOn;
    if Legal(s, more) && At(After(s, more), t).Applied? {
      NothingRegisters(s, more);
      KeepsWorkingOn(s, more, t, s.list);
      WorkDone(After(s, more), t, s.list);
    }
  }

  /**
   When an `ApplyModules` takes its snapshot, it is sure to call every module that is registered in the end, whatever
   the schedule, exactly if the key is already locked or no registration is under way; provided no more are begun.
   */
  lemma ApplyCallsAllIff(run: seq<(Thread, Action)>, t: Thread)
    requires Legal(INIT, run) && Enabled(After(INIT, run), t, Snapshot)
    ensures (forall more :: NobodyBegins(more) ==> !Misses(run, t, more)) <==>
            LockedBy(run) || forall x: Thread :: !Pending(At(After(INIT, run), x))
  {
    hide Inv, WorksOn, Misses, LockedBy;
    var before := After(INIT, run);
    var s := Step(before, t, Snapshot);
    LockedIff(run);
    StepKeepsInv(before, t, Snapshot);
    StartsWorking(before, t);
    assert forall x: Thread :: x != t ==> At(s, x) == At(before, x);
    if LockedBy(run) || forall x: Thread :: !Pending(At(before, x)) {
      forall more | NobodyBegins(more)
        ensures !Misses(run, t, more)
      {
        MissesIff(run, t, more);
        NothingMissed(s, t, s.list, more);
      }
    } else {
      var x: Thread :| Pending(At(before, x));
      var more := PendingOvertakes(s, t, x);
      MissesIff(run, t, more);
    }
  }

  lemma LockedIff(run: seq<(Thread, Action)>)
    requires Legal(INIT, run)
    ensures Inv(After(INIT, run)) && (After(INIT, run).locked <==> LockedBy(run))
  {
    RunKeepsHistory(run);
  }

  lemma FreshThread(s: State) returns (x: Thread)
    ensures x !in s.pcs
  {
    x := Above(s.pcs.Keys);
  }

  lemma {:induction false} Above(threads: set<Thread>) returns (x: Thread)
    ensures forall t :: t in threads ==> t < x
    decreases |threads|
  {
    if threads == {} {
      x := 0;
    } else {
      var t :| t in threads;
      var y := Above(threads - {t});
      x := if y > t then y else t + 1;
      assert forall o :: o in threads ==> o == t || o in threads - {t};
    }
  }

  /** If registrations may still be begun, only the lock helps. */
  lemma ApplyCallsAllAlwaysIff(run: seq<(Thread, Action)>, t: Thread)
    requires Legal(INIT, run) && Enabled(After(INIT, run), t, Snapshot)
    ensures (forall more :: !Misses(run, t, more)) <==> LockedBy(run)
  {
    hide Inv, WorksOn, Misses, LockedBy;
    var before := After(INIT, run);
    var s := Step(before, t, Snapshot);
    LockedIff(run);
    StepKeepsInv(before, t, Snapshot);
    StartsWorking(before, t);
    if LockedBy(run) {
      forall more
        ensures !Misses(run, t, more)
      {
        MissesIff(run, t, more);
        NothingMissed(s, t, s.list, more);
      }
    } else {
      var x := FreshThread(s);
      StepKeepsInv(s, x, Begin(7));
      StepKeepsWorking(s, x, Begin(7), t, s.list);
      var more := PendingOvertakes(Step(s, x, Begin(7)), t, x);
      MissesCons(s, t, x, Begin(7), more);
      MissesIff(run, t, [(x, Begin(7))] + more);
    }
  }

  /** Thread 0 has taken its snapshot of nothing, and thread 1 is about to register module 7. */
  function Overtaking(): State {
    State([], false, Some(1), map[0 := Applying([], 0), 1 := Holding(7)], [], map[0 := []])
  }

  lemma OvertakingStarts()
    ensures var run := [(0, Snapshot), (1, Begin(7)), (1, MuLock)];
            Legal(INIT, run) && After(INIT, run) == Overtaking()
  {
    var run: seq<(Thread, Action)> := [(0, Snapshot), (1, Begin(7)), (1, MuLock)];
    assert run[1..] == [(1, Begin(7)), (1, MuLock)] && run[1..][1..] == [(1, MuLock)];
    OneStep(Step(Step(INIT, 0, Snapshot), 1, Begin(7)), 1, MuLock);
  }

  lemma OvertakingEnds()
    ensures var more := [(1, CheckLocked), (1, GetModules), (1, SetGlobal), (0, LockKey)];
            && Legal(Overtaking(), more)
            && var s := After(Overtaking(), more); s.list == [7] && At(s, 0) == Applied([]) && CalledBy(s, 0) == []
  {
    var s := Overtaking();
    var more: seq<(Thread, Action)> := [(1, CheckLocked), (1, GetModules), (1, SetGlobal), (0, LockKey)];
    assert more[1..] == [(1, GetModules), (1, SetGlobal), (0, LockKey)];
    assert more[1..][1..] == [(1, SetGlobal), (0, LockKey)] && more[1..][1..][1..] == [(0, LockKey)];
    var s2 := Step(Step(s, 1, CheckLocked), 1, GetModules);
    var s3 := Step(s2, 1, SetGlobal);
    OneStep(s3, 0, LockKey);
    assert Legal(s2, more[1..][1..]) && After(s2, more[1..][1..]) == Step(s3, 0, LockKey);
  }

  /** Such a miss is possible: module 7 registers after the snapshot, succeeds, and is never called. */
  lemma LateModuleIsMissed()
    ensures var run := [(0, Snapshot), (1, Begin(7)), (1, MuLock), (1, CheckLocked), (1, GetModules),
                        (1, SetGlobal), (0, LockKey)];
            && Legal(INIT, run) && At(After(INIT, run), 0).Applied?
            && RegisteredBy(run) == [7] && CalledBy(After(INIT, run), 0) == []
  {
    hide Legal, After, RegisteredBy, Step, Enabled;
    var a: seq<(Thread, Action)> := [(0, Snapshot), (1, Begin(7)), (1, MuLock)];
    var b: seq<(Thread, Action)> := [(1, CheckLocked), (1, GetModules), (1, SetGlobal), (0, LockKey)];
    OvertakingStarts();
    OvertakingEnds();
    LegalAppend(INIT, a, b);
    NothingLostNothingTwice(a + b);
    assert a + b == [(0, Snapshot), (1, Begin(7)), (1, MuLock), (1, CheckLocked), (1, GetModules),
                     (1, SetGlobal), (0, LockKey)];
  }
}
