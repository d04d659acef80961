/** The global registry (`core/registry`). */
module Registry {
  import opened Text

  // ----- operations on one registry as values -----

  datatype Op<V> = OpLock(key: string) | OpSet(key: string, value: V) | OpDelete(key: string) | OpUnlock(key: string)
  datatype Store<V> = Store(global: map<string, V>, locked: set<string>)

  function Do<V>(s: Store<V>, op: Op<V>): Store<V> {
    match op
    case OpLock(k) => s.(locked := s.locked + {k})
    case OpSet(k, v) => if k in s.locked then s else s.(global := s.global[k := v])
    case OpDelete(k) => s.(global := s.global - {k})
    case OpUnlock(k) => s.(locked := s.locked - {k})
  }

  function DoAll<V>(s: Store<V>, ops: seq<Op<V>>): Store<V>
    decreases |ops|
  {
    if ops == [] then s else DoAll(Do(s, ops[0]), ops[1..])
  }

  /** The two operations that do not respect locks. */
  predicate Overrides<V>(op: Op<V>, key: string) {
    (op.OpDelete? || op.OpUnlock?) && op.key == key
  }

  /** A locked key keeps its value and its lock in every run without `DeleteGlobal` and `UnlockForTesting` on it. */
  lemma {:induction false} LockedKeyIsFinal<V>(s: Store<V>, ops: seq<Op<V>>, key: string)
    requires key in s.locked && forall i :: 0 <= i < |ops| ==> !Overrides(ops[i], key)
    ensures var r := DoAll(s, ops);
            && key in r.locked
            && (key in r.global <==> key in s.global)
            && (key in s.global ==> r.global[key] == s.global[key])
    decreases |ops|
  {
    if ops != [] {
      assert !Overrides(ops[0], key);
      LockedKeyIsFinal(Do(s, ops[0]), ops[1..], key);
    }
  }

  /** One step takes a locked key's value away or its lock off exactly when it is one of those two. */
  lemma OnlyOverridesBreakLocks<V>(s: Store<V>, op: Op<V>, key: string)
    requires key in s.locked && key in s.global
    ensures (key in Do(s, op).locked && key in Do(s, op).global && Do(s, op).global[key] == s.global[key]) <==>
            !Overrides(op, key)
  {
  }

  // ----- the registry object -----

  /** Shared key-value storage with per-key locks. A nil map of locks and an empty one behave alike. */
  class GlobalRegistry<V> {
    var global: map<string, V>
    var locked: set<string>

    ghost function Abstract(): Store<V>
      reads this
    {
      Store(global, locked)
    }

    constructor ()
      ensures Abstract() == Store(map[], {})
    {
      global, locked := map[], {};
    }

    method Lock(key: string)
      modifies this`locked
      ensures Abstract() == Do(old(Abstract()), OpLock(key))
      ensures locked == old(locked) + {key}
    {
      locked := locked + {key};
    }

    method IsLocked(key: string) returns (r: bool)
      ensures r <==> key in locked
    {
      r := key in locked;
    }

    /** Panics on a locked key, and then changes nothing. */
    method SetGlobal(key: string, value: V) returns (panics: bool)
      modifies this`global
      ensures Abstract() == Do(old(Abstract()), OpSet(key, value))
      ensures panics <==> key in locked
      ensures if panics then global == old(global) else global == old(global)[key := value]
    {
      panics := key in locked;
      if !panics {
        global := global[key := value];
      }
    }

    method GetGlobal(key: string) returns (v: Option<V>)
      ensures v == if key in global then Some(global[key]) else None
    {
      v := if key in global then Some(global[key]) else None;
    }

    /** Does not ask for the lock: a locked key can be deleted. */
    method DeleteGlobal(key: string)
      modifies this`global
      ensures Abstract() == Do(old(Abstract()), OpDelete(key))
      ensures global == old(global) - {key}
    {
      global := global - {key};
    }

    method UnlockForTesting(key: string)
      modifies this`locked
      ensures Abstract() == Do(old(Abstract()), OpUnlock(key))
      ensures locked == old(locked) - {key}
    {
      locked := locked - {key};
    }
  }
}
