/**
 * The in-process caches of najapy/cache/base.py.
 *
 * StackCache is a TTL map: an entry written at time `now` lives while the
 * clock stays below `now + ttl`, and the map holds at most `maxsize` entries.
 * The clock is an explicit parameter. FuncCache memoises a callable under the
 * signature of a selection of its arguments; ShareFuture lets concurrent calls
 * with one signature share a single execution and fans its result out.
 *
 * `Utils.params_sign` is modelled by the constructor `Sig`, which is
 * injective by construction; keyword arguments are a map, so their order
 * does not matter.
 */
module Cache {
  import opened Wrappers
  import opened Py

  // ---------------------------------------------------------------- StackCache

  datatype Entry = Entry(value: Value, expires: nat)

  class StackCache<K(==)> {
    var entries: map<K, Entry>
    const maxsize: nat
    const ttl: nat

    /** The map respects its bound and never stores None. */
    ghost predicate Valid()
      reads this
    {
      && 0 < maxsize && |entries| <= maxsize
      && forall k :: k in entries ==> entries[k].value != Nil
    }

    constructor (maxsize: nat, ttl: nat)
      requires maxsize > 0
      ensures Valid()
      ensures this.maxsize == maxsize && this.ttl == ttl && entries == map[]
    {
      entries := map[];
      this.maxsize := maxsize;
      this.ttl := ttl;
    }

    /** The entries that have not expired at time `now`. */
    function Live(now: nat): (m: map<K, Value>)
      reads this
      ensures m.Keys <= entries.Keys
      ensures forall k :: k in entries ==> (k in m <==> now < entries[k].expires)
      ensures forall k :: k in m ==> m[k] == entries[k].value
    {
      map k | k in entries && now < entries[k].expires :: entries[k].value
    }

    /** `get(key, default)`: the live value, or `default` when the key is missing or expired. */
    function Get(key: K, default: Value, now: nat): (r: Value)
      reads this
      requires Valid()
      ensures key in Live(now) ==> r == Live(now)[key] && r != Nil
      ensures key !in Live(now) ==> r == default
    {
      if key in entries && now < entries[key].expires then entries[key].value else default
    }

    /** `has(key)`: true exactly when `get` finds a value. */
    function Has(key: K, now: nat): (r: bool)
      reads this
      requires Valid()
      ensures r <==> Get(key, Nil, now) != Nil
    {
      key in entries && now < entries[key].expires
    }

    /** `size()`: the number of live entries, never more than `maxsize`. */
    function Size(now: nat): (n: nat)
      reads this
      requires Valid()
      ensures n == |Live(now)| && n <= maxsize
    {
      LiveWithin(now);
      |Live(now)|
    }

    lemma LiveWithin(now: nat)
      ensures Live(now).Keys <= entries.Keys
      ensures |Live(now)| <= |entries|
    {
      var live := Live(now);
      assert live.Keys <= entries.Keys;
      SubsetCardinality(live.Keys, entries.Keys);
    }

    /** Without writes, time only removes entries: what is live later was live before, with the same value. */
    lemma LiveShrinks(now: nat, later: nat)
      requires now <= later
      ensures Live(later).Keys <= Live(now).Keys
      ensures forall k :: k in Live(later) ==> Live(later)[k] == Live(now)[k]
    {
    }

    /** `__getitem__`: it calls `get` but returns nothing, so it always gives None. */
    function GetItem(key: K, now: nat): (r: Value)
      ensures r == Nil
    {
      Nil
    }

    /** The purge cachetools runs before a write: every entry expired at `now` is dropped. */
    method Expire(now: nat)
      requires Valid()
      modifies this
      ensures Valid()
      ensures entries.Keys == old(Live(now)).Keys
      ensures forall k :: k in entries ==> k in old(entries) && entries[k] == old(entries)[k]
      ensures Live(now) == old(Live(now))
      ensures |entries| == |Live(now)|
    {
      LiveWithin(now);
      ghost var live := Live(now);
      entries := map k | k in entries && now < entries[k].expires :: entries[k];
      assert entries.Keys == live.Keys;
      assert Live(now) == live;
      assert |entries| == |live| by {
        assert |entries| == |entries.Keys| && |live| == |live.Keys|;
      }
    }

    /**
     * `set(key, val)` (and `__setitem__`): None is ignored. Otherwise expired
     * entries are dropped, one other entry is evicted when the cache is full
     * and the key is new, and the key maps to `val` until `now + ttl`.
     */
    method Set(key: K, val: Value, now: nat)
      requires Valid()
      modifies this
      ensures Valid()
      ensures val == Nil ==> entries == old(entries)
      ensures val != Nil ==> key in entries && entries[key] == Entry(val, now + ttl)
      ensures val != Nil ==> (Has(key, now) <==> ttl > 0)
      ensures val != Nil && ttl > 0 ==> Get(key, Nil, now) == val
      ensures val != Nil ==> forall k :: k in Live(now) && k != key ==> k in old(Live(now)) && Live(now)[k] == old(Live(now))[k]
      ensures val != Nil && (key in old(Live(now)) || |old(Live(now))| < maxsize) ==>
                forall k :: k in old(Live(now)) && k != key ==> k in Live(now)
      ensures entries.Keys <= old(entries.Keys) + {key}
    {
      if val == Nil {
        return;
      }
      Expire(now);
      if key !in entries && |entries| >= maxsize {
        assert entries.Keys != {};
        var victim :| victim in entries.Keys;
        entries := entries - {victim};
      }
      entries := entries[key := Entry(val, now + ttl)];
    }

    /** `incr(key, val)`: store and return `get(key, 0) + val`; a non-number raises TypeError. */
    method Incr(key: K, val: int, now: nat) returns (r: Result<int>)
      requires Valid()
      modifies this
      ensures Valid()
      ensures var current := old(Get(key, Int(0), now));
        && (IsNumber(current) ==> r == Ok(NumberValue(current) + val) && key in entries && entries[key] == Entry(Int(r.value), now + ttl))
        && (!IsNumber(current) ==> r == Err(TypeError) && entries == old(entries))
      ensures IsNumber(old(Get(key, Int(0), now))) ==>
        forall k :: k in Live(now) && k != key ==> k in old(Live(now)) && Live(now)[k] == old(Live(now))[k]
      ensures IsNumber(old(Get(key, Int(0), now))) && (key in old(Live(now)) || |old(Live(now))| < maxsize) ==>
        forall k :: k in old(Live(now)) && k != key ==> k in Live(now)
      ensures entries.Keys <= old(entries.Keys) + {key}
    {
      var current := Get(key, Int(0), now);
      if !IsNumber(current) {
        return Err(TypeError);
      }
      var res := NumberValue(current) + val;
      Set(key, Int(res), now);
      r := Ok(res);
    }

    /** `decr(key, val)`: store and return `get(key, 0) - val`; a non-number raises TypeError. */
    method Decr(key: K, val: int, now: nat) returns (r: Result<int>)
      requires Valid()
      modifies this
      ensures Valid()
      ensures var current := old(Get(key, Int(0), now));
        && (IsNumber(current) ==> r == Ok(NumberValue(current) - val) && key in entries && entries[key] == Entry(Int(r.value), now + ttl))
        && (!IsNumber(current) ==> r == Err(TypeError) && entries == old(entries))
      ensures IsNumber(old(Get(key, Int(0), now))) ==>
        forall k :: k in Live(now) && k != key ==> k in old(Live(now)) && Live(now)[k] == old(Live(now))[k]
      ensures IsNumber(old(Get(key, Int(0), now))) && (key in old(Live(now)) || |old(Live(now))| < maxsize) ==>
        forall k :: k in old(Live(now)) && k != key ==> k in Live(now)
      ensures entries.Keys <= old(entries.Keys) + {key}
    {
      var current := Get(key, Int(0), now);
      if !IsNumber(current) {
        return Err(TypeError);
      }
      var res := NumberValue(current) - val;
      Set(key, Int(res), now);
      r := Ok(res);
    }

    /**
     * `delete(key)` (and `__delitem__`): the key is removed; KeyError is raised
     * when it was missing or had already expired.
     */
    method Delete(key: K, now: nat) returns (r: Result<()>)
      requires Valid()
      modifies this
      ensures Valid()
      ensures entries == old(entries) - {key}
      ensures r.Ok? <==> key in old(Live(now))
      ensures r.Err? ==> r.error == KeyError
    {
      if key !in entries {
        return Err(KeyError);
      }
      var live := now < entries[key].expires;
      entries := entries - {key};
      r := if live then Ok(()) else Err(KeyError);
    }

    /** `clear()`. */
    method Clear()
      requires Valid()
      modifies this
      ensures Valid() && entries == map[]
    {
      entries := map[];
    }
  }

  lemma SubsetCardinality<T>(a: set<T>, b: set<T>)
    requires a <= b
    ensures |a| <= |b|
  {
    assert b == a + (b - a);
  }

  // ---------------------------------------------------------------- call signatures

  /** `Utils.params_sign(func, *args, **kwargs)`, as an injective constructor. */
  datatype Sig = Sig(func: nat, args: seq<Value>, kwargs: map<string, Value>)

  /** The keyword arguments whose names are listed (`keep`) or not listed (`!keep`) in `names`. */
  function Select(kwargs: map<string, Value>, names: seq<string>, keep: bool): map<string, Value> {
    map name | name in kwargs && (name in names) == keep :: kwargs[name]
  }

  /**
   * `FuncCache._get_func_sign`: all arguments by default; with an include list
   * only the listed keyword arguments (positional ones are dropped); otherwise
   * the positional arguments and the keyword arguments not excluded.
   */
  function FuncSign(includes: seq<string>, excludes: seq<string>,
                    func: nat, args: seq<Value>, kwargs: map<string, Value>): (s: Sig)
    ensures s.func == func
    ensures s.args == if includes != [] then [] else args
    ensures forall name :: name in s.kwargs <==>
              name in kwargs && if includes != [] then name in includes else name !in excludes
    ensures forall name :: name in s.kwargs ==> s.kwargs[name] == kwargs[name]
  {
    if includes == [] && excludes == [] then Sig(func, args, kwargs)
    else if includes != [] then Sig(func, [], Select(kwargs, includes, true))
    else Sig(func, args, Select(kwargs, excludes, false))
  }

  /** Two keyword-argument maps agree on `name`: both lack it, or both bind it to the same value. */
  predicate AgreeOn(k1: map<string, Value>, k2: map<string, Value>, name: string) {
    (name in k1 <==> name in k2) && (name in k1 ==> k1[name] == k2[name])
  }

  /** Selected keyword arguments coincide exactly when the maps agree on every selected name. */
  lemma SelectEqual(k1: map<string, Value>, k2: map<string, Value>, names: seq<string>, keep: bool)
    ensures Select(k1, names, keep) == Select(k2, names, keep) <==>
            forall name :: (name in names) == keep ==> AgreeOn(k1, k2, name)
  {
    var s1, s2 := Select(k1, names, keep), Select(k2, names, keep);
    if forall name :: (name in names) == keep ==> AgreeOn(k1, k2, name) {
      assert s1.Keys == s2.Keys;
      assert forall name :: name in s1 ==> s1[name] == s2[name];
    }
    if s1 == s2 {
      forall name | (name in names) == keep
        ensures AgreeOn(k1, k2, name)
      {
        assert name in k1 <==> name in s1;
        assert name in k2 <==> name in s2;
      }
    }
  }

  /** When two calls of one function get the same signature, under each selection policy. */
  lemma SameSign(includes: seq<string>, excludes: seq<string>, func: nat,
                 a1: seq<Value>, k1: map<string, Value>, a2: seq<Value>, k2: map<string, Value>)
    ensures FuncSign(includes, excludes, func, a1, k1) == FuncSign(includes, excludes, func, a2, k2) <==>
      if includes == [] && excludes == [] then a1 == a2 && k1 == k2
      else if includes != [] then forall name :: name in includes ==> AgreeOn(k1, k2, name)
      else a1 == a2 && forall name :: name !in excludes ==> AgreeOn(k1, k2, name)
  {
    if includes != [] {
      SelectEqual(k1, k2, includes, true);
    } else if excludes != [] {
      SelectEqual(k1, k2, excludes, false);
    }
  }

  /** Distinct functions never share a signature. */
  lemma SignSeparatesFunctions(includes: seq<string>, excludes: seq<string>, f1: nat, f2: nat,
                               a1: seq<Value>, k1: map<string, Value>, a2: seq<Value>, k2: map<string, Value>)
    requires f1 != f2
    ensures FuncSign(includes, excludes, f1, a1, k1) != FuncSign(includes, excludes, f2, a2, k2)
  {
  }

  // ---------------------------------------------------------------- FuncCache

  /** A callable's result for the given positional and keyword arguments. */
  type Callable = (seq<Value>, map<string, Value>) -> Value

  class FuncCache {
    const cache: StackCache<Sig>
    const includes: seq<string>
    const excludes: seq<string>

    ghost predicate Valid()
      reads this, cache
    {
      cache.Valid()
    }

    /** `FuncCache(maxsize, ttl, includes, excludes)`; a missing list is the empty list. */
    constructor (maxsize: nat, ttl: nat, includes: seq<string>, excludes: seq<string>)
      requires maxsize > 0
      ensures Valid() && fresh(cache)
      ensures cache.entries == map[] && cache.ttl == ttl
      ensures this.includes == includes && this.excludes == excludes
    {
      cache := new StackCache(maxsize, ttl);
      this.includes := includes;
      this.excludes := excludes;
    }

    /**
     * The wrapper around `func` (identity `func`, behaviour `f`): a live cached
     * value is returned without calling `f`; otherwise `f` runs and a result
     * other than None is stored under the call's signature.
     */
    method Call(func: nat, f: Callable, args: seq<Value>, kwargs: map<string, Value>, now: nat)
      returns (result: Value, called: bool)
      requires Valid()
      modifies cache
      ensures Valid()
      ensures var sign := FuncSign(includes, excludes, func, args, kwargs);
        && (old(cache.Has(sign, now)) ==> !called && result == old(cache.Get(sign, Nil, now)) && cache.entries == old(cache.entries))
        && (!old(cache.Has(sign, now)) ==> called && result == f(args, kwargs))
        && (!old(cache.Has(sign, now)) && result == Nil ==> cache.entries == old(cache.entries))
        && cache.entries.Keys <= old(cache.entries.Keys) + {sign}
        && (!old(cache.Has(sign, now)) && result != Nil ==> sign in cache.entries && cache.entries[sign] == Entry(result, now + cache.ttl))
    {
      var sign := FuncSign(includes, excludes, func, args, kwargs);
      result := cache.Get(sign, Nil, now);
      called := false;
      if result == Nil {
        result := f(args, kwargs);
        called := true;
        if result != Nil {
          cache.Set(sign, result, now);
        }
      }
    }
  }

  /**
   * Two calls with the same arguments on a fresh cache, the second before the
   * first one's entry expires: a result other than None is served from the
   * cache the second time, without calling `f`; None is never cached.
   */
  method SecondCallHits(maxsize: nat, ttl: nat, includes: seq<string>, excludes: seq<string>,
                        func: nat, f: Callable, args: seq<Value>, kwargs: map<string, Value>,
                        now: nat, later: nat)
    returns (first: Value, second: Value, secondCalled: bool)
    requires maxsize > 0 && now <= later < now + ttl
    ensures first == f(args, kwargs)
    ensures first != Nil ==> second == first && !secondCalled
    ensures first == Nil ==> secondCalled && second == Nil
  {
    var memo := new FuncCache(maxsize, ttl, includes, excludes);
    var firstCalled;
    first, firstCalled := memo.Call(func, f, args, kwargs, now);
    second, secondCalled := memo.Call(func, f, args, kwargs, later);
  }

  /**
   * Two calls on a fresh cache whose signatures differ: the second one misses
   * and calls `f` again.
   */
  method ChangedSignMisses(maxsize: nat, ttl: nat, includes: seq<string>, excludes: seq<string>,
                           func: nat, f: Callable, a1: seq<Value>, k1: map<string, Value>,
                           a2: seq<Value>, k2: map<string, Value>, now: nat, later: nat)
    returns (second: Value, secondCalled: bool)
    requires maxsize > 0
    requires FuncSign(includes, excludes, func, a1, k1) != FuncSign(includes, excludes, func, a2, k2)
    ensures secondCalled && second == f(a2, k2)
  {
    var memo := new FuncCache(maxsize, ttl, includes, excludes);
    var first, firstCalled := memo.Call(func, f, a1, k1, now);
    second, secondCalled := memo.Call(func, f, a2, k2, later);
  }

  // ---------------------------------------------------------------- ShareFuture

  /**
   * The list `_future[sign]`: its first element is the task running the
   * function (None when task creation gave None), the rest are the futures of
   * the callers that joined it.
   */
  datatype Pending = Pending(task: Option<nat>, waiters: seq<nat>)

  /** Every future in `futures` resolved with `v`. */
  function Fanout<R>(futures: seq<nat>, v: R): map<nat, R> {
    map f | f in futures :: v
  }

  /** Resolving one more waiter extends the fan-out by that waiter. */
  lemma FanoutPush<R>(before: map<nat, R>, ws: seq<nat>, i: nat, v: R)
    requires i < |ws|
    ensures before + Fanout(ws[..i + 1], v) == (before + Fanout(ws[..i], v))[ws[i] := v]
  {
    assert ws[..i + 1] == ws[..i] + [ws[i]];
  }

  class ShareFuture<R> {
    var table: map<Sig, Pending>   // `_future`
    var callbacks: map<nat, Sig>   // done-callbacks not yet run: task -> the signature it clears
    var nextId: nat                // identity of the next task or future created
    var resolved: map<nat, R>      // tasks and futures that have a result, with that result
    var executions: seq<Sig>       // each invocation of the wrapped function, in order

    /** A pending done-callback belongs to the task registered for its signature. */
    ghost predicate Valid()
      reads this
    {
      forall t :: t in callbacks ==> t < nextId && callbacks[t] in table && table[callbacks[t]].task == Some(t)
    }

    constructor ()
      ensures Valid()
      ensures table == map[] && callbacks == map[] && resolved == map[] && executions == []
    {
      table, callbacks, nextId, resolved, executions := map[], map[], 0, map[], [];
    }

    /**
     * The wrapper, for a call whose signature is `sign`. A call whose
     * signature is registered only appends a new future and never runs the
     * function. Otherwise the function runs once and its task is registered
     * alone under `sign`; when task creation gives None the TypeError is built
     * but not raised, `[None]` stays registered, and the call fails on
     * `None.add_done_callback`. The result is the task or future awaited.
     */
    method Call(sign: Sig, taskCreated: bool) returns (r: Result<nat>)
      requires Valid()
      modifies this
      ensures Valid()
      ensures resolved == old(resolved)
      ensures sign in old(table) ==>
        && r == Ok(old(nextId)) && nextId == old(nextId) + 1
        && table == old(table)[sign := Pending(old(table)[sign].task, old(table)[sign].waiters + [old(nextId)])]
        && callbacks == old(callbacks) && executions == old(executions)
      ensures sign !in old(table) ==> executions == old(executions) + [sign]
      ensures sign !in old(table) && taskCreated ==>
        && r == Ok(old(nextId)) && nextId == old(nextId) + 1
        && table == old(table)[sign := Pending(Some(old(nextId)), [])]
        && callbacks == old(callbacks)[old(nextId) := sign]
      ensures sign !in old(table) && !taskCreated ==>
        && r == Err(AttributeError) && nextId == old(nextId)
        && table == old(table)[sign := Pending(None, [])] && callbacks == old(callbacks)
    {
      if sign in table {
        var future := nextId;
        nextId := nextId + 1;
        table := table[sign := Pending(table[sign].task, table[sign].waiters + [future])];
        return Ok(future);
      }
      executions := executions + [sign];
      if !taskCreated {
        table := table[sign := Pending(None, [])];
        return Err(AttributeError);
      }
      var task := nextId;
      nextId := nextId + 1;
      table := table[sign := Pending(Some(task), [])];
      callbacks := callbacks[task := sign];
      r := Ok(task);
    }

    /** The task registered for a signature has finished and its done-callback has run. */
    ghost predicate Finished(p: Pending)
      reads this
    {
      p.task.Some? && p.task.value in resolved && p.task.value !in callbacks
    }

    /**
     * `_clear_future(sign)`: a no-op for an unregistered signature. Otherwise
     * the entry is removed, so the next call starts afresh, and every joined
     * future receives `copy` (the deep copy) of the task's result.
     */
    method ClearFuture(sign: Sig, copy: R -> R)
      requires Valid()
      requires sign in table ==> Finished(table[sign])
      modifies this
      ensures Valid()
      ensures sign !in old(table) ==> table == old(table) && resolved == old(resolved)
      ensures sign in old(table) ==>
        && table == old(table) - {sign}
        && resolved == old(resolved) + Fanout(old(table)[sign].waiters, copy(old(resolved)[old(table)[sign].task.value]))
      ensures callbacks == old(callbacks) && nextId == old(nextId) && executions == old(executions)
    {
      if sign !in table {
        return;
      }
      var entry := table[sign];
      table := table - {sign};
      var result := resolved[entry.task.value];
      var i := 0;
      while i < |entry.waiters|
        invariant i <= |entry.waiters|
        invariant resolved == old(resolved) + Fanout(entry.waiters[..i], copy(result))
        invariant table == old(table) - {sign}
        invariant callbacks == old(callbacks) && nextId == old(nextId) && executions == old(executions)
      {
        FanoutPush(old(resolved), entry.waiters, i, copy(result));
        resolved := resolved[entry.waiters[i] := copy(result)];
        i := i + 1;
      }
      assert entry.waiters[..i] == entry.waiters;
    }

    /** The event loop finishing task `t` with `result`: it resolves, then its done-callback runs. */
    method TaskDone(t: nat, result: R, copy: R -> R)
      requires Valid() && t in callbacks
      modifies this
      ensures Valid()
      ensures var sign := old(callbacks)[t];
        && table == old(table) - {sign}
        && resolved == old(resolved)[t := result] + Fanout(old(table)[sign].waiters, copy(result))
        && callbacks == old(callbacks) - {t}
        && nextId == old(nextId) && executions == old(executions)
    {
      var sign := callbacks[t];
      callbacks := callbacks - {t};
      resolved := resolved[t := result];
      ClearFuture(sign, copy);
    }
  }

  /**
   * `k` concurrent calls with one signature, then the task finishing with
   * `result`: the function runs once, the first caller receives the result
   * itself and every later caller a deep copy of it.
   */
  method SingleFlight<R>(sign: Sig, k: nat, result: R, copy: R -> R)
    returns (executions: nat, received: seq<R>)
    requires k >= 1
    ensures executions == 1
    ensures |received| == k && received[0] == result
    ensures forall i :: 1 <= i < k ==> received[i] == copy(result)
  {
    var shared := new ShareFuture<R>();
    var ids: seq<nat> := [];
    var i := 0;
    while i < k
      invariant i <= k && |ids| == i
      invariant shared.Valid() && shared.resolved == map[]
      invariant i == 0 ==> shared.table == map[] && shared.callbacks == map[] && shared.executions == []
      invariant i > 0 ==> && shared.executions == [sign]
                          && shared.table == map[sign := Pending(Some(ids[0]), ids[1..])]
                          && shared.callbacks == map[ids[0] := sign]
                          && shared.nextId == ids[0] + i
                          && forall j :: 0 <= j < i ==> ids[j] == ids[0] + j
    {
      var r := shared.Call(sign, true);
      assert (ids + [r.value])[1..] == (if i == 0 then [] else ids[1..] + [r.value]);
      ids := ids + [r.value];
      i := i + 1;
    }
    shared.TaskDone(ids[0], result, copy);
    received := [];
    i := 0;
    while i < k
      invariant i <= k && |received| == i
      invariant forall j :: 0 <= j < i ==> received[j] == (if j == 0 then result else copy(result))
    {
      assert ids[i] in shared.resolved && shared.resolved[ids[i]] == (if i == 0 then result else copy(result)) by {
        if i > 0 {
          assert ids[i] in ids[1..];
        } else {
          assert ids[0] !in ids[1..];
        }
      }
      received := received + [shared.resolved[ids[i]]];
      i := i + 1;
    }
    executions := |shared.executions|;
  }
}
