/**
 * The FIFO object pool of najapy/common/pool.py.
 *
 * The pool is an asyncio.Queue of objects bounded by `maxsize` (a bound of 0
 * or less makes the queue unbounded, as asyncio does). `Open` fills it with
 * objects from the factory `_create_obj`, `Close` drains it through the
 * destructor `_delete_obj`, and the scoped `get`/`get_nowait` hand out the
 * front object and put it back at the end when the scope exits, however it
 * exits (a `get` on an empty pool, which would wait, is None here).
 *
 * The factory is the function `create`, asked for its n-th object; the
 * destructor is a ghost log of the objects handed to it. `lent` holds the
 * objects currently checked out by a scope, and `dropped` those a scope could
 * not put back because the queue was full by then.
 */
module Pool {
  import opened Wrappers

  /** The objects the factory makes when asked `count` times starting at its `from`-th object. */
  function Made<R>(create: nat -> R, from: nat, count: nat): (s: seq<R>)
    ensures |s| == count
    ensures forall i :: 0 <= i < count ==> s[i] == create(from + i)
  {
    seq(count, i requires 0 <= i < count => create(from + i))
  }

  /** Asking the factory once more adds its next object at the end. */
  lemma MadeOneMore<R>(create: nat -> R, from: nat, count: nat)
    ensures Made(create, from, count + 1) == Made(create, from, count) + [create(from + count)]
  {
  }

  /** Moving the front of `q` to the end of `d` keeps the two together as a multiset. */
  lemma MoveFront<R>(q: seq<R>, d: seq<R>)
    requires q != []
    ensures multiset(d + [q[0]]) + multiset(q[1..]) == multiset(d) + multiset(q)
  {
    assert q == [q[0]] + q[1..];
  }

  class ObjectPool<R(==)> {
    var queue: seq<R>
    const maxsize: int
    const create: nat -> R
    var createdCount: nat
    ghost var created: seq<R>      // every object _create_obj made, in order
    ghost var destroyed: seq<R>    // every object passed to _delete_obj, in order
    ghost var lent: multiset<R>    // objects inside a get/get_nowait scope
    ghost var dropped: multiset<R> // objects whose put-back raised QueueFull

    /** `Queue.full()`: an unbounded queue is never full. */
    predicate Full()
      reads this
    {
      maxsize > 0 && |queue| >= maxsize
    }

    /**
     * The queue respects its bound, and every object ever created is
     * accounted for exactly once: destroyed, queued, lent out or dropped.
     */
    ghost predicate Valid()
      reads this
    {
      && (maxsize > 0 ==> |queue| <= maxsize)
      && |created| == createdCount
      && multiset(created) == multiset(destroyed) + multiset(queue) + lent + dropped
    }

    /** At most `maxsize` objects are queued or lent out together. */
    ghost predicate Balanced()
      reads this
    {
      maxsize > 0 ==> |queue| + |lent| <= maxsize
    }

    constructor (maxsize: int, create: nat -> R)
      ensures Valid() && Balanced()
      ensures this.maxsize == maxsize && this.create == create
      ensures queue == [] && created == [] && destroyed == [] && lent == multiset{} && dropped == multiset{}
    {
      queue := [];
      this.maxsize := maxsize;
      this.create := create;
      createdCount := 0;
      created, destroyed, lent, dropped := [], [], multiset{}, multiset{};
    }

    /** The `size` property: how many objects are queued, never more than a positive `maxsize`. */
    function Size(): (n: nat)
      reads this
      requires Valid()
      ensures maxsize > 0 ==> n <= maxsize
      ensures n == |multiset(created)| - |multiset(destroyed)| - |lent| - |dropped|
    {
      |queue|
    }

    /** `open`: create objects until the queue is full; they join the back in creation order. */
    method Open()
      requires Valid()
      requires maxsize > 0
      modifies this
      ensures Valid()
      ensures |queue| == maxsize
      ensures queue == old(queue) + Made(create, old(createdCount), maxsize - |old(queue)|)
      ensures created == old(created) + Made(create, old(createdCount), maxsize - |old(queue)|)
      ensures destroyed == old(destroyed) && lent == old(lent) && dropped == old(dropped)
      ensures old(lent) == multiset{} ==> Balanced()
    {
      ghost var queued, made, n := queue, created, 0;
      while !Full()
        invariant Valid()
        invariant |queue| == |queued| + n <= maxsize
        invariant createdCount == old(createdCount) + n
        invariant queue == queued + Made(create, old(createdCount), n)
        invariant created == made + Made(create, old(createdCount), n)
        invariant destroyed == old(destroyed) && lent == old(lent) && dropped == old(dropped)
        decreases maxsize - |queue|
      {
        var obj := create(createdCount);
        MadeOneMore(create, old(createdCount), n);
        assert queue + [obj] == queued + Made(create, old(createdCount), n + 1);
        assert created + [obj] == made + Made(create, old(createdCount), n + 1);
        assert multiset(queue + [obj]) == multiset(queue) + multiset{obj};
        assert multiset(created + [obj]) == multiset(created) + multiset{obj};
        queue := queue + [obj];
        created := created + [obj];
        createdCount := createdCount + 1;
        n := n + 1;
      }
    }

    /** `close`: hand every queued object, front first, to the destructor; a no-op on an empty pool. */
    method Close()
      requires Valid()
      modifies this
      ensures Valid()
      ensures queue == []
      ensures destroyed == old(destroyed) + old(queue)
      ensures created == old(created) && lent == old(lent) && dropped == old(dropped)
      ensures old(Balanced()) ==> Balanced()
    {
      if queue == [] {
        return;
      }
      ghost var queued, k := queue, 0;
      while queue != []
        invariant Valid()
        invariant k <= |queued| && queue == queued[k..]
        invariant destroyed == old(destroyed) + queued[..k]
        invariant created == old(created) && lent == old(lent) && dropped == old(dropped)
        invariant createdCount == old(createdCount)
        decreases |queue|
      {
        var obj := queue[0];
        assert queued[..k + 1] == queued[..k] + [obj];
        MoveFront(queue, destroyed);
        queue := queue[1..];
        destroyed := destroyed + [obj];
        k := k + 1;
      }
    }

    /** Entering `get_nowait`: take the front object at once, or raise QueueEmpty on an empty pool. */
    method GetNowait() returns (r: Result<R>)
      requires Valid()
      modifies this
      ensures Valid()
      ensures old(queue) == [] ==> r == Err(QueueEmpty) && queue == [] && lent == old(lent)
      ensures old(queue) != [] ==> && r == Ok(old(queue)[0])
                                   && queue == old(queue)[1..]
                                   && lent == old(lent) + multiset{old(queue)[0]}
      ensures created == old(created) && destroyed == old(destroyed) && dropped == old(dropped)
      ensures old(Balanced()) ==> Balanced()
    {
      if queue == [] {
        return Err(QueueEmpty);
      }
      var obj := queue[0];
      assert queue == [obj] + queue[1..];
      queue := queue[1..];
      lent := lent + multiset{obj};
      r := Ok(obj);
    }

    /** Entering `get`: take the front object, or None when the pool is empty and the task would wait. */
    method Get() returns (r: Option<R>)
      requires Valid()
      modifies this
      ensures Valid()
      ensures old(queue) == [] ==> r == None && queue == [] && lent == old(lent)
      ensures old(queue) != [] ==> && r == Some(old(queue)[0])
                                   && queue == old(queue)[1..]
                                   && lent == old(lent) + multiset{old(queue)[0]}
      ensures created == old(created) && destroyed == old(destroyed) && dropped == old(dropped)
      ensures old(Balanced()) ==> Balanced()
    {
      var taken := GetNowait();
      r := if taken.Ok? then Some(taken.value) else None;
    }

    /** Leaving a scope (`finally: put_nowait(obj)`): the object rejoins the back unless the queue is full. */
    method PutBack(obj: R) returns (r: Result<()>)
      requires Valid()
      requires obj in lent
      modifies this
      ensures Valid()
      ensures lent == old(lent) - multiset{obj}
      ensures r.Ok? <==> !old(Full())
      ensures r.Ok? ==> queue == old(queue) + [obj] && dropped == old(dropped)
      ensures r.Err? ==> r.error == QueueFull && queue == old(queue) && dropped == old(dropped) + multiset{obj}
      ensures old(Balanced()) ==> r.Ok?
      ensures old(Balanced()) ==> Balanced()
      ensures created == old(created) && destroyed == old(destroyed)
    {
      lent := lent - multiset{obj};
      if Full() {
        dropped := dropped + multiset{obj};
        return Err(QueueFull);
      }
      queue := queue + [obj];
      r := Ok(());
    }

    /**
     * A whole `async with pool.get() as obj:` scope whose body ends with
     * `bodyError` (None when it returns normally). On an empty pool the task
     * would wait in `get`, which is None here and leaves the pool as it was;
     * otherwise the front object moves to the back whatever the body does, the
     * pool keeps its size, and the body's error propagates after the put-back.
     * The put-back never meets a full queue, because the `get` freed a slot.
     */
    method ScopedGet(bodyError: Option<Error>) returns (r: Option<Result<R>>)
      requires Valid()
      modifies this
      ensures Valid()
      ensures Balanced() == old(Balanced())
      ensures |queue| == |old(queue)|
      ensures old(queue) == [] ==> r == None && queue == []
      ensures old(queue) != [] ==> queue == old(queue)[1..] + [old(queue)[0]]
      ensures old(queue) != [] && bodyError.None? ==> r == Some(Ok(old(queue)[0]))
      ensures old(queue) != [] && bodyError.Some? ==> r == Some(Err(bodyError.value))
      ensures lent == old(lent) && created == old(created) && destroyed == old(destroyed) && dropped == old(dropped)
    {
      var taken := Get();
      if taken.None? {
        return None;
      }
      var obj := taken.value;
      var back := PutBack(obj);
      assert back.Ok?;
      assert lent == old(lent);
      r := if bodyError.Some? then Some(Err(bodyError.value)) else Some(Ok(obj));
    }

    /**
     * A whole `with pool.get_nowait() as obj:` scope whose body ends with
     * `bodyError` (None when it returns normally): the front object moves to
     * the back whatever the body does, the pool keeps its size, and the body's
     * error propagates after the put-back, which never meets a full queue
     * because the `get_nowait` freed a slot.
     */
    method ScopedGetNowait(bodyError: Option<Error>) returns (r: Result<R>)
      requires Valid()
      modifies this
      ensures Valid()
      ensures Balanced() == old(Balanced())
      ensures |queue| == |old(queue)|
      ensures old(queue) == [] ==> r == Err(QueueEmpty) && queue == []
      ensures old(queue) != [] ==> queue == old(queue)[1..] + [old(queue)[0]]
      ensures old(queue) != [] && bodyError.None? ==> r == Ok(old(queue)[0])
      ensures old(queue) != [] && bodyError.Some? ==> r == Err(bodyError.value)
      ensures lent == old(lent) && created == old(created) && destroyed == old(destroyed) && dropped == old(dropped)
    {
      r := GetNowait();
      if r.Ok? {
        var obj := r.value;
        var back := PutBack(obj);
        assert back.Ok?;
        assert lent == old(lent);
        if bodyError.Some? {
          r := Err(bodyError.value);
        }
      }
    }
  }
}
