/**
 * The batch dispatcher of najapy/common/buffer.py.
 *
 * A QueueBuffer accumulates items and, when its size reaches the size limit or
 * when the interval timer ticks, detaches its whole contents as one batch and
 * appends that batch, as a single element, to a DataQueue. The DataQueue keeps
 * a FIFO of such elements and starts one handler task per element, front
 * first, while fewer than `taskLimit` tasks are in flight; a finished task
 * frees its slot and the queue refills it.
 *
 * Asynchronous tasks are explicit: a task is an identity in `tasks`, mapped to
 * the element its handler was started on, and its completion is the call
 * `TaskDone(t)` that the event loop makes through the task's done-callback.
 * Ghost histories record every element received and every element handed to a
 * handler, so that "nothing lost, nothing duplicated, FIFO" can be stated.
 */
module Buffer {
  import opened Wrappers

  /** The items of a sequence of batches, in order. */
  function Flatten<T>(batches: seq<seq<T>>): seq<T> {
    if batches == [] then [] else batches[0] + Flatten(batches[1..])
  }

  /** Flattening distributes over concatenation of batch sequences. */
  lemma {:induction false} FlattenAppend<T>(a: seq<seq<T>>, b: seq<seq<T>>)
    ensures Flatten(a + b) == Flatten(a) + Flatten(b)
  {
    if a != [] {
      assert (a + b)[1..] == a[1..] + b;
      FlattenAppend(a[1..], b);
    } else {
      assert a + b == b;
    }
  }

  /** Adding one batch at the end adds its items at the end. */
  lemma FlattenPush<T>(a: seq<seq<T>>, batch: seq<T>)
    ensures Flatten(a + [batch]) == Flatten(a) + batch
  {
    FlattenAppend(a, [batch]);
    assert Flatten([batch]) == batch + Flatten([]);
  }

  type TaskId = nat

  /** The tasks started on `elems`, numbered consecutively from `first`. */
  function Launch<E>(first: TaskId, elems: seq<E>): map<TaskId, E> {
    if elems == [] then map[]
    else Launch(first, elems[..|elems| - 1])[first + |elems| - 1 := elems[|elems| - 1]]
  }

  /** Starting one more task on the next element extends the launched tasks by that one task. */
  lemma LaunchOneMore<E>(inFlight: map<TaskId, E>, first: TaskId, elems: seq<E>, e: E)
    ensures (inFlight + Launch(first, elems))[first + |elems| := e] == inFlight + Launch(first, elems + [e])
  {
    var k := first + |elems|;
    assert (elems + [e])[..|elems|] == elems;
    assert Launch(first, elems + [e]) == Launch(first, elems)[k := e];
  }

  /** The first n + 1 elements are the first n followed by the next one. */
  lemma PrefixPush<E>(s: seq<E>, n: nat)
    requires n < |s|
    ensures s[..n + 1] == s[..n] + [s[n]]
    ensures s[n..][1..] == s[n + 1..]
  {
  }

  /** One loop step of the launcher: the task started on waiting[n] extends the first n launches. */
  lemma LaunchStep<E>(inFlight: map<TaskId, E>, first: TaskId, waiting: seq<E>, n: nat,
                      before: map<TaskId, E>, id: TaskId, e: E, after: map<TaskId, E>)
    requires n < |waiting| && id == first + n && e == waiting[n]
    requires before == inFlight + Launch(first, waiting[..n])
    requires after == before[id := e]
    ensures after == inFlight + Launch(first, waiting[..n + 1])
  {
    PrefixPush(waiting, n);
    LaunchOneMore(inFlight, first, waiting[..n], waiting[n]);
  }

  /** `DadaQueue` (the source's spelling): a FIFO of elements and the handler tasks in flight on them. */
  class DataQueue<E> {
    var buffer: seq<E>
    var tasks: map<TaskId, E>   // the tasks in flight, each with the element it handles
    var nextTask: TaskId        // the identity the next created task receives
    const taskLimit: nat
    ghost var started: seq<E>   // the elements handed to the handler, in launch order
    ghost var received: seq<E>  // the elements appended, in arrival order

    /** Task identities are issued once, and every received element is either started or still waiting, in order. */
    ghost predicate Consistent()
      reads this
    {
      && (forall t :: t in tasks ==> t < nextTask)
      && started + buffer == received
    }

    ghost predicate Valid()
      reads this
    {
      Consistent() && |tasks| <= taskLimit
    }

    constructor (taskLimit: nat)
      ensures Valid()
      ensures this.taskLimit == taskLimit
      ensures buffer == [] && tasks == map[] && started == [] && received == []
    {
      buffer, tasks, nextTask := [], map[], 0;
      this.taskLimit := taskLimit;
      started, received := [], [];
    }

    /** `size()`: the number of elements still waiting for a free slot. */
    function Size(): (n: nat)
      reads this
      requires Valid()
      ensures n == |received| - |started|
    {
      |buffer|
    }

    /** How many of `waiting` elements can be started while `inFlight` tasks run. */
    function Launchable(inFlight: nat, waiting: nat): (k: nat)
      requires inFlight <= taskLimit
      ensures k <= waiting && inFlight + k <= taskLimit
      ensures k == waiting || inFlight + k == taskLimit
    {
      if waiting < taskLimit - inFlight then waiting else taskLimit - inFlight
    }

    /**
     * The state reached from the old one when the launcher, with `inFlight`
     * tasks running and `waiting` elements queued, starts tasks on the front
     * elements until the slots or the elements run out.
     */
    twostate predicate LaunchedFrom(inFlight: map<TaskId, E>, waiting: seq<E>)
      reads this
      requires |inFlight| <= taskLimit
    {
      var k := Launchable(|inFlight|, |waiting|);
      && buffer == waiting[k..]
      && started == old(started) + waiting[..k]
      && tasks == inFlight + Launch(old(nextTask), waiting[..k])
      && nextTask == old(nextTask) + k
    }

    /** `_create_task`: start a handler task on the front element, if there is one. */
    method CreateTask() returns (created: bool)
      requires Consistent()
      modifies this
      ensures Consistent()
      ensures created <==> old(buffer) != []
      ensures created ==> && buffer == old(buffer)[1..]
                          && started == old(started) + [old(buffer)[0]]
                          && tasks == old(tasks)[old(nextTask) := old(buffer)[0]]
                          && nextTask == old(nextTask) + 1
      ensures !created ==> buffer == old(buffer) && started == old(started)
                           && tasks == old(tasks) && nextTask == old(nextTask)
      ensures received == old(received)
    {
      created := false;
      if |buffer| > 0 {
        var element := buffer[0];
        buffer := buffer[1..];
        tasks := tasks[nextTask := element];
        nextTask := nextTask + 1;
        started := started + [element];
        created := true;
      }
    }

    /** `_consume_buffer`: start tasks, FIFO, while a slot is free and an element waits. */
    method ConsumeBuffer()
      requires Valid()
      modifies this
      ensures Valid()
      ensures LaunchedFrom(old(tasks), old(buffer))
      ensures |tasks| == taskLimit || buffer == []
      ensures received == old(received)
    {
      ghost var inFlight, first, waiting, n := tasks, nextTask, buffer, 0;
      while |tasks| < taskLimit
        invariant Consistent() && |tasks| <= taskLimit
        invariant n <= |waiting|
        invariant buffer == waiting[n..]
        invariant started == old(started) + waiting[..n]
        invariant nextTask == first + n
        invariant tasks == inFlight + Launch(first, waiting[..n])
        invariant |tasks| == |inFlight| + n
        invariant received == old(received)
        decreases |buffer|
      {
        ghost var before, id, front := tasks, nextTask, buffer;
        var created := CreateTask();
        if !created {
          break;
        }
        LaunchStep(inFlight, first, waiting, n, before, id, front[0], tasks);
        PrefixPush(waiting, n);
        n := n + 1;
      }
    }

    /** `append`: queue one element at the back, then start what the free slots allow. */
    method Append(x: E)
      requires Valid()
      modifies this
      ensures Valid()
      ensures received == old(received) + [x]
      ensures LaunchedFrom(old(tasks), old(buffer) + [x])
      ensures |tasks| == taskLimit || buffer == []
    {
      buffer := buffer + [x];
      received := received + [x];
      ConsumeBuffer();
    }

    /** `_task_done`: forget the finished task if it is in flight, then refill the free slots. */
    method TaskDone(t: TaskId)
      requires Valid()
      modifies this
      ensures Valid()
      ensures |old(tasks) - {t}| <= taskLimit
      ensures LaunchedFrom(old(tasks) - {t}, old(buffer))
      ensures |tasks| == taskLimit || buffer == []
      ensures received == old(received)
    {
      ghost var rest := tasks - {t};
      assert rest.Keys <= tasks.Keys;
      if t in tasks {
        tasks := tasks - {t};
      }
      assert tasks == rest;
      ConsumeBuffer();
    }
  }

  /** QueueBuffer: an item buffer that flushes whole batches into a DataQueue. */
  class QueueBuffer<T> {
    var buffer: seq<T>
    const sizeLimit: nat
    const dataQueue: DataQueue<seq<T>>
    ghost var received: seq<T>  // every item appended, in arrival order

    /**
     * Nothing is lost or duplicated: the batches the data queue received,
     * followed by the items still buffered, are exactly the items appended,
     * in order; and no batch is empty.
     */
    ghost predicate Valid()
      reads this, dataQueue
    {
      && dataQueue.Valid()
      && Flatten(dataQueue.received) + buffer == received
      && forall i :: 0 <= i < |dataQueue.received| ==> dataQueue.received[i] != []
    }

    constructor (sizeLimit: nat, taskLimit: nat)
      ensures Valid() && fresh(dataQueue)
      ensures this.sizeLimit == sizeLimit && dataQueue.taskLimit == taskLimit
      ensures buffer == [] && received == []
      ensures dataQueue.received == [] && dataQueue.tasks == map[]
    {
      buffer := [];
      this.sizeLimit := sizeLimit;
      dataQueue := new DataQueue(taskLimit);
      received := [];
    }

    /** `size()`: the number of items appended and not yet flushed. */
    function Size(): (n: nat)
      reads this, dataQueue
      requires Valid()
      ensures n == |received| - |Flatten(dataQueue.received)|
    {
      |buffer|
    }

    /** `data_queue_size()`: the number of flushed batches still waiting for a handler slot. */
    function DataQueueSize(): (n: nat)
      reads this, dataQueue
      requires Valid()
      ensures n == |dataQueue.received| - |dataQueue.started|
    {
      dataQueue.Size()
    }

    /** `_get_buffer`: None when empty; otherwise detach the whole contents, leaving the buffer empty. */
    method GetBuffer() returns (batch: Option<seq<T>>)
      modifies this`buffer
      ensures buffer == []
      ensures old(buffer) == [] ==> batch == None
      ensures old(buffer) != [] ==> batch == Some(old(buffer))
    {
      if buffer == [] {
        return None;
      }
      batch := Some(buffer);
      buffer := [];
    }

    /** The data queue received `batch` as one element and started what its free slots allow. */
    twostate predicate HandedOver(batch: seq<T>)
      reads this, dataQueue
      requires old(dataQueue.Valid())
    {
      && dataQueue.received == old(dataQueue.received) + [batch]
      && dataQueue.LaunchedFrom(old(dataQueue.tasks), old(dataQueue.buffer) + [batch])
    }

    /** `_do_consume_buffer`, also what every interval-timer tick runs: flush a non-empty buffer. */
    method DoConsumeBuffer()
      requires Valid()
      modifies this, dataQueue
      ensures Valid()
      ensures buffer == [] && received == old(received)
      ensures old(buffer) == [] ==> unchanged(dataQueue)
      ensures old(buffer) != [] ==> HandedOver(old(buffer))
    {
      var batch := GetBuffer();
      if batch.Some? {
        FlattenPush(dataQueue.received, batch.value);
        dataQueue.Append(batch.value);
      }
    }

    /** The interval timer firing: it runs `_do_consume_buffer` whatever the size. */
    method Tick()
      requires Valid()
      modifies this, dataQueue
      ensures Valid()
      ensures buffer == [] && received == old(received)
      ensures old(buffer) == [] ==> unchanged(dataQueue)
      ensures old(buffer) != [] ==> HandedOver(old(buffer))
    {
      DoConsumeBuffer();
    }

    /** `_consume_buffer`: flush only once the size reaches the limit. */
    method ConsumeBuffer()
      requires Valid()
      modifies this, dataQueue
      ensures Valid()
      ensures received == old(received)
      ensures |old(buffer)| < sizeLimit ==> buffer == old(buffer) && unchanged(dataQueue)
      ensures |old(buffer)| >= sizeLimit ==> buffer == []
      ensures |old(buffer)| >= sizeLimit && old(buffer) != [] ==> HandedOver(old(buffer))
      ensures old(buffer) == [] ==> unchanged(dataQueue)
    {
      if |buffer| >= sizeLimit {
        DoConsumeBuffer();
      }
    }

    /** `append`: add one item at the end; at the size limit the whole buffer becomes one batch. */
    method Append(x: T)
      requires Valid()
      modifies this, dataQueue
      ensures Valid()
      ensures received == old(received) + [x]
      ensures |old(buffer)| + 1 < sizeLimit ==> buffer == old(buffer) + [x] && unchanged(dataQueue)
      ensures |old(buffer)| + 1 >= sizeLimit ==> buffer == [] && HandedOver(old(buffer) + [x])
    {
      buffer := buffer + [x];
      received := received + [x];
      ConsumeBuffer();
    }

    /** `extent`: add items at the end in order; at the size limit the whole buffer becomes one batch. */
    method Extent(items: seq<T>)
      requires Valid()
      modifies this, dataQueue
      ensures Valid()
      ensures received == old(received) + items
      ensures |old(buffer) + items| < sizeLimit ==> buffer == old(buffer) + items && unchanged(dataQueue)
      ensures |old(buffer) + items| >= sizeLimit ==> buffer == []
      ensures |old(buffer) + items| >= sizeLimit && old(buffer) + items != [] ==> HandedOver(old(buffer) + items)
      ensures old(buffer) + items == [] ==> unchanged(dataQueue)
    {
      buffer := buffer + items;
      received := received + items;
      ConsumeBuffer();
    }

    /** The event loop running a finished handler task's done-callback on the data queue. */
    method HandlerDone(t: TaskId)
      requires Valid()
      modifies dataQueue
      ensures Valid()
      ensures dataQueue.received == old(dataQueue.received)
      ensures |old(dataQueue.tasks) - {t}| <= dataQueue.taskLimit
      ensures dataQueue.LaunchedFrom(old(dataQueue.tasks) - {t}, old(dataQueue.buffer))
    {
      dataQueue.TaskDone(t);
    }
  }
}
