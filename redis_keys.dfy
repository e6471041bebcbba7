/**
 * Key building and the period counter of najapy/cache/redis.py.
 *
 * A pool's `key_prefix` namespaces every key as `prefix:key`, and extra
 * arguments add `:sign`, where `sign` is what `Utils.params_sign` renders for
 * them (an input function here). The pool constructors clamp
 * `min_connections` to `max_connections`. A PeriodCounter counts in the Redis
 * key `prefix:bucket`, where `bucket` is the timestamp floor-divided by the
 * time slice; every update increments the key and renews its expiry to
 * `max(time_slice, 60)`. The Redis server is a map from key to value and ttl,
 * and each pipeline (INCRBY then EXPIRE) is applied as one step.
 */
module Redis {
  import opened Wrappers
  import opened Text
  import opened Py

  /** What `Utils.params_sign(*args, **kwargs)` renders for a key. */
  type SignText = (seq<Value>, map<string, Value>) -> string

  /** `_PoolMixin.get_safe_key(key, *args, **kwargs)`. */
  function SafeKey(prefix: Value, key: string, args: seq<Value>, kwargs: map<string, Value>,
                   paramsSign: SignText): (r: string)
    ensures !Truthy(prefix) && args == [] && kwargs == map[] ==> r == key
    ensures Truthy(prefix) ==> ToStr(prefix) + ":" + key <= r
    ensures !Truthy(prefix) ==> key <= r
    ensures args != [] || kwargs != map[] ==>
              var sign := paramsSign(args, kwargs);
              |r| > |sign| && r[|r| - |sign| - 1..] == ":" + sign
    ensures args == [] && kwargs == map[] ==> |r| == |key| + (if Truthy(prefix) then |ToStr(prefix)| + 1 else 0)
    ensures args != [] || kwargs != map[] ==>
              |r| == |key| + (if Truthy(prefix) then |ToStr(prefix)| + 1 else 0) + 1 + |paramsSign(args, kwargs)|
  {
    var base := if Truthy(prefix) then ToStr(prefix) + ":" + key else key;
    if args != [] || kwargs != map[] then base + ":" + paramsSign(args, kwargs) else base
  }

  /** Under one prefix and without extra arguments, distinct keys stay distinct. */
  lemma SafeKeyInjective(prefix: Value, k1: string, k2: string, paramsSign: SignText)
    requires SafeKey(prefix, k1, [], map[], paramsSign) == SafeKey(prefix, k2, [], map[], paramsSign)
    ensures k1 == k2
  {
    var r := SafeKey(prefix, k1, [], map[], paramsSign);
    if Truthy(prefix) {
      var n := |ToStr(prefix)| + 1;
      assert k1 == r[n..] == k2;
    }
  }

  /** `min(min_connections, max_connections)` in the pool constructors; None raises TypeError. */
  function ClampMinConnections(minConnections: Option<int>, maxConnections: Option<int>): (r: Result<int>)
    ensures r.Ok? <==> minConnections.Some? && maxConnections.Some?
    ensures r.Err? ==> r.error == TypeError
    ensures r.Ok? ==> && r.value <= minConnections.value && r.value <= maxConnections.value
                      && (r.value == minConnections.value || r.value == maxConnections.value)
  {
    if minConnections.None? || maxConnections.None? then Err(TypeError)
    else if maxConnections.value < minConnections.value then Ok(maxConnections.value)
    else Ok(minConnections.value)
  }

  /** `min_connections if min_connections else 0` in `_PoolMixin.__init__`. */
  function MixinMinConnections(v: Value): (r: Value)
    ensures r == v || r == Int(0)
    ensures Truthy(v) ==> r == v
    ensures !Truthy(r) ==> r == Int(0)
  {
    if Truthy(v) then v else Int(0)
  }

  /** The part of `_PoolMixin` that builds keys. */
  class PoolMixin {
    var keyPrefix: Value
    const minConnections: Value

    constructor (minConnections: Value)
      ensures keyPrefix == Nil && this.minConnections == MixinMinConnections(minConnections)
    {
      keyPrefix := Nil;
      this.minConnections := MixinMinConnections(minConnections);
    }

    /** The `key_prefix` setter. */
    method SetKeyPrefix(value: Value)
      modifies this
      ensures keyPrefix == value
    {
      keyPrefix := value;
    }

    /** `get_safe_key` under the current prefix. */
    function GetSafeKey(key: string, args: seq<Value>, kwargs: map<string, Value>, paramsSign: SignText): (r: string)
      reads this
      ensures Truthy(keyPrefix) ==> ToStr(keyPrefix) + ":" + key <= r
      ensures !Truthy(keyPrefix) && args == [] && kwargs == map[] ==> r == key
      ensures args != [] || kwargs != map[] ==>
                var sign := paramsSign(args, kwargs);
                |r| > |sign| && r[|r| - |sign| - 1..] == ":" + sign
                && |r| == |key| + (if Truthy(keyPrefix) then |ToStr(keyPrefix)| + 1 else 0) + 1 + |sign|
    {
      SafeKey(keyPrefix, key, args, kwargs, paramsSign)
    }
  }

  /** `RedisPool(...)` or `BlockingRedisPool(...)`: the mixin receives the clamped minimum. */
  method NewRedisPool(minConnections: Option<int>, maxConnections: Option<int>) returns (r: Result<PoolMixin>)
    ensures r.Ok? <==> minConnections.Some? && maxConnections.Some?
    ensures r.Err? ==> r.error == TypeError
    ensures r.Ok? ==> && fresh(r.value) && r.value.keyPrefix == Nil
                      && r.value.minConnections == Int(ClampMinConnections(minConnections, maxConnections).value)
  {
    var clamped := ClampMinConnections(minConnections, maxConnections);
    if clamped.Err? {
      return Err(clamped.error);
    }
    var pool := new PoolMixin(Int(clamped.value));
    r := Ok(pool);
  }

  // ---------------------------------------------------------------- time buckets

  /** `math.floor(a / b)` for a nonzero divisor, on exact numbers. */
  function FloorDiv(a: int, b: int): (q: int)
    requires b != 0
    ensures b > 0 ==> b * q <= a < b * q + b
    ensures b < 0 ==> b * q >= a > b * q + b
  {
    if b > 0 then a / b else (-a) / (-b)
  }

  /** The bucket is the only `k` whose slice `[k * s, k * s + s)` holds the timestamp. */
  lemma BucketOf(t: int, s: int, k: int)
    requires s > 0
    ensures FloorDiv(t, s) == k <==> s * k <= t < s * k + s
  {
    var q := FloorDiv(t, s);
    if s * k <= t < s * k + s && q != k {
      if q < k {
        MulAtLeast(s, k - q);
      } else {
        MulAtLeast(s, q - k);
      }
    }
  }

  lemma MulAtLeast(s: int, d: int)
    requires s > 0 && d >= 1
    ensures s * d >= s
  {
    assert s * d == s * (d - 1) + s;
  }

  /** Two timestamps in one slice fall in one bucket. */
  lemma SameSlice(t1: int, t2: int, s: int, k: int)
    requires s > 0 && s * k <= t1 < s * k + s && s * k <= t2 < s * k + s
    ensures FloorDiv(t1, s) == FloorDiv(t2, s)
  {
    BucketOf(t1, s, k);
    BucketOf(t2, s, k);
  }

  const NoSign: SignText := (args, kwargs) => ""

  /** The Redis key `PeriodCounter._get_key` builds for a bucket (its properties are the lemmas below). */
  function CounterKey(poolPrefix: Value, counterPrefix: Value, bucket: int): string {
    SafeKey(poolPrefix, ToStr(counterPrefix) + ":" + IntToString(bucket), [], map[], NoSign)
  }

  /** The bucket a counter key names: the integer after its last colon, if any. */
  function KeyBucket(key: string): Option<int> {
    var c := LastColonIndex(key);
    if c < 0 then None else ParseInt(key[c + 1..])
  }

  /** A counter key ends with `prefix:bucket`, and its bucket reads back from it. */
  lemma CounterKeyBucket(poolPrefix: Value, counterPrefix: Value, bucket: int)
    ensures var key := CounterKey(poolPrefix, counterPrefix, bucket);
            var tail := ToStr(counterPrefix) + ":" + IntToString(bucket);
            && |tail| <= |key| && key[|key| - |tail|..] == tail
            && KeyBucket(key) == Some(bucket)
  {
    var digits := IntToString(bucket);
    var key := CounterKey(poolPrefix, counterPrefix, bucket);
    var front := if Truthy(poolPrefix) then ToStr(poolPrefix) + ":" + ToStr(counterPrefix) else ToStr(counterPrefix);
    assert key == front + ":" + digits;
    IntToStringChars(bucket, ':');
    LastColonAfter(front, digits);
    assert key[|front| + 1..] == digits;
    ParseIntToString(bucket);
  }

  /** The position of the last colon in `s`, or -1 when there is none. */
  function LastColonIndex(s: string): (i: int)
    ensures -1 <= i < |s|
  {
    if s == [] then -1
    else if s[|s| - 1] == ':' then |s| - 1
    else LastColonIndex(s[..|s| - 1])
  }

  lemma {:induction false} LastColonAfter(p: string, d: string)
    requires ':' !in d
    ensures LastColonIndex(p + ":" + d) == |p|
  {
    var s := p + ":" + d;
    if d == [] {
      assert s[|s| - 1] == ':';
    } else {
      assert d[|d| - 1] in d;
      assert s[..|s| - 1] == p + ":" + d[..|d| - 1];
      var e := d[..|d| - 1];
      assert ':' !in e by {
        forall k | 0 <= k < |e| ensures e[k] != ':' {
          assert e[k] == d[k] && d[k] in d;
        }
      }
      LastColonAfter(p, d[..|d| - 1]);
    }
  }

  /** Text that ends with a colon-free part after a colon determines both sides. */
  lemma LastColon(p1: string, d1: string, p2: string, d2: string)
    requires ':' !in d1 && ':' !in d2
    requires p1 + ":" + d1 == p2 + ":" + d2
    ensures p1 == p2 && d1 == d2
  {
    var s := p1 + ":" + d1;
    LastColonAfter(p1, d1);
    LastColonAfter(p2, d2);
    assert d1 == s[|p1| + 1..] == d2;
    assert p1 == s[..|p1|] == p2;
  }

  /**
   * Counter keys are injective: under one pool prefix, counters whose
   * prefixes render differently, or buckets that differ, never share a key.
   */
  lemma CounterKeyInjective(poolPrefix: Value, c1: Value, b1: int, c2: Value, b2: int)
    requires CounterKey(poolPrefix, c1, b1) == CounterKey(poolPrefix, c2, b2)
    ensures ToStr(c1) == ToStr(c2) && b1 == b2
  {
    var k1 := ToStr(c1) + ":" + IntToString(b1);
    var k2 := ToStr(c2) + ":" + IntToString(b2);
    SafeKeyInjective(poolPrefix, k1, k2, NoSign);
    IntToStringChars(b1, ':');
    IntToStringChars(b2, ':');
    LastColon(ToStr(c1), IntToString(b1), ToStr(c2), IntToString(b2));
    IntToStringInjective(b1, b2);
  }

  // ---------------------------------------------------------------- the store and the counter

  datatype Stored = Stored(value: int, ttl: nat)

  /** The Redis server: each key's integer value and its time to live. */
  class RedisStore {
    var data: map<string, Stored>

    constructor ()
      ensures data == map[]
    {
      data := map[];
    }

    /** A pipeline of INCRBY then EXPIRE; the reply is the value after the increment. */
    method IncrByExpire(key: string, val: int, ttl: nat) returns (res: int)
      modifies this
      ensures res == (if key in old(data) then old(data)[key].value else 0) + val
      ensures data == old(data)[key := Stored(res, ttl)]
    {
      res := (if key in data then data[key].value else 0) + val;
      data := data[key := Stored(res, ttl)];
    }
  }

  const MinExpire: nat := 60

  class PeriodCounter {
    const client: PoolMixin
    const store: RedisStore
    const keyPrefix: Value
    const timeSlice: int

    constructor (client: PoolMixin, store: RedisStore, keyPrefix: Value, timeSlice: int)
      ensures this.client == client && this.store == store
      ensures this.keyPrefix == keyPrefix && this.timeSlice == timeSlice
    {
      this.client := client;
      this.store := store;
      this.keyPrefix := keyPrefix;
      this.timeSlice := timeSlice;
    }

    /** `_get_key` at `timestamp`: the key of its bucket, or ZeroDivisionError for a zero slice. */
    function GetKey(timestamp: int): (r: Result<string>)
      reads client
      ensures r.Err? <==> timeSlice == 0
      ensures r.Err? ==> r.error == ZeroDivisionError
      ensures r.Ok? ==> r.value == CounterKey(client.keyPrefix, keyPrefix, FloorDiv(timestamp, timeSlice))
    {
      if timeSlice == 0 then Err(ZeroDivisionError)
      else Ok(CounterKey(client.keyPrefix, keyPrefix, FloorDiv(timestamp, timeSlice)))
    }

    /** The expiry `_execute` sets: `max(time_slice, MIN_EXPIRE)`, never below a minute. */
    function Expiry(): (e: nat)
      ensures e >= MinExpire && e >= timeSlice
      ensures e == MinExpire || e == timeSlice
    {
      if timeSlice > MinExpire then timeSlice else MinExpire
    }

    /** `_execute(key, val)`: add `val` to the key, renew its expiry and return the new count. */
    method Execute(key: string, val: int) returns (res: int)
      modifies store
      ensures res == (if key in old(store.data) then old(store.data)[key].value else 0) + val
      ensures store.data == old(store.data)[key := Stored(res, Expiry())]
    {
      res := store.IncrByExpire(key, val, Expiry());
    }

    /** `incr(val)` at `timestamp`. */
    method Incr(val: int, timestamp: int) returns (r: Result<int>)
      modifies store
      ensures GetKey(timestamp).Err? ==> r == Err(ZeroDivisionError) && store.data == old(store.data)
      ensures GetKey(timestamp).Ok? ==>
        var key := GetKey(timestamp).value;
        && r == Ok((if key in old(store.data) then old(store.data)[key].value else 0) + val)
        && store.data == old(store.data)[key := Stored(r.value, Expiry())]
    {
      var key := GetKey(timestamp);
      if key.Err? {
        return Err(key.error);
      }
      var res := Execute(key.value, val);
      r := Ok(res);
    }

    /** `decr(val)` at `timestamp`: an increment by `-val`. */
    method Decr(val: int, timestamp: int) returns (r: Result<int>)
      modifies store
      ensures GetKey(timestamp).Err? ==> r == Err(ZeroDivisionError) && store.data == old(store.data)
      ensures GetKey(timestamp).Ok? ==>
        var key := GetKey(timestamp).value;
        && r == Ok((if key in old(store.data) then old(store.data)[key].value else 0) - val)
        && store.data == old(store.data)[key := Stored(r.value, Expiry())]
    {
      r := Incr(-val, timestamp);
    }
  }

  /**
   * Successive `incr()` calls on a fresh store, all within one slice, reply
   * 1, 2, 3, ... in order.
   */
  method CountWithinSlice(keyPrefix: Value, timeSlice: int, timestamps: seq<int>) returns (replies: seq<Result<int>>)
    requires timeSlice != 0
    requires forall i :: 0 <= i < |timestamps| ==>
               FloorDiv(timestamps[i], timeSlice) == FloorDiv(timestamps[0], timeSlice)
    ensures |replies| == |timestamps|
    ensures forall i :: 0 <= i < |replies| ==> replies[i] == Ok(i + 1)
  {
    var client := new PoolMixin(Int(1));
    var store := new RedisStore();
    var counter := new PeriodCounter(client, store, keyPrefix, timeSlice);
    replies := [];
    ghost var key := if |timestamps| > 0 then counter.GetKey(timestamps[0]).value else "";
    var i := 0;
    while i < |timestamps|
      invariant i <= |timestamps| && |replies| == i
      invariant forall j :: 0 <= j < i ==> replies[j] == Ok(j + 1)
      invariant client.keyPrefix == Nil
      invariant i == 0 ==> store.data == map[]
      invariant i > 0 ==> store.data == map[key := Stored(i, counter.Expiry())]
    {
      assert counter.GetKey(timestamps[i]) == Ok(key);
      var r := counter.Incr(1, timestamps[i]);
      replies := replies + [r];
      i := i + 1;
    }
  }

  /**
   * Two counters on one store whose prefixes render differently, updated in
   * one slice: each counts on its own.
   */
  method TwoCountersIndependent(a: Value, b: Value, timeSlice: int, timestamp: int)
    returns (a1: Result<int>, b1: Result<int>, a2: Result<int>)
    requires timeSlice != 0 && ToStr(a) != ToStr(b)
    ensures a1 == Ok(1) && b1 == Ok(1) && a2 == Ok(2)
  {
    var client := new PoolMixin(Int(1));
    var store := new RedisStore();
    var ca := new PeriodCounter(client, store, a, timeSlice);
    var cb := new PeriodCounter(client, store, b, timeSlice);
    var bucket := FloorDiv(timestamp, timeSlice);
    assert CounterKey(Nil, a, bucket) != CounterKey(Nil, b, bucket) by {
      if CounterKey(Nil, a, bucket) == CounterKey(Nil, b, bucket) {
        CounterKeyInjective(Nil, a, bucket, b, bucket);
      }
    }
    a1 := ca.Incr(1, timestamp);
    b1 := cb.Incr(1, timestamp);
    a2 := ca.Incr(1, timestamp);
  }
}
