# najapy core, modelled in Dafny

This project models the core of najapy, a toolkit of asyncio helpers for web
services. It covers these parts:

- **Batch dispatcher** (`najapy/common/buffer.py`). A `QueueBuffer` collects
  items. At its size limit, or on a timer tick, it hands the whole buffer as
  one batch to a `DadaQueue`. That queue starts at most `task_limit` handler
  tasks, front element first.
- **Object pool** (`najapy/common/pool.py`). This is a FIFO `asyncio.Queue` of
  objects. `open` fills it, `close` drains it, and the scoped `get` and
  `get_nowait` put the object back whatever happens.
- **In-process caches** (`najapy/cache/base.py`):
  - `StackCache` is a TTL map.
  - `FuncCache` memoises a function under a signature built from chosen
    arguments.
  - `ShareFuture` lets concurrent calls that share a signature run the
    function once and share its result.
- **Redis key building** (`najapy/cache/redis.py`). This covers the pool key
  prefix `prefix:key[:sign]`, the `min_connections` clamp and the
  `PeriodCounter`. The counter counts in one key per time bucket and renews
  its expiry to `max(time_slice, 60)`.
- **Request-field validators** (`najapy/frame/fastapi/form.py`). They cover
  list fields split on a separator, stripped strings, fixed lengths,
  `status_in` scopes and Excel upload filenames.
- **Enumeration registry** (`najapy/enum/base_enum.py`). `Enum` members are
  compared by code. `BaseEnum` lists and maps the codes of its members and
  memoises each view.
- **Spreadsheet reader** (`najapy/common/excel.py`, `ExcelRD`). It matches
  header cells to code fields and extracts the data rows through that match.

Python's own behaviour is written out in three support modules:

- `text.dfy`: `str.strip`, `str.split` on one character, `int()` on text, and
  `str()` on integers.
- `py.dfy`: the Python values in play (None, bool, int, str, other objects),
  with truthiness, `isinstance`, `==` and `str()`.
- `wrappers.dfy`: `Option`/`Result`, and the exceptions as an `Error` type.

A call that raises is an `Err` result. The clock and task creation are
explicit parameters. So are the results of `Utils.params_sign` and `deepcopy`.

Classes whose fields the source updates in place are Dafny classes. Their
methods state the new state and keep a `Valid()` invariant. The pure parts are
functions, with lemmas relating them. Their main results:

- The buffer loses and duplicates nothing, and stays FIFO.
- The pool keeps every created object accounted for exactly once.
- The cache stays within its bound.
- Signatures agree exactly when the selected arguments agree.
- Counter keys are injective.
- An integer list validates back to itself after rendering and joining.
- `to_list` is the sorted permutation of the member codes.
- The spreadsheet relation is complete exactly when every field is matched.

## Model

| member | source | states |
|---|---|---|
| Buffer.FlattenAppend | najapy/common/buffer.py:83-87 | the items of concatenated batch sequences are the concatenated items, so handing over batches preserves item order |
| Buffer.FlattenPush | najapy/common/buffer.py:83-87 | handing one more batch to the data queue adds exactly its items at the end of all items handed over |
| Buffer.LaunchOneMore | najapy/common/buffer.py:47-61 | starting a task on the next element extends the launched tasks by exactly that task |
| Buffer.LaunchStep | najapy/common/buffer.py:42-45 | one launcher iteration on `waiting[n]` extends the first `n` launches to `n + 1` |
| Buffer.DataQueue.constructor | najapy/common/buffer.py:35-40 | a new queue has no elements and no tasks, and its history is empty |
| Buffer.DataQueue.Size | najapy/common/buffer.py:22-23 | the queue's size is the number of elements received but not yet started |
| Buffer.DataQueue.Launchable | najapy/common/buffer.py:42-45 | the launcher starts as many elements as fit: all of them, or until the in-flight count reaches `task_limit` |
| Buffer.DataQueue.CreateTask | najapy/common/buffer.py:47-61 | returns true iff an element waited; it then pops the front element and registers a new task on it, and otherwise changes nothing |
| Buffer.DataQueue.ConsumeBuffer | najapy/common/buffer.py:42-45 | starts tasks on the front elements in FIFO order; afterwards `task_limit` tasks run or nothing waits; never more than `task_limit` tasks |
| Buffer.DataQueue.Append | najapy/common/buffer.py:25-27 | the element joins the back, then the free slots are filled FIFO |
| Buffer.DataQueue.TaskDone | najapy/common/buffer.py:63-67 | the finished task is removed if present, then the free slots are refilled from the front |
| Buffer.QueueBuffer.constructor | najapy/common/buffer.py:71-75 | a new buffer is empty and owns a fresh, empty data queue with the given task limit |
| Buffer.QueueBuffer.Size | najapy/common/buffer.py:22-23 | `size()` is the number of items appended and not yet handed over |
| Buffer.QueueBuffer.DataQueueSize | najapy/common/buffer.py:89-90 | `data_queue_size()` is the number of batches handed over and not yet started |
| Buffer.QueueBuffer.GetBuffer | najapy/common/buffer.py:14-20 | None on an empty buffer; otherwise the entire contents; the buffer is empty afterwards |
| Buffer.QueueBuffer.DoConsumeBuffer | najapy/common/buffer.py:83-87 | a non-empty buffer becomes one batch element of the data queue; an empty one changes nothing; no item is lost or duplicated |
| Buffer.QueueBuffer.Tick | najapy/common/buffer.py:77 | the interval timer flushes whatever the size |
| Buffer.QueueBuffer.ConsumeBuffer | najapy/common/buffer.py:79-81 | flushes exactly when `size() >= size_limit`; below the limit nothing changes |
| Buffer.QueueBuffer.Append | najapy/common/buffer.py:25-27 | the item is added at the end; when the limit is reached the whole buffer, including it, is handed over as one batch |
| Buffer.QueueBuffer.Extent | najapy/common/buffer.py:29-31 | the items are added at the end in order; at the limit the whole buffer is handed over as one batch |
| Buffer.QueueBuffer.HandlerDone | najapy/common/buffer.py:63-67 | a handler finishing frees its slot in the data queue, which refills it FIFO |
| Pool.Made | najapy/common/pool.py:20-23 | the objects the factory makes, in order |
| Pool.MadeOneMore | najapy/common/pool.py:20-23 | asking the factory once more appends its next object |
| Pool.ObjectPool.constructor | najapy/common/pool.py:9-10 | a new pool is empty and has created nothing |
| Pool.ObjectPool.Size | najapy/common/pool.py:38-40 | the size is what was created minus what was destroyed, lent or dropped, and at most a positive `maxsize` |
| Pool.ObjectPool.Open | najapy/common/pool.py:18-23 | afterwards `size == maxsize`; the new objects join the back in creation order; nothing is destroyed |
| Pool.ObjectPool.Close | najapy/common/pool.py:27-36 | every queued object goes to the destructor exactly once, front first; the pool is then empty; a no-op when empty |
| Pool.ObjectPool.GetNowait | najapy/common/pool.py:55-57 | the front (oldest) object, or QueueEmpty at once on an empty pool; nothing is created or destroyed |
| Pool.ObjectPool.Get | najapy/common/pool.py:43-45 | the front object, or no object while the pool is empty; nothing is created or destroyed |
| Pool.ObjectPool.PutBack | najapy/common/pool.py:51-52 | the object rejoins the back unless the pool is full, in which case QueueFull; a balanced pool never refuses |
| Pool.ObjectPool.ScopedGet | najapy/common/pool.py:42-52 | a whole `async with get()` scope on a non-empty pool moves the front object to the back on every exit path, keeps the size, and propagates the body's error; the put-back never fails, from any pool state; on an empty pool no object is lent |
| Pool.ObjectPool.ScopedGetNowait | najapy/common/pool.py:54-64 | a whole scope moves the front object to the back on every exit path, keeps the size, and propagates the body's error; the put-back never fails, from any pool state |
| Cache.StackCache.constructor | najapy/cache/base.py:16-17 | a new cache is empty with the given bound and ttl |
| Cache.StackCache.Live | najapy/cache/base.py:16-17 | the TTLCache's visible content: a stored key is visible exactly while `now` is before its expiry, with its stored value |
| Cache.StackCache.LiveShrinks | najapy/cache/base.py:16-17 | without writes, the visible content only shrinks as time passes, and the values that remain are unchanged |
| Cache.StackCache.Get | najapy/cache/base.py:22-23 | the live value of the key (never None), or the default when it is missing or expired |
| Cache.StackCache.Has | najapy/cache/base.py:19-20 | `has` is true exactly when `get` finds a value |
| Cache.StackCache.Size | najapy/cache/base.py:48-49 | the number of live entries, never more than `maxsize` |
| Cache.StackCache.LiveWithin | najapy/cache/base.py:48-49 | the live entries are among the stored ones |
| Cache.StackCache.GetItem | najapy/cache/base.py:58-59 | `cache[key]` gives None whatever is stored, because the method returns nothing |
| Cache.StackCache.Expire | najapy/cache/base.py:29 | the purge before a write drops exactly the expired entries and keeps every live value |
| Cache.StackCache.Set | najapy/cache/base.py:25-29 | None changes nothing; otherwise a later `get` returns the value and `has` holds (for a positive ttl), other live values are unchanged, and none is evicted unless the cache was full |
| Cache.StackCache.Incr | najapy/cache/base.py:31-36 | stores and returns `get(key, 0) + val`; like `set`, other live values are unchanged and none is evicted unless the cache was full; a non-number raises TypeError and changes nothing |
| Cache.StackCache.Decr | najapy/cache/base.py:38-43 | stores and returns `get(key, 0) - val`; like `set`, other live values are unchanged and none is evicted unless the cache was full; a non-number raises TypeError and changes nothing |
| Cache.StackCache.Delete | najapy/cache/base.py:45-46 | the key is gone; KeyError exactly when it was missing or expired |
| Cache.StackCache.Clear | najapy/cache/base.py:51-52 | the cache is empty |
| Cache.SubsetCardinality | najapy/cache/base.py:48-49 | a subset is no larger than its superset |
| Cache.FuncSign | najapy/cache/base.py:85-95 | the signature's function is the called one; positional arguments are kept unless `includes` is set; a keyword argument is kept iff it is listed in a non-empty `includes`, or, otherwise, not listed in `excludes`, always with its value |
| Cache.SelectEqual | najapy/cache/base.py:90-94 | the selected keyword arguments coincide iff the two calls agree on every selected name |
| Cache.SameSign | najapy/cache/base.py:85-95 | two calls share a signature iff all arguments agree (no lists), the listed keyword arguments agree (includes), or the positional and unlisted keyword arguments agree (excludes) |
| Cache.SignSeparatesFunctions | najapy/cache/base.py:85-95 | calls of different functions never share a signature |
| Cache.FuncCache.constructor | najapy/cache/base.py:76-83 | a new memoiser has an empty cache and the given lists |
| Cache.FuncCache.Call | najapy/cache/base.py:100-113 | a live cached value is returned without calling the function; a miss calls it and stores only a non-None result |
| Cache.SecondCallHits | najapy/cache/base.py:100-113 | a repeated call within the ttl returns the first result without calling the function again, unless that result was None |
| Cache.ChangedSignMisses | najapy/cache/base.py:85-113 | a call whose signature differs from the earlier one misses and calls the function |
| Cache.ShareFuture.constructor | najapy/cache/base.py:125-127 | no signature is registered |
| Cache.ShareFuture.Call | najapy/cache/base.py:132-159 | a registered signature only appends a waiter; a new one runs the function once and registers its task alone |
| Cache.ShareFuture.ClearFuture | najapy/cache/base.py:163-173 | a no-op for an unknown signature; otherwise the entry is removed and every waiter receives a deep copy of the task's result |
| Cache.ShareFuture.TaskDone | najapy/cache/base.py:155-157 | a finished task resolves and its done-callback clears its signature |
| Cache.SingleFlight | najapy/cache/base.py:132-173 | `k` concurrent calls with one signature run the function once; the first caller gets the result, each later caller a copy |
| Redis.SafeKey | najapy/cache/redis.py:90-100 | `prefix:key` under a truthy prefix, else `key`, followed by `:sign` when arguments are given; the length is exactly the sum of those parts, so nothing else is added |
| Redis.SafeKeyInjective | najapy/cache/redis.py:90-100 | under one prefix, distinct keys give distinct safe keys |
| Redis.ClampMinConnections | najapy/cache/redis.py:139 | `min(min_connections, max_connections)`; None raises TypeError |
| Redis.MixinMinConnections | najapy/cache/redis.py:85 | a falsy `min_connections` becomes 0 and a truthy one is kept |
| Redis.PoolMixin.constructor | najapy/cache/redis.py:81-85 | no key prefix, and the normalised minimum |
| Redis.PoolMixin.SetKeyPrefix | najapy/cache/redis.py:106-108 | the prefix becomes the value |
| Redis.PoolMixin.GetSafeKey | najapy/cache/redis.py:90-95 | keys are namespaced by the current prefix, and with arguments they end in `:sign` |
| Redis.NewRedisPool | najapy/cache/redis.py:166-191 | the pool's minimum is the clamped one, or TypeError for None |
| Redis.FloorDiv | najapy/cache/redis.py:345 | the floor of the quotient, for either sign of divisor |
| Redis.BucketOf | najapy/cache/redis.py:345 | the bucket is `k` iff the timestamp lies in `[k*s, k*s+s)` |
| Redis.MulAtLeast | najapy/cache/redis.py:345 | a positive multiple of a positive slice is at least one slice |
| Redis.SameSlice | najapy/cache/redis.py:342-347 | two timestamps in one slice get the same bucket |
| Redis.LastColonIndex | najapy/cache/redis.py:347 | the last colon of a key, if any, is inside it |
| Redis.LastColonAfter | najapy/cache/redis.py:347 | the last colon of `p:d` with a colon-free `d` is the one after `p` |
| Redis.LastColon | najapy/cache/redis.py:347 | `p:d` with a colon-free `d` determines `p` and `d` |
| Redis.CounterKey | najapy/cache/redis.py:342-347 | the key `_get_key` builds for a bucket; its properties are stated by Redis.CounterKeyBucket (suffix and bucket readback) and Redis.CounterKeyInjective (distinct counters and buckets get distinct keys) |
| Redis.CounterKeyBucket | najapy/cache/redis.py:342-347 | a counter key ends in `counter_prefix:bucket`, and the text after its last colon parses back to the bucket |
| Redis.CounterKeyInjective | najapy/cache/redis.py:342-347 | counter keys under one pool prefix differ when the counter prefixes render differently or the buckets differ |
| Redis.RedisStore.constructor | najapy/cache/redis.py:352 | an empty store |
| Redis.RedisStore.IncrByExpire | najapy/cache/redis.py:353-356 | INCRBY then EXPIRE: the key holds the old value (0 when absent) plus `val`, with the new ttl, and that is the reply |
| Redis.PeriodCounter.constructor | najapy/cache/redis.py:336-340 | the counter keeps its client, prefix and slice |
| Redis.PeriodCounter.GetKey | najapy/cache/redis.py:342-347 | the pool-prefixed key `prefix:floor(t/slice)`; a zero slice raises ZeroDivisionError |
| Redis.PeriodCounter.Expiry | najapy/cache/redis.py:334-355 | `max(time_slice, 60)`, never below 60 |
| Redis.PeriodCounter.Execute | najapy/cache/redis.py:349-358 | adds `val` to the key, renews its expiry, and returns the new count |
| Redis.PeriodCounter.Incr | najapy/cache/redis.py:360-361 | adds `val` in the current bucket and returns the post-update count |
| Redis.PeriodCounter.Decr | najapy/cache/redis.py:363-364 | adds `-val` in the current bucket and returns the post-update count |
| Redis.CountWithinSlice | najapy/cache/redis.py:349-361 | successive `incr()` calls in one slice on a fresh store reply 1, 2, 3, ... |
| Redis.TwoCountersIndependent | najapy/cache/redis.py:342-361 | counters with different prefixes count independently in one slice |
| Text.Strip | najapy/frame/fastapi/form.py:36 | `strip()` drops exactly the leading and trailing whitespace; the result is empty iff the text is all whitespace |
| Text.StripIdempotent | najapy/frame/fastapi/form.py:78 | stripping twice is stripping once |
| Text.Split | najapy/frame/fastapi/form.py:36 | `split(sep)` gives one piece more than there are separators, and no piece holds a separator |
| Text.SplitJoin | najapy/frame/fastapi/form.py:36 | splitting separator-free pieces joined by the separator gives them back |
| Text.JoinSplit | najapy/frame/fastapi/form.py:36 | joining the pieces of a split gives the text back |
| Text.LastPiece | najapy/frame/fastapi/form.py:119 | `split(".")[-1]`: the text after the last separator |
| Text.LastPieceAfter | najapy/frame/fastapi/form.py:119 | the last piece of `a.b` with a separator-free `b` is `b` |
| Text.ParseIntToString | najapy/frame/fastapi/form.py:36 | `int(str(n)) == n` |
| Text.IntToStringInjective | najapy/cache/redis.py:347 | distinct integers render differently |
| Text.IntToStringChars | najapy/cache/redis.py:347 | an integer's rendering holds only digits and '-' |
| Form.ConvertAll | najapy/frame/fastapi/form.py:36-39 | converts every piece in order, or fails iff some piece does not convert |
| Form.Convert | najapy/frame/fastapi/form.py:36 | `ele_type(x)` on one piece: `str` keeps it, `int` succeeds iff the piece parses and gives the parsed integer, and an unset type fails |
| Form.ValidateValueType | najapy/frame/fastapi/form.py:21-26 | a falsy value passes unchanged; a truthy one raises ValueError iff it is not of the type, and otherwise gives None |
| Form.Pieces | najapy/frame/fastapi/form.py:36 | the stripped pieces, one more than the separators |
| Form.ValidateListValue | najapy/frame/fastapi/form.py:29-39 | [] for falsy input; otherwise the stripped pieces converted in order, with length separators + 1; ValueError iff a piece fails |
| Form.ConvertRenderedOne | najapy/frame/fastapi/form.py:36 | `int(str(n).strip()) == n` |
| Form.ConvertRendered | najapy/frame/fastapi/form.py:36 | rendered integers convert back to the integers |
| Form.SplitRendered | najapy/frame/fastapi/form.py:36 | comma-joined renderings split back into the renderings |
| Form.IntListRoundTrip | najapy/frame/fastapi/form.py:29-39 | a comma-joined list of integers validates back to those integers |
| Form.ValidateLengthValue | najapy/frame/fastapi/form.py:55-63 | [] for an empty list, ValueError iff the length differs, otherwise the list unchanged |
| Form.StrFormValidate | najapy/frame/fastapi/form.py:69-82 | the stripped string; ValueError for whitespace only, for a non-string, or for a falsy value when the field has a default |
| Form.StrFormIdempotent | najapy/frame/fastapi/form.py:69-82 | a validated value validates again to itself |
| Form.BaseListFormValidate | najapy/frame/fastapi/form.py:85-104 | the parsed list, which succeeds iff parsing succeeds, every element is in a non-empty `status_in`, and a set `_LENGTH` holds for a non-empty list |
| Form.InScope | najapy/frame/fastapi/form.py:97-98 | `_temp in scope` is false for an empty scope and true when the scope holds the value; for an integer it holds iff some scope element is a number equal to it |
| Form.IntListFormValidate | najapy/frame/fastapi/form.py:107-108 | a list of ints parsed from the text, or ValueError |
| Form.UploadExcelFileValidate | najapy/frame/fastapi/form.py:111-124 | passes an upload unchanged iff its filename's text after the last '.' is "xlsx" or "xls"; otherwise ValueError |
| Form.UploadByExtension | najapy/frame/fastapi/form.py:111-124 | `name.ext` passes iff `ext` is an Excel extension, whatever `name` is |
| Enums.EqIsEquivalence | najapy/enum/base_enum.py:15-21 | between members `==` is reflexive, symmetric and transitive, and matches comparing with the bare code |
| Enums.Eq | najapy/enum/base_enum.py:15-21 | a member equals a non-Enum value iff that value is a number (an int or a bool) equal to the code |
| Enums.Insert | najapy/enum/base_enum.py:68 | inserting keeps the list sorted and adds exactly the element |
| Enums.Sort | najapy/enum/base_enum.py:68 | `sorted()` gives a sorted permutation |
| Enums.SortedFirst | najapy/enum/base_enum.py:68 | equal multisets of sorted lists have the same first element |
| Enums.SortedTail | najapy/enum/base_enum.py:68 | a sorted list's tail is sorted |
| Enums.SortedUniqueStep | najapy/enum/base_enum.py:68 | removing equal first elements keeps the multisets equal |
| Enums.InsertBehind | najapy/enum/base_enum.py:68 | a head no larger than the sorted rest it precedes keeps the list sorted and adds exactly the element |
| Enums.SortedUnique | najapy/enum/base_enum.py:68 | a sorted permutation is unique |
| Enums.MemberPositions | najapy/enum/base_enum.py:62-67 | the positions of the Enum-valued attributes not named "__...": every such position, only such positions, strictly increasing |
| Enums.Members | najapy/enum/base_enum.py:62-67 | the members at those positions, in `dir()` order, one per position |
| Enums.Codes | najapy/enum/base_enum.py:68 | each member's code, in order |
| Enums.CodeMap | najapy/enum/base_enum.py:79-88 | every member's code is a key of the dict built by `to_dict`, `to_dict_enum` and `to_weight` |
| Enums.CodeMapEntries | najapy/enum/base_enum.py:79-88 | the dict's keys are the members' codes, each mapped from the last member with that code |
| Enums.BaseEnum.constructor | najapy/enum/base_enum.py:24-28 | all memo fields unset |
| Enums.BaseEnum.CollectMembers | najapy/enum/base_enum.py:60-67 | the loop over `dir(cls)` keeps exactly the members |
| Enums.BaseEnum.CollectByCode | najapy/enum/base_enum.py:79-87 | the loop fills the dict by code, a later member winning |
| Enums.BaseEnum.ToList | najapy/enum/base_enum.py:54-71 | the member codes sorted ascending, as a permutation; a memoised non-empty list is returned unchanged |
| Enums.BaseEnum.ToDict | najapy/enum/base_enum.py:73-89 | each code mapped to its member's message, memoised |
| Enums.BaseEnum.ToDictEnum | najapy/enum/base_enum.py:91-107 | each code mapped to its member, memoised |
| Enums.BaseEnum.ToWeight | najapy/enum/base_enum.py:109-125 | each code mapped to its member's value, memoised |
| Enums.BaseEnum.Validate | najapy/enum/base_enum.py:34-44 | `int(v)` when it is a member code; ValueError for a non-integer string or an unknown code; TypeError passes through |
| Enums.BaseEnum.Iter | najapy/enum/base_enum.py:127-128 | iteration follows `to_list()` order |
| Enums.IntOf | najapy/enum/base_enum.py:37 | `int(v)`: strings parsed (ValueError on failure), bools 0/1, ints kept, None and objects TypeError |
| Enums.ToListSpec | najapy/enum/base_enum.py:54-71 | any sorted permutation of the codes is the `to_list` result, so memoised and fresh results agree |
| Excel.Inverted | najapy/common/excel.py:56-59 | the inverse dict's keys are exactly the display names |
| Excel.InvertedInverse | najapy/common/excel.py:56-59 | with distinct display names, each name maps back to its field |
| Excel.Matched | najapy/common/excel.py:79-85 | a field is matched iff it is a string field whose stripped display name equals some stripped header cell |
| Excel.LastIndex | najapy/common/excel.py:82-85 | the last column carrying the stripped name, or none carries it |
| Excel.Relation | najapy/common/excel.py:63-87 | every matched column is inside the header |
| Excel.RelationEntries | najapy/common/excel.py:77-87 | a field is in the relation iff it is a string field whose stripped name labels a column, and it maps to the last such column |
| Excel.RecordMatches | najapy/common/excel.py:82-85 | the inner loop leaves the field at the last column carrying its stripped name, and adds nothing when no column does |
| Excel.MatchedCount | najapy/common/excel.py:117 | it equals the number of fields iff every field is matched |
| Excel.RelationSize | najapy/common/excel.py:117 | the relation has one entry per matched field |
| Excel.RelationComplete | najapy/common/excel.py:117 | `len(relation) == len(field_dict)` iff every field is a matched string |
| Excel.RowMap | najapy/common/excel.py:98-103 | one row: each relation field mapped to the text of its column |
| Excel.DataKey | najapy/common/excel.py:152 | a column's key is `str()` of its header's field when the header is a display name, and otherwise the column number |
| Excel.DataKeyColumn | najapy/common/excel.py:152 | the key of an unnamed column reads back as its column number |
| Excel.RowCells | najapy/common/excel.py:143-157 | every entry of the row dict carries the row number and a column inside the sheet |
| Excel.RowCellsSound | najapy/common/excel.py:143-157 | every entry holds the cell text of its column, and that column's key is the entry's key |
| Excel.RowCellsEntry | najapy/common/excel.py:143-157 | every column's key is in the row dict, and it holds that column's own cell when no later column has the same key |
| Excel.ExcelReader.constructor | najapy/common/excel.py:13-32 | a reader over the sheet with no field dict |
| Excel.ExcelReader.SetFieldDict | najapy/common/excel.py:41-46 | the field dict becomes the value |
| Excel.ExcelReader.FieldNameDict | najapy/common/excel.py:48-61 | None iff the field dict is missing or empty; otherwise its keys are the display names, each mapped back to its field when the names are distinct |
| Excel.ExcelReader.KnownNames | najapy/common/excel.py:152 | the display-name dict `get` consults: `field_name_dict` when it exists, else nothing |
| Excel.ExcelReader.FieldsColRelation | najapy/common/excel.py:63-87 | the nested loops build the relation; a missing field dict raises AttributeError |
| Excel.ExcelReader.Rows | najapy/common/excel.py:89-107 | one dict per row from `start` on, each field mapped to the cell of its column |
| Excel.ExcelReader.GetValuesByFields | najapy/common/excel.py:89-107 | the loop yields exactly those rows |
| Excel.ExcelReader.GetExcelData | najapy/common/excel.py:109-133 | None iff some field is unmatched or not a string; otherwise the rows from `start`; AttributeError without a field dict |
| Excel.ExcelReader.ReadRow | najapy/common/excel.py:143-157 | the inner loop builds row `i`'s dict from all its columns; AttributeError iff there is a column and no field dict |
| Excel.ExcelReader.GetAllDatas | najapy/common/excel.py:135-161 | one dict per data row, each column's cell under its header's field or its column number; AttributeError iff there is a cell to key and no field dict |

## Left out

- Asynchrony is left out. Tasks, futures and callbacks are explicit steps, and the event loop's interleavings are not modelled.
- `IntervalTask` scheduling is left out. A timer tick is the explicit `Buffer.QueueBuffer.Tick`.
- `DadaQueue.extent` is left out because `QueueBuffer` never calls it.
- `Utils.create_task` failing inside `DadaQueue._create_task` is left out.
- Pool.ObjectPool.Open: requires a positive `maxsize`. With `maxsize <= 0` the asyncio queue is unbounded, `full()` is always false, and the loop at `najapy/common/pool.py:20-23` never terminates. That is the source's behaviour, so no terminating model exists for it.
- The pool's factory and destructor never fail, so errors raised by `_create_obj`/`_delete_obj` are not modelled.
- Fairness among waiters in `get()` is left out. A `get` on an empty pool is modelled as getting nothing instead of waiting.
- Cache.StackCache.constructor: requires `maxsize > 0`, a cache that can hold an entry.
- Cache.StackCache.Set: when the cache is full and the key is new, it evicts an arbitrary entry. The cachetools LRU choice is not modelled.
- Cache.StackCache.Size: follows cachetools, whose TTLCache expires entries before `len()`, so the size counts only live entries. The cachetools code itself is not part of this model.
- Cache.StackCache.Incr: does not model float values, which `get(key, 0) + val` would also accept.
- Cache.StackCache.Decr: does not model float values, which `get(key, 0) - val` would also accept.
- `Utils.params_sign` is a constructor, so it is injective with order-free keyword arguments. Its md5/pickle rendering and any collision are left out.
- `deepcopy` is an input function.
- Cache.ShareFuture.TaskDone: only a task that finishes with a result is modelled. A failed task leaves its waiters unresolved, because `_clear_future` calls `.result()`, which raises.
- Redis I/O is out of scope: connections, pipelines over the network, and the time-based expiry of stored keys.
- Redis.FloorDiv: computes on exact integers. Python divides in floating point first, which differs only for huge timestamps.
- `Utils.timestamp` is a parameter.
- Redis.SafeKey: the `params_sign` text is an input function.
- Text.Strip: uses ASCII whitespace. Unicode whitespace is left out, and so are the Unicode digits that `int()` accepts.
- Text.Split: splits on a single character. A multi-character `sep` is left out.
- Form.ValidateListValue: element types are `str`, `int` or unset. Any other class passed as `ele_type` is left out.
- `_BaseForm.validate_json_value` is left out because JSON decoding is library code.
- The `DateFormat` validators are left out: they call `Utils.time2stamp` and `strptime`.
- Form.UploadExcelFileValidate: only the filename check is modelled, not the starlette upload object.
- Enums.Member: codes are integers. Other code types, and the `dir()` order of inherited attributes, are left out.
- Enums.BaseEnum.ToList: the memo field is per class. A subclass sharing its parent's memo is not modelled.
- `BaseEnum.__modify_schema__` and `__repr__` are left out; they only format text.
- Excel.ExcelReader.constructor: the sheet is a rectangular table of texts with at least a header row. The xlrd workbook opening is not modelled.
- The float-to-int conversion of header cells is left out, and so are numeric or date cells and their `str()`.
- Excel.ExcelReader.GetExcelData: the rectangular sheet never raises inside the `try`. Logging is left out.
- Excel.ExcelReader.SetFieldDict: the dict has distinct keys and text values. A non-text display name, whose `.strip()` would raise, is not modelled.
- `ExcelWT` is left out, along with the rest of `najapy/common/excel.py`.
