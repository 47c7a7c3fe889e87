/** `BackendQuery` in synchronous mode: built once, executed at most once, read many
    times. The count is memoised the first time any reader asks for it; fetched items
    are cached per slice. The backend's own `_execute_query`, `_has` and `_items` are
    calls into code outside this model, so what they return is passed in. */
module BackendQueries {
  import opened Wrappers

  /** `(slic.start, slic.step, slic.stop)`, or `None` for the whole query. */
  type SliceKey = Option<(Option<int>, Option<int>, Option<int>)>

  /** The state of a query: its timeout and expiry, the count memo and the slice
      cache. */
  datatype BackendQuery<T> = BackendQuery(
    timeout: int,
    expire: int,
    count: Option<int>,
    sliceCache: map<SliceKey, seq<T>>)

  /** `max(timeout, 10)`. */
  function Expire(timeout: int): (e: int)
    ensures e >= 10 && e >= timeout
    ensures e == 10 || e == timeout
  {
    if timeout > 10 then timeout else 10
  }

  /** `__init__`: nothing is executed and nothing is cached yet. */
  function Init<T>(timeout: int): (q: BackendQuery<T>)
    ensures !Executed(q) && q.sliceCache == map[]
    ensures q.timeout == timeout && q.expire >= 10 && q.expire >= timeout
  {
    BackendQuery(timeout, Expire(timeout), None, map[])
  }

  /** `executed`: the count memo is set. */
  predicate Executed<T>(q: BackendQuery<T>) {
    q.count.Some?
  }

  /** `execute_query`: while not executed, runs the backend query and memoises its
      count through `on_result(..., _got_count)`, which in synchronous mode applies
      the callback at once; afterwards returns the memo. `server` is what
      `_execute_query` would return. The flag says whether it ran. */
  function ExecuteQuery<T>(q: BackendQuery<T>, server: int): (r: (BackendQuery<T>, int, bool))
    ensures Executed(r.0) && r.0.count == Some(r.1)
    ensures r.2 <==> !Executed(q)
    ensures r.1 == if Executed(q) then q.count.value else server
    ensures r.0.sliceCache == q.sliceCache && r.0.timeout == q.timeout && r.0.expire == q.expire
  {
    if !Executed(q) then
      var c := server;
      (q.(count := Some(c)), c, true)
    else (q, q.count.value, false)
  }

  /** Once executed, the query is not run again whatever the server would say. */
  lemma ExecuteOnce<T>(q: BackendQuery<T>, server: int, server': int)
    ensures var (q1, n1, _) := ExecuteQuery(q, server);
            ExecuteQuery(q1, server') == (q1, n1, false)
  {
  }

  /** The readers of a query: `__len__`, `count` and `__contains__`, whose `_has`
      answer is `present`. */
  datatype Reader = Len | Count | Contains(present: bool)

  datatype Answer = CountAnswer(n: int) | HasAnswer(b: bool)

  /** One reader: every one of them goes through `execute_query` first. */
  function Read<T>(q: BackendQuery<T>, op: Reader, server: int): (r: (BackendQuery<T>, Answer, bool))
    ensures var (q', n, ran) := ExecuteQuery(q, server);
            r.0 == q' && r.2 == ran &&
            r.1 == (if op.Contains? then HasAnswer(op.present) else CountAnswer(n))
  {
    var (q', n, ran) := ExecuteQuery(q, server);
    match op
    case Len => (q', CountAnswer(n), ran)
    case Count => (q', CountAnswer(n), ran)
    case Contains(present) => (q', HasAnswer(present), ran)
  }

  /** A run of readers, `servers[i]` being what the backend would count at the time of
      the `i`-th reader. The backend runs at most once, on the first reader of a query
      not yet executed, and every count read is that first count. */
  function Run<T>(q: BackendQuery<T>, ops: seq<Reader>, servers: seq<int>)
    : (r: (BackendQuery<T>, seq<Answer>, nat))
    requires |servers| == |ops|
    ensures |r.1| == |ops|
    ensures r.2 <= 1 && (r.2 == 1 <==> !Executed(q) && ops != [])
    ensures ops != [] ==> Executed(r.0)
    ensures ops == [] ==> r.0 == q
    ensures ops != [] ==> r.0.count == Some(if Executed(q) then q.count.value else servers[0])
    ensures forall i :: 0 <= i < |ops| ==>
              r.1[i] == if ops[i].Contains? then HasAnswer(ops[i].present)
                        else CountAnswer(if Executed(q) then q.count.value else servers[0])
    ensures r.0.sliceCache == q.sliceCache
    decreases |ops|
  {
    if ops == [] then (q, [], 0)
    else
      var (q1, a, ran) := Read(q, ops[0], servers[0]);
      var (q2, rest, runs) := Run(q1, ops[1..], servers[1..]);
      (q2, [a] + rest, runs + if ran then 1 else 0)
  }

  /** `async()` in synchronous mode: the generator is run to completion and the call
      returns its last yielded value, or `None` when it yielded nothing. */
  function SyncAsync<T>(yielded: seq<T>): (r: Option<T>)
    ensures r.None? <==> yielded == []
    ensures r.Some? ==> r.value in yielded
  {
    if yielded == [] then None else Some(yielded[|yielded| - 1])
  }

  /** Whatever is yielded before the last value does not matter. */
  lemma SyncAsyncLast<T>(before: seq<T>, last: T)
    ensures SyncAsync(before + [last]) == Some(last)
  {
  }

  /** A later non-empty run of yields decides the result. */
  lemma SyncAsyncAppend<T>(a: seq<T>, b: seq<T>)
    requires b != []
    ensures SyncAsync(a + b) == SyncAsync(b)
  {
    assert (a + b)[|a + b| - 1] == b[|b| - 1];
  }

  /** `_get_items(slic, result)`: nothing for a falsy count (`None` or zero), and
      otherwise what `_items(slic)` fetches. */
  function GetItems<T>(result: Option<int>, fetched: seq<T>): (r: seq<T>)
    ensures result.None? || result == Some(0) ==> r == []
    ensures result.Some? && result.value != 0 ==> r == fetched
  {
    if result.Some? && result.value != 0 then fetched else []
  }

  /** Items are fetched against the memoised count: a query executed again asks for the
      same items whatever the server now says, and nothing comes back exactly when that
      count is zero or the fetch is empty. */
  lemma GetItemsAfterExecute<T>(q: BackendQuery<T>, server: int, server': int, fetched: seq<T>)
    ensures var (q1, n1, _) := ExecuteQuery(q, server);
            GetItems(Some(ExecuteQuery(q1, server').1), fetched) == GetItems(Some(n1), fetched) &&
            (GetItems(Some(n1), fetched) == [] <==> n1 == 0 || fetched == []) &&
            (n1 != 0 ==> GetItems(Some(n1), fetched) == fetched)
  {
  }

  /** What `_store_items` returns: `callback(seq)` when a callback is given, else
      `seq` itself. */
  datatype Stored<T, R> = Items(items: seq<T>) | Called(value: R)

  /** `_store_items(key, callback, items)`: caches the items, in order, under `key`. */
  function StoreItems<T, R>(q: BackendQuery<T>, key: SliceKey, callback: Option<seq<T> -> R>, items: seq<T>)
    : (r: (BackendQuery<T>, Stored<T, R>))
    ensures r.0.sliceCache == q.sliceCache[key := items]
    ensures r.0.count == q.count && r.0.timeout == q.timeout && r.0.expire == q.expire
    ensures callback.None? ==> r.1 == Items(items)
    ensures callback.Some? ==> r.1 == Called(callback.value(items))
  {
    var cache := q.sliceCache[key := items];
    (q.(sliceCache := cache), if callback.Some? then Called(callback.value(items)) else Items(items))
  }

  /** The cache answers with the stored items under their key, other keys keep what
      they held, and storing does not touch the count memo. */
  lemma StoreThenLookup<T, R>(q: BackendQuery<T>, key: SliceKey, other: SliceKey,
                              callback: Option<seq<T> -> R>, items: seq<T>)
    requires other != key
    ensures var q' := StoreItems(q, key, callback, items).0;
            key in q'.sliceCache && q'.sliceCache[key] == items &&
            (other in q'.sliceCache <==> other in q.sliceCache) &&
            (other in q.sliceCache ==> q'.sliceCache[other] == q.sliceCache[other]) &&
            (Executed(q') <==> Executed(q))
  {
  }
}
