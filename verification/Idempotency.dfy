/** services/common/idempotency.py: run an operation at most once per key within a time to live. */
module Idempotency {
  import opened Prelude

  type Time = int

  // ---- Keys ----

  const KEY_PREFIX := "celery:idempotent"

  function BuildKey(task: string, id: string): string { task + ":" + id }

  function CacheKey(key: string): string { KEY_PREFIX + ":" + key }

  lemma CacheKeyIsInjective(a: string, b: string)
    requires CacheKey(a) == CacheKey(b)
    ensures a == b
  {
    assert CacheKey(a)[|KEY_PREFIX| + 1..] == a;
    assert CacheKey(b)[|KEY_PREFIX| + 1..] == b;
  }

  /** The first pair's task name continues the second's over a colon, and the ids make up for it. */
  predicate Overlap(task1: string, id1: string, task2: string, id2: string) {
    && |task2| < |task1|
    && task1[..|task2|] == task2
    && task1[|task2|] == ':'
    && id2 == task1[|task2| + 1..] + ":" + id1
  }

  /** Two pairs share a key exactly when they are equal or one task name swallows a part of the other's id. */
  lemma SharedKeys(task1: string, id1: string, task2: string, id2: string)
    ensures BuildKey(task1, id1) == BuildKey(task2, id2) <==>
      (task1 == task2 && id1 == id2) || Overlap(task1, id1, task2, id2) || Overlap(task2, id2, task1, id1)
  {
    if |task1| == |task2| {
      SameLengthKeys(task1, id1, task2, id2);
    } else if |task2| < |task1| {
      LongerTaskKey(task1, id1, task2, id2);
    } else {
      LongerTaskKey(task2, id2, task1, id1);
    }
  }

  lemma SameLengthKeys(task1: string, id1: string, task2: string, id2: string)
    requires |task1| == |task2|
    ensures BuildKey(task1, id1) == BuildKey(task2, id2) <==> task1 == task2 && id1 == id2
  {
    var n := |task1|;
    var key1, key2 := BuildKey(task1, id1), BuildKey(task2, id2);
    assert key1[..n] == task1 && key2[..n] == task2;
    assert key1[n + 1..] == id1 && key2[n + 1..] == id2;
  }

  lemma LongerTaskKey(task1: string, id1: string, task2: string, id2: string)
    requires |task2| < |task1|
    ensures BuildKey(task1, id1) == BuildKey(task2, id2) <==> Overlap(task1, id1, task2, id2)
  {
    var n := |task2|;
    var key1, key2 := BuildKey(task1, id1), BuildKey(task2, id2);
    assert key1[..n] == task1[..n] && key2[..n] == task2;
    assert key1[n] == task1[n] && key2[n] == ':';
    assert key1[n + 1..] == task1[n + 1..] + ":" + id1 && key2[n + 1..] == id2;
    if Overlap(task1, id1, task2, id2) {
      assert key1 == key1[..n] + [key1[n]] + key1[n + 1..];
      assert key2 == key2[..n] + [key2[n]] + key2[n + 1..];
    }
  }

  /** So task names without a colon keep all (task, id) pairs apart, down to the cache's own keys. */
  lemma KeysNeverCollide(task1: string, id1: string, task2: string, id2: string)
    requires ':' !in task1 && ':' !in task2
    requires CacheKey(BuildKey(task1, id1)) == CacheKey(BuildKey(task2, id2))
    ensures task1 == task2 && id1 == id2
  {
    CacheKeyIsInjective(BuildKey(task1, id1), BuildKey(task2, id2));
    SharedKeys(task1, id1, task2, id2);
  }

  // ---- Calls ----

  /** A cached value; `None` is Python's None, which a cache cannot tell from a missing entry. */
  datatype Entry<V> = Entry(value: Option<V>, expires: Time)

  type Cache<V> = map<string, Entry<V>>

  /** What the operation would do if it were called now. */
  datatype Outcome<V> = Raises | Returns(value: Option<V>)

  datatype Call<V> = Call(
    key: string,
    start: Time,
    duration: nat,
    ttl: Time,
    outcome: Outcome<V>)

  /** `called` says whether the operation ran; `result` is what the caller got. */
  datatype Response<V> = Response(called: bool, result: Outcome<V>)

  function Lookup<V>(cache: Cache<V>, key: string, now: Time): Option<V> {
    if key in cache && now < cache[key].expires then cache[key].value else None
  }

  function Respond<V>(cache: Cache<V>, c: Call<V>): (Cache<V>, Response<V>) {
    var key := CacheKey(c.key);
    var cached := Lookup(cache, key, c.start);
    if cached.Some? then (cache, Response(false, Returns(cached)))
    else if c.outcome.Raises? then (cache, Response(true, Raises))
    else (cache[key := Entry(c.outcome.value, c.start + c.duration + c.ttl)], Response(true, c.outcome))
  }

  class IdempotencyService<V(==)> {
    var cache: Cache<V>
    var now: Time

    constructor (now: Time)
      ensures cache == map[] && this.now == now
    {
      cache := map[];
      this.now := now;
    }

    /** `run`: the clock moves on while the operation works, and an exception passes through. */
    method Run(key: string, outcome: Outcome<V>, duration: nat, ttl: Time) returns (response: Response<V>)
      modifies this
      ensures (cache, response) == Respond(old(cache), Call(key, old(now), duration, ttl, outcome))
      ensures now == old(now) + if response.called then duration else 0
      ensures response.result.Raises? ==> cache == old(cache)
    {
      var fullKey := CacheKey(key);
      if fullKey in cache && now < cache[fullKey].expires && cache[fullKey].value.Some? {
        return Response(false, Returns(cache[fullKey].value));
      }
      now := now + duration;
      if outcome.Raises? {
        return Response(true, Raises);
      }
      cache := cache[fullKey := Entry(outcome.value, now + ttl)];
      return Response(true, outcome);
    }
  }

  // ---- Runs ----

  function CacheAfter<V>(calls: seq<Call<V>>): Cache<V> {
    if calls == [] then map[]
    else Respond(CacheAfter(calls[..|calls| - 1]), calls[|calls| - 1]).0
  }

  function ResponseAt<V>(calls: seq<Call<V>>, i: int): Response<V>
    requires 0 <= i < |calls|
  {
    Respond(CacheAfter(calls[..i]), calls[i]).1
  }

  /** Calls follow one another: each starts when the one before is over, or later. */
  predicate Sequential<V>(calls: seq<Call<V>>) {
    forall i, j :: 0 <= i < j < |calls| ==> EndOf(calls, i) <= calls[j].start
  }

  function EndOf<V>(calls: seq<Call<V>>, i: int): Time
    requires 0 <= i < |calls|
  {
    calls[i].start + if ResponseAt(calls, i).called then calls[i].duration else 0
  }

  /** Call i ran its operation, and the result was cached. */
  predicate Caches<V>(calls: seq<Call<V>>, i: int) {
    0 <= i < |calls| && ResponseAt(calls, i).called && calls[i].outcome.Returns? && calls[i].outcome.value.Some?
  }

  function ExpiryOf<V>(c: Call<V>): Time { c.start + c.duration + c.ttl }

  /** From a cached result on, until its time is up, the entry stands and no call of the key runs. */
  lemma {:induction false} ResultStands<V>(calls: seq<Call<V>>, i: int, n: int)
    requires Sequential(calls) && Caches(calls, i) && i < n <= |calls|
    requires forall k :: i < k < n && calls[k].key == calls[i].key ==> calls[k].start < ExpiryOf(calls[i])
    ensures CacheKey(calls[i].key) in CacheAfter(calls[..n])
    ensures CacheAfter(calls[..n])[CacheKey(calls[i].key)] == Entry(calls[i].outcome.value, ExpiryOf(calls[i]))
    decreases n
  {
    assert calls[..n][..n - 1] == calls[..n - 1];
    if i == n - 1 {
    } else {
      ResultStands(calls, i, n - 1);
      if CacheKey(calls[n - 1].key) == CacheKey(calls[i].key) {
        CacheKeyIsInjective(calls[n - 1].key, calls[i].key);
      }
    }
  }

  /** Within the time to live of a cached result, a call of its key runs nothing and returns that result. */
  lemma CallsInBetweenAreAnswered<V>(calls: seq<Call<V>>, i: int, j: int)
    requires Sequential(calls) && Caches(calls, i) && i < j < |calls| && calls[j].key == calls[i].key
    requires calls[j].start < ExpiryOf(calls[i])
    ensures ResponseAt(calls, j) == Response(false, Returns(calls[i].outcome.value))
  {
    forall k | i < k < j && calls[k].key == calls[i].key
      ensures calls[k].start < ExpiryOf(calls[i])
    {
      assert calls[k].start <= EndOf(calls, k) <= calls[j].start;
    }
    ResultStands(calls, i, j);
  }

  /** At most once: whatever raises, retries or returns in between, the operation of a key does not start again
      before `ttl` seconds have passed since its result was cached. */
  lemma AtMostOncePerTtl<V>(calls: seq<Call<V>>, i: int, j: int)
    requires Sequential(calls) && Caches(calls, i) && i < j < |calls| && calls[j].key == calls[i].key
    requires ResponseAt(calls, j).called
    ensures calls[j].start >= calls[i].start + calls[i].duration + calls[i].ttl
  {
    if calls[j].start < ExpiryOf(calls[i]) {
      CallsInBetweenAreAnswered(calls, i, j);
    }
  }

  /** A call that runs the operation gets the operation's own result; a call that does not gets what an earlier call of
      the key got from running it. */
  lemma CallsGetResults<V>(calls: seq<Call<V>>, j: int)
    requires Sequential(calls) && 0 <= j < |calls|
    ensures ResponseAt(calls, j).called ==> ResponseAt(calls, j).result == calls[j].outcome
    ensures !ResponseAt(calls, j).called ==>
      exists i :: 0 <= i < j && calls[i].key == calls[j].key && Caches(calls, i)
                  && ResponseAt(calls, j).result == ResponseAt(calls, i).result
  {
    if !ResponseAt(calls, j).called {
      var i := EntryIsAResult(calls, j, calls[j].key);
      assert ResponseAt(calls, j).result == Returns(calls[i].outcome.value);
    }
  }

  /** One call, spelled out. */
  lemma CallExactly<V>(cache: Cache<V>, c: Call<V>)
    ensures var key, (after, response) := "celery:idempotent:" + c.key, Respond(cache, c);
      if key in cache && c.start < cache[key].expires && cache[key].value.Some?
      then after == cache && !response.called && response.result == Returns(cache[key].value)
      else
        && response.called && response.result == c.outcome
        && after == if c.outcome.Raises? then cache
                    else cache[key := Entry(c.outcome.value, c.start + c.duration + c.ttl)]
  {
    assert "celery:idempotent" + ":" == "celery:idempotent:";
    assert CacheKey(c.key) == "celery:idempotent:" + c.key;
  }

  /** Where a live entry comes from. */
  lemma {:induction false} EntryIsAResult<V>(calls: seq<Call<V>>, n: int, key: string) returns (i: int)
    requires 0 <= n <= |calls|
    requires CacheKey(key) in CacheAfter(calls[..n]) && CacheAfter(calls[..n])[CacheKey(key)].value.Some?
    ensures 0 <= i < n && Caches(calls, i) && calls[i].key == key
    ensures CacheAfter(calls[..n])[CacheKey(key)] == Entry(calls[i].outcome.value, ExpiryOf(calls[i]))
    decreases n
  {
    assert n > 0;
    assert calls[..n][..n - 1] == calls[..n - 1];
    if CacheKey(calls[n - 1].key) == CacheKey(key) && ResponseAt(calls, n - 1).called && calls[n - 1].outcome.Returns? {
      CacheKeyIsInjective(calls[n - 1].key, key);
      i := n - 1;
    } else {
      i := EntryIsAResult(calls, n - 1, key);
    }
  }

  /** Exactly when an operation is skipped: an earlier call of the key ran, cached a result, and that result is still
      alive. Failures and None results count for nothing. */
  lemma SkippedExactlyWhenAlive<V>(calls: seq<Call<V>>, j: int)
    requires Sequential(calls) && 0 <= j < |calls|
    ensures !ResponseAt(calls, j).called <==>
      exists i :: 0 <= i < j && Caches(calls, i) && calls[i].key == calls[j].key && calls[j].start < ExpiryOf(calls[i])
  {
    if !ResponseAt(calls, j).called {
      var i := EntryIsAResult(calls, j, calls[j].key);
    }
    if i :| 0 <= i < j && Caches(calls, i) && calls[i].key == calls[j].key && calls[j].start < ExpiryOf(calls[i]) {
      CallsInBetweenAreAnswered(calls, i, j);
    }
  }

  /** A log without its i-th call. */
  function Dropped<V>(calls: seq<Call<V>>, i: int): seq<Call<V>>
    requires 0 <= i < |calls|
  {
    calls[..i] + calls[i + 1..]
  }

  lemma {:induction false} CacheWithoutFailure<V>(calls: seq<Call<V>>, i: int, n: int)
    requires 0 <= i < n <= |calls| && ResponseAt(calls, i).result.Raises?
    ensures CacheAfter(Dropped(calls, i)[..n - 1]) == CacheAfter(calls[..n])
    decreases n
  {
    assert calls[..n][..n - 1] == calls[..n - 1];
    if n == i + 1 {
      assert Dropped(calls, i)[..i] == calls[..i];
    } else {
      CacheWithoutFailure(calls, i, n - 1);
      assert Dropped(calls, i)[..n - 1][..n - 2] == Dropped(calls, i)[..n - 2];
    }
  }

  /** The position that call j has in the log without call i. */
  function Moved(i: int, j: int): int { if j < i then j else j - 1 }

  /** Call j gets the same response whether or not call i was made. */
  ghost predicate Unaffected<V>(calls: seq<Call<V>>, i: int, j: int)
    requires 0 <= i < |calls| && 0 <= j < |calls| && j != i
  {
    && Dropped(calls, i)[Moved(i, j)] == calls[j]
    && ResponseAt(Dropped(calls, i), Moved(i, j)) == ResponseAt(calls, j)
  }

  lemma ResponseWithoutFailure<V>(calls: seq<Call<V>>, i: int, j: int)
    requires 0 <= i < |calls| && ResponseAt(calls, i).result.Raises? && 0 <= j < |calls| && j != i
    ensures Unaffected(calls, i, j)
  {
    if j < i {
      assert Dropped(calls, i)[..j] == calls[..j];
    } else {
      CacheWithoutFailure(calls, i, j);
    }
  }

  lemma CacheAfterAllWithoutFailure<V>(calls: seq<Call<V>>, i: int)
    requires 0 <= i < |calls| && ResponseAt(calls, i).result.Raises?
    ensures CacheAfter(Dropped(calls, i)) == CacheAfter(calls)
  {
    CacheWithoutFailure(calls, i, |calls|);
    assert Dropped(calls, i)[..|calls| - 1] == Dropped(calls, i) && calls[..|calls|] == calls;
  }

  lemma OrderWithoutFailure<V>(calls: seq<Call<V>>, i: int)
    requires 0 <= i < |calls| && ResponseAt(calls, i).result.Raises? && Sequential(calls)
    ensures Sequential(Dropped(calls, i))
  {
    var fewer := Dropped(calls, i);
    forall a, b | 0 <= a < b < |fewer|
      ensures EndOf(fewer, a) <= fewer[b].start
    {
      var c, d := if a < i then a else a + 1, if b < i then b else b + 1;
      assert EndOf(fewer, a) == EndOf(calls, c) by {
        ResponseWithoutFailure(calls, i, c);
        assert Moved(i, c) == a;
      }
      assert fewer[b] == calls[d];
    }
  }

  /** A failure changes nothing for anybody: leave the failed call out, and every other call gets the same response,
      the calls still follow one another, and the cache ends up the same. */
  lemma FailureLeavesNoTrace<V>(calls: seq<Call<V>>, i: int)
    requires 0 <= i < |calls| && ResponseAt(calls, i).result.Raises?
    ensures forall j :: 0 <= j < |calls| && j != i ==> Unaffected(calls, i, j)
    ensures Sequential(calls) ==> Sequential(Dropped(calls, i))
    ensures CacheAfter(Dropped(calls, i)) == CacheAfter(calls)
  {
    forall j | 0 <= j < |calls| && j != i
      ensures Unaffected(calls, i, j)
    {
      ResponseWithoutFailure(calls, i, j);
    }
    if Sequential(calls) {
      OrderWithoutFailure(calls, i);
    }
    CacheAfterAllWithoutFailure(calls, i);
  }
}
