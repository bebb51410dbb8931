/** The in-memory token bucket: a bucket a key, and a sweep when there are
    too many keys. Times are seconds; tokens are real numbers. */
module RateLimit {
  import opened Decimals

  const MAX_KEYS: nat := 10_000

  datatype Bucket = Bucket(tokens: real, refilled: real)

  type Buckets = map<string, Bucket>

  function MinReal(x: real, y: real): real {
    if x < y then x else y
  }

  /** What a full minute's tokens make of so many seconds. */
  function Earned(seconds: real, capacity: nat): real {
    seconds * (capacity as real / 60.0)
  }

  function Elapsed(since: real, now: real): real {
    if now < since then 0.0 else now - since
  }

  function Refilled(b: Bucket, now: real, capacity: nat): real {
    MinReal(b.tokens + Earned(Elapsed(b.refilled, now), capacity), capacity as real)
  }

  /** Where a request for `key` sweeps, almost full buckets go. */
  function Swept(buckets: Buckets, key: string, capacity: nat): Buckets {
    if |buckets| >= MAX_KEYS && key !in buckets then
      map k | k in buckets && buckets[k].tokens < capacity as real - 1.0 :: buckets[k]
    else buckets
  }

  function Next(buckets: Buckets, key: string, now: real, capacity: nat): (Buckets, bool) {
    var kept := Swept(buckets, key, capacity);
    var tokens := if key in kept then Refilled(kept[key], now, capacity) else capacity as real;
    if tokens >= 1.0 then (kept[key := Bucket(tokens - 1.0, now)], true)
    else (kept[key := Bucket(tokens, now)], false)
  }

  class RateLimiter {
    const perMinute: nat
    var buckets: Buckets

    constructor (perMinute: nat)
      ensures this.perMinute == perMinute && buckets == map[]
    {
      this.perMinute := perMinute;
      buckets := map[];
    }

    method AllowAt(key: string, now: real) returns (allowed: bool)
      modifies this
      ensures (buckets, allowed) == Next(old(buckets), key, now, perMinute)
    {
      var capacity := perMinute as real;
      var perSecond := capacity / 60.0;
      if |buckets| >= MAX_KEYS && key !in buckets {
        buckets := map k | k in buckets && buckets[k].tokens < capacity - 1.0 :: buckets[k];
      }
      if key !in buckets {
        buckets := buckets[key := Bucket(capacity, now)];
      }
      var bucket := buckets[key];
      var elapsed := if now < bucket.refilled then 0.0 else now - bucket.refilled;
      assert elapsed * perSecond == Earned(elapsed, perMinute);
      assert elapsed == 0.0 ==> elapsed * perSecond == 0.0;
      bucket := Bucket(MinReal(bucket.tokens + elapsed * perSecond, capacity), now);
      allowed := bucket.tokens >= 1.0;
      if allowed {
        bucket := bucket.(tokens := bucket.tokens - 1.0);
      }
      buckets := buckets[key := bucket];
      assert buckets == Swept(old(buckets), key, perMinute)[key := bucket];
    }
  }

  // ---- runs ----

  datatype Request = Request(key: string, now: real)

  /** Times do not go back, from `since` on. */
  predicate InOrder(since: real, run: seq<Request>)
    decreases |run|
  {
    run == [] || (since <= run[0].now && InOrder(run[0].now, run[1..]))
  }

  function EndTime(since: real, run: seq<Request>): real
    decreases |run|
  {
    if run == [] then since else EndTime(run[0].now, run[1..])
  }

  function After(buckets: Buckets, run: seq<Request>, capacity: nat): Buckets
    decreases |run|
  {
    if run == [] then buckets
    else After(Next(buckets, run[0].key, run[0].now, capacity).0, run[1..], capacity)
  }

  /** How many requests for `key` the run allows. */
  function Allowed(buckets: Buckets, run: seq<Request>, key: string, capacity: nat): nat
    decreases |run|
  {
    if run == [] then 0
    else
      var (next, ok) := Next(buckets, run[0].key, run[0].now, capacity);
      (if run[0].key == key && ok then 1 else 0) + Allowed(next, run[1..], key, capacity)
  }

  /** Whether a request drops `key`'s bucket before it is full again. */
  predicate DropsEarly(buckets: Buckets, r: Request, key: string, capacity: nat) {
    key in buckets && key !in Swept(buckets, r.key, capacity) &&
    buckets[key].tokens + (r.now - buckets[key].refilled) * capacity as real / 60.0 < capacity as real
  }

  /** How many times the run's sweeps drop `key` before it is full again. */
  function Drops(buckets: Buckets, run: seq<Request>, key: string, capacity: nat): nat
    decreases |run|
  {
    if run == [] then 0
    else
      (if DropsEarly(buckets, run[0], key, capacity) then 1 else 0) +
      Drops(Next(buckets, run[0].key, run[0].now, capacity).0, run[1..], key, capacity)
  }

  /** Every bucket holds between none and all its tokens, as of no later
      than `now`. */
  predicate Sound(buckets: Buckets, now: real, capacity: nat) {
    forall k | k in buckets :: 0.0 <= buckets[k].tokens <= capacity as real && buckets[k].refilled <= now
  }

  /** What `key` has to spend at `now`. */
  function Available(buckets: Buckets, key: string, now: real, capacity: nat): real {
    if key in buckets then Refilled(buckets[key], now, capacity) else capacity as real
  }

  /** A sixtieth of the capacity a second. */
  lemma EarnedIs(seconds: real, capacity: nat)
    ensures Earned(seconds, capacity) == seconds * capacity as real / 60.0
  {
  }

  lemma EarnedIsLinear(x: real, y: real, capacity: nat)
    ensures Earned(x + y, capacity) == Earned(x, capacity) + Earned(y, capacity)
    ensures x >= 0.0 ==> Earned(x, capacity) >= 0.0
    ensures Earned(0.0, capacity) == 0.0
  {
  }

  lemma StepIsSound(buckets: Buckets, key: string, since: real, now: real, capacity: nat)
    requires Sound(buckets, since, capacity) && since <= now
    ensures Sound(Next(buckets, key, now, capacity).0, now, capacity)
  {
    if key in buckets {
      EarnedIsLinear(Elapsed(buckets[key].refilled, now), 0.0, capacity);
    }
  }

  /** Waiting earns at most the rate, and loses nothing. */
  lemma WaitingEarns(b: Bucket, since: real, now: real, capacity: nat)
    requires b.refilled <= since <= now
    ensures Refilled(b, since, capacity) <= Refilled(b, now, capacity)
      <= Refilled(b, since, capacity) + Earned(now - since, capacity)
  {
    EarnedIsLinear(now - since, since - b.refilled, capacity);
    assert now - b.refilled == (now - since) + (since - b.refilled);
  }

  /** One request: what `key` can spend falls by what was allowed, and grows
      by at most the wait and one token an early drop. */
  lemma StepSpends(buckets: Buckets, r: Request, key: string, since: real, capacity: nat)
    requires Sound(buckets, since, capacity) && since <= r.now
    ensures var (next, ok) := Next(buckets, r.key, r.now, capacity);
      Available(next, key, r.now, capacity) + (if r.key == key && ok then 1.0 else 0.0)
      <= Available(buckets, key, since, capacity) + Earned(r.now - since, capacity)
         + (if DropsEarly(buckets, r, key, capacity) then 1.0 else 0.0)
  {
    hide Earned;
    EarnedIsLinear(r.now - since, 0.0, capacity);
    if key in buckets {
      var b := buckets[key];
      EarnedIs(r.now - b.refilled, capacity);
      WaitingEarns(b, since, r.now, capacity);
      EarnedIsLinear(since - b.refilled, 0.0, capacity);
    }
  }

  lemma {:induction false} RunSpends(buckets: Buckets, run: seq<Request>, key: string, since: real, capacity: nat)
    requires Sound(buckets, since, capacity) && InOrder(since, run)
    ensures since <= EndTime(since, run) && Sound(After(buckets, run, capacity), EndTime(since, run), capacity)
    ensures Available(After(buckets, run, capacity), key, EndTime(since, run), capacity)
            + Allowed(buckets, run, key, capacity) as real
            <= Available(buckets, key, since, capacity) + Earned(EndTime(since, run) - since, capacity)
               + Drops(buckets, run, key, capacity) as real
    decreases |run|
  {
    hide Next;
    hide Available;
    hide DropsEarly;
    EarnedIsLinear(0.0, 0.0, capacity);
    if run != [] {
      var r, end := run[0], EndTime(since, run);
      StepIsSound(buckets, r.key, since, r.now, capacity);
      StepSpends(buckets, r, key, since, capacity);
      RunSpends(Next(buckets, r.key, r.now, capacity).0, run[1..], key, r.now, capacity);
      EarnedIsLinear(r.now - since, end - r.now, capacity);
      assert end - since == (r.now - since) + (end - r.now);
    }
  }

  lemma AvailableInRange(buckets: Buckets, key: string, now: real, capacity: nat)
    requires Sound(buckets, now, capacity)
    ensures 0.0 <= Available(buckets, key, now, capacity) <= capacity as real
  {
    if key in buckets {
      EarnedIsLinear(now - buckets[key].refilled, 0.0, capacity);
    }
  }

  /** From a start and over any requests in order, each bucket stays
      between empty and full; and in the part of the run that starts at
      `since`, the requests allowed for a key are at most a bucketful, what
      the time refills, and one for each time the sweep dropped the key
      before it was full again. */
  lemma AllowedInWindow(before: seq<Request>, window: seq<Request>, key: string, start: real, since: real,
                        capacity: nat)
    requires InOrder(start, before) && EndTime(start, before) <= since && InOrder(since, window)
    ensures Sound(After(map[], before, capacity), since, capacity)
    ensures var buckets := After(map[], before, capacity);
      Allowed(buckets, window, key, capacity) as real
      <= capacity as real + (EndTime(since, window) - since) * capacity as real / 60.0
         + Drops(buckets, window, key, capacity) as real
  {
    var buckets := After(map[], before, capacity);
    RunSpends(map[], before, key, start, capacity);
    RunSpends(buckets, window, key, since, capacity);
    AvailableInRange(buckets, key, since, capacity);
    AvailableInRange(After(buckets, window, capacity), key, EndTime(since, window), capacity);
    EarnedIs(EndTime(since, window) - since, capacity);
  }

  /** Requests for other keys leave a key's bucket alone, or drop it. */
  lemma {:induction false} OthersOnlyDrop(buckets: Buckets, run: seq<Request>, key: string, capacity: nat)
    requires forall r | r in run :: r.key != key
    ensures var later := After(buckets, run, capacity);
      key in later ==> key in buckets && later[key] == buckets[key]
    decreases |run|
  {
    if run != [] {
      assert run[0] in run;
      OthersOnlyDrop(Next(buckets, run[0].key, run[0].now, capacity).0, run[1..], key, capacity);
    }
  }

  /** A key left alone for a sixtieth of its capacity's minute may go next,
      whatever the others do meanwhile. */
  lemma IdleKeyIsAllowed(buckets: Buckets, key: string, last: real, others: seq<Request>, now: real, capacity: nat)
    requires capacity >= 1 && Sound(buckets, last, capacity)
    requires forall r | r in others :: r.key != key
    requires now - last >= 60.0 / capacity as real
    ensures var left := Next(buckets, key, last, capacity).0;
      Next(After(left, others, capacity), key, now, capacity).1
  {
    var left := Next(buckets, key, last, capacity).0;
    StepIsSound(buckets, key, last, last, capacity);
    OthersOnlyDrop(left, others, key, capacity);
    ShareEarnsOne(now - last, capacity);
  }

  /** A key that is not dropped meanwhile may go again exactly when what it
      had left and a sixtieth of its capacity for each second since make a
      whole token. */
  lemma WaitingKeyIff(buckets: Buckets, key: string, last: real, others: seq<Request>, now: real, capacity: nat)
    requires capacity >= 1 && Sound(buckets, last, capacity) && last <= now
    requires forall r | r in others :: r.key != key
    requires key in After(Next(buckets, key, last, capacity).0, others, capacity)
    ensures var left := Next(buckets, key, last, capacity).0;
      && key in left
      && (Next(After(left, others, capacity), key, now, capacity).1
          <==> left[key].tokens + (now - last) * capacity as real / 60.0 >= 1.0)
  {
    hide Next;
    hide After;
    var left := Next(buckets, key, last, capacity).0;
    AskedIsDated(buckets, key, last, capacity);
    OthersOnlyDrop(left, others, key, capacity);
    KeptKeyIff(After(left, others, capacity), key, now, capacity);
  }

  lemma AskedIsDated(buckets: Buckets, key: string, now: real, capacity: nat)
    ensures var left := Next(buckets, key, now, capacity).0; key in left && left[key].refilled == now
  {
  }

  lemma KeptKeyIff(buckets: Buckets, key: string, now: real, capacity: nat)
    requires capacity >= 1 && key in buckets && buckets[key].refilled <= now
    ensures Next(buckets, key, now, capacity).1
      <==> buckets[key].tokens + (now - buckets[key].refilled) * capacity as real / 60.0 >= 1.0
  {
    EarnedIs(now - buckets[key].refilled, capacity);
    hide Earned;
  }

  /** So a key with no token left waits 60/capacity seconds, and no less. */
  lemma SpentKeyIff(buckets: Buckets, key: string, last: real, others: seq<Request>, now: real, capacity: nat)
    requires capacity >= 1 && Sound(buckets, last, capacity) && last <= now
    requires forall r | r in others :: r.key != key
    requires key in After(Next(buckets, key, last, capacity).0, others, capacity)
    requires key in Next(buckets, key, last, capacity).0 && Next(buckets, key, last, capacity).0[key].tokens == 0.0
    ensures Next(After(Next(buckets, key, last, capacity).0, others, capacity), key, now, capacity).1
      <==> now - last >= 60.0 / capacity as real
  {
    hide Next;
    hide After;
    WaitingKeyIff(buckets, key, last, others, now, capacity);
    ShareIsOne(now - last, capacity);
  }

  lemma ShareIsOne(wait: real, capacity: nat)
    requires capacity >= 1
    ensures wait * capacity as real / 60.0 >= 1.0 <==> wait >= 60.0 / capacity as real
  {
    var share := 60.0 / capacity as real;
    assert share * capacity as real == 60.0;
    assert (wait - share) * capacity as real == wait * capacity as real - 60.0;
  }

  lemma ShareEarnsOne(wait: real, capacity: nat)
    requires capacity >= 1 && wait >= 60.0 / capacity as real
    ensures Earned(wait, capacity) >= 1.0
  {
    var share := 60.0 / capacity as real;
    assert share * capacity as real == 60.0;
    assert Earned(share, capacity) == 1.0;
    EarnedIsLinear(wait - share, share, capacity);
    assert wait == (wait - share) + share;
  }

  /** A clock that went back earns nothing and costs nothing. */
  lemma EarlierEarnsNothing(buckets: Buckets, key: string, now: real, capacity: nat)
    requires key in buckets && now < buckets[key].refilled && buckets[key].tokens <= capacity as real
    ensures var b, (next, ok) := buckets[key], Next(buckets, key, now, capacity);
      && (ok <==> b.tokens >= 1.0)
      && next[key] == Bucket(if ok then b.tokens - 1.0 else b.tokens, now)
  {
    EarnedIs(0.0, capacity);
    hide Earned;
  }

  // ---- what a sweep costs ----

  /** Only a newcomer to 10,000 keys or more has any dropped, and then just
      those that have spent no more than one token. */
  lemma SweptIff(buckets: Buckets, key: string, k: string, capacity: nat)
    requires k in buckets
    ensures k !in Swept(buckets, key, capacity)
      <==> |buckets| >= 10_000 && key !in buckets && capacity as real - buckets[k].tokens <= 1.0
  {
  }

  /** A sweep that drops a key leaves it what it had exactly when the key
      was full again by then. */
  lemma SweepIsFreeIff(buckets: Buckets, key: string, other: string, now: real, capacity: nat)
    requires Sound(buckets, now, capacity) && key in buckets && key !in Swept(buckets, other, capacity)
    ensures Available(Next(buckets, other, now, capacity).0, key, now, capacity)
            == Available(buckets, key, now, capacity)
      <==> buckets[key].tokens + (now - buckets[key].refilled) * capacity as real / 60.0 >= capacity as real
    ensures Available(Next(buckets, other, now, capacity).0, key, now, capacity) == capacity as real
  {
    assert other != key;
    EarnedIs(now - buckets[key].refilled, capacity);
  }

  /** One request a key. */
  function Each(keys: seq<string>, now: real): seq<Request> {
    seq(|keys|, i requires 0 <= i < |keys| => Request(keys[i], now))
  }

  predicate Distinct(keys: seq<string>) {
    forall i, j | 0 <= i < j < |keys| :: keys[i] != keys[j]
  }

  lemma {:induction false} RunsInTurn(buckets: Buckets, run: seq<Request>, rest: seq<Request>, key: string,
                                      capacity: nat)
    ensures After(buckets, run + rest, capacity) == After(After(buckets, run, capacity), rest, capacity)
    ensures Allowed(buckets, run + rest, key, capacity) ==
            Allowed(buckets, run, key, capacity) + Allowed(After(buckets, run, capacity), rest, key, capacity)
    decreases |run|
  {
    if run == [] {
      assert run + rest == rest;
    } else {
      assert (run + rest)[1..] == run[1..] + rest;
      RunsInTurn(Next(buckets, run[0].key, run[0].now, capacity).0, run[1..], rest, key, capacity);
    }
  }

  /** New keys, each asking once while there is room, have each spent one
      token, and nothing is dropped. */
  lemma {:induction false} EachSpendsOne(buckets: Buckets, keys: seq<string>, now: real, key: string, capacity: nat)
    requires capacity >= 1 && Distinct(keys) && (forall k | k in keys :: k !in buckets)
    requires |buckets| + |keys| <= MAX_KEYS
    ensures var after := After(buckets, Each(keys, now), capacity);
      && |after| == |buckets| + |keys|
      && (forall k | k in after :: k in keys || k in buckets)
      && (forall k | k in buckets :: k in after && after[k] == buckets[k])
      && (forall k | k in keys :: k in after && after[k] == Bucket(capacity as real - 1.0, now))
    ensures Allowed(buckets, Each(keys, now), key, capacity) == if key in keys then 1 else 0
    decreases |keys|
  {
    if keys != [] {
      var first, rest := keys[0], keys[1..];
      var next := buckets[first := Bucket(capacity as real - 1.0, now)];
      assert Each(keys, now)[1..] == Each(rest, now);
      assert Next(buckets, first, now, capacity) == (next, true);
      assert forall k :: k in keys <==> k == first || k in rest;
      EachSpendsOne(next, rest, now, key, capacity);
    }
  }

  /** What is left can all be spent at once. */
  lemma {:induction false} SpendsAll(buckets: Buckets, key: string, now: real, n: nat, capacity: nat)
    requires n <= capacity && (key in buckets || |buckets| < MAX_KEYS)
    requires Available(buckets, key, now, capacity) == n as real
    ensures Allowed(buckets, seq(n, _ => Request(key, now)), key, capacity) == n
    decreases n
  {
    if n > 0 {
      var run := seq(n, _ => Request(key, now));
      var next := buckets[key := Bucket((n - 1) as real, now)];
      assert run[1..] == seq(n - 1, _ => Request(key, now));
      assert Next(buckets, key, now, capacity) == (next, true);
      EarnedIsLinear(0.0, 0.0, capacity);
      SpendsAll(next, key, now, n - 1, capacity);
    }
  }

  lemma InOrderAtOnce(run: seq<Request>, now: real)
    requires forall r | r in run :: r.now == now
    ensures InOrder(now, run) && EndTime(now, run) == now
    decreases |run|
  {
    if run != [] {
      assert run[0] in run;
      InOrderAtOnce(run[1..], now);
    }
  }

  /** As many keys as the table holds ask once, a newcomer's request sweeps
      them all, and one of them asks for a bucketful. */
  function Crowd(keys: seq<string>, other: string, key: string, now: real, capacity: nat): seq<Request> {
    Each(keys, now) + ([Request(other, now)] + seq(capacity, _ => Request(key, now)))
  }

  lemma NewcomerSweepsAll(full: Buckets, other: string, now: real, capacity: nat)
    requires capacity >= 1 && |full| >= MAX_KEYS && other !in full
    requires forall k | k in full :: full[k] == Bucket(capacity as real - 1.0, now)
    ensures Next(full, other, now, capacity) == (map[other := Bucket(capacity as real - 1.0, now)], true)
  {
    assert Swept(full, other, capacity) == map[];
  }

  /** After the sweep the key has a bucketful again. */
  lemma SpendsABucketful(full: Buckets, other: string, key: string, now: real, capacity: nat)
    requires capacity >= 1 && |full| >= MAX_KEYS && other !in full && key != other
    requires forall k | k in full :: full[k] == Bucket(capacity as real - 1.0, now)
    ensures Allowed(full, [Request(other, now)] + seq(capacity, _ => Request(key, now)), key, capacity) == capacity
  {
    var swept := map[other := Bucket(capacity as real - 1.0, now)];
    var last := seq(capacity, _ => Request(key, now));
    NewcomerSweepsAll(full, other, now, capacity);
    SpendsAll(swept, key, now, capacity, capacity);
    hide Next;
    assert ([Request(other, now)] + last)[1..] == last;
  }

  lemma CrowdIsAllowedMore(keys: seq<string>, other: string, key: string, now: real, capacity: nat)
    requires capacity >= 1 && Distinct(keys) && |keys| == MAX_KEYS && key in keys && other !in keys
    ensures var run := Crowd(keys, other, key, now, capacity);
      InOrder(now, run) && EndTime(now, run) == now && Allowed(map[], run, key, capacity) == capacity + 1
  {
    hide Next;
    hide Allowed;
    hide Distinct;
    var last := [Request(other, now)] + seq(capacity, _ => Request(key, now));
    var full := After(map[], Each(keys, now), capacity);
    EachSpendsOne(map[], keys, now, key, capacity);
    hide After;
    SpendsABucketful(full, other, key, now, capacity);
    RunsInTurn(map[], Each(keys, now), last, key, capacity);
    InOrderAtOnce(Crowd(keys, other, key, now, capacity), now);
  }

  lemma ManyKeys() returns (keys: seq<string>, other: string)
    ensures Distinct(keys) && |keys| == MAX_KEYS && other !in keys
  {
    keys := seq(MAX_KEYS, i requires 0 <= i < MAX_KEYS => Decimal(i));
    other := Decimal(MAX_KEYS);
    forall i: nat, j: nat | i < j <= MAX_KEYS
      ensures Decimal(i) != Decimal(j)
    {
      if Decimal(i) == Decimal(j) {
        DecimalInjective(i, j);
      }
    }
  }

  /** Dropping is not free: from an empty table, and in no time at all, some
      key is allowed more than a bucketful and what the time refills. */
  lemma SweepGivesATokenBack(capacity: nat, now: real) returns (run: seq<Request>, key: string)
    requires capacity >= 1
    ensures InOrder(now, run)
    ensures Allowed(map[], run, key, capacity) as real
            > capacity as real + (EndTime(now, run) - now) * capacity as real / 60.0
  {
    var keys, other := ManyKeys();
    key := keys[0];
    run := Crowd(keys, other, key, now, capacity);
    CrowdIsAllowedMore(keys, other, key, now, capacity);
    EarnedIsLinear(0.0, 0.0, capacity);
  }
}
