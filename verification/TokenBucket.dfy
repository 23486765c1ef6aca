/**
 The continuously refilling token bucket, and the table of buckets that both the
 request rate limiter and the login limiter keep.

 Time is a real number of seconds on a monotonic clock, and token counts are reals.
 */
module TokenBuckets {
  import opened Wrappers
  import opened Sequences

  type Instant = real

  // ---------------------------------------------------------------- one bucket

  datatype Bucket = Bucket(capacity: nat, tokens: real, lastRefill: Instant)

  function Min(a: real, b: real): real {
    if a <= b then a else b
  }

  // Instant::duration_since saturates at zero.
  function Elapsed(from: Instant, to: Instant): real {
    if from <= to then to - from else 0.0
  }

  // Tokens per second: a bucket refills completely once a minute.
  function Rate(capacity: nat): real {
    capacity as real / 60.0
  }

  // Tokens that flow in over a duration.
  function Gain(capacity: nat, duration: real): real {
    duration * Rate(capacity)
  }

  function Full(capacity: nat, now: Instant): Bucket {
    Bucket(capacity, capacity as real, now)
  }

  function Refill(b: Bucket, now: Instant): Bucket {
    if b.capacity == 0 then b
    else
      var tokens := b.tokens + Gain(b.capacity, Elapsed(b.lastRefill, now));
      Bucket(b.capacity, Min(tokens, b.capacity as real), now)
  }

  // The least integer that is not below x.
  function Ceil(x: real): (n: int)
    ensures (n - 1) as real < x <= n as real
  {
    if x.Floor as real == x then x.Floor else x.Floor + 1
  }

  // What deficit_retry_after reports about an already refilled bucket.
  function RetryAfter(b: Bucket, amount: nat): (r: Option<nat>)
    ensures r.None? <==> b.capacity == 0 || amount as real <= b.tokens
    ensures r.Some? ==> r.value >= 1
  {
    if b.capacity == 0 || amount as real <= b.tokens then None
    else
      assert 0.0 < (amount as real - b.tokens) / Rate(b.capacity);
      Some(Ceil((amount as real - b.tokens) / Rate(b.capacity)))
  }

  function Debit(b: Bucket, amount: nat): Bucket {
    b.(tokens := b.tokens - amount as real)
  }

  // Adopting a changed limit clamps the tokens and keeps the refill time.
  function Sync(b: Bucket, limit: nat): Bucket {
    if b.capacity != limit then b.(capacity := limit, tokens := Min(b.tokens, limit as real)) else b
  }

  /** Refilling in two steps is refilling once: the law every later result rests on. */
  lemma {:induction false} RefillComposes(b: Bucket, mid: Instant, now: Instant)
    requires b.lastRefill <= mid <= now
    ensures Refill(Refill(b, mid), now) == Refill(b, now)
  {
    GainAdds(b.capacity, mid - b.lastRefill, now - mid);
    GainMonotone(b.capacity, 0.0, now - mid);
  }

  lemma {:induction false} GainAdds(capacity: nat, x: real, y: real)
    ensures Gain(capacity, x + y) == Gain(capacity, x) + Gain(capacity, y)
  {
    assert (x + y) * Rate(capacity) == x * Rate(capacity) + y * Rate(capacity);
  }

  lemma {:induction false} GainMonotone(capacity: nat, x: real, y: real)
    requires x <= y
    ensures Gain(capacity, 0.0) == 0.0
    ensures Gain(capacity, x) <= Gain(capacity, y)
    ensures capacity > 0 && x < y ==> Gain(capacity, x) < Gain(capacity, y)
  {
    GainAdds(capacity, x, y - x);
    ProductSign(y - x, Rate(capacity));
  }

  lemma ProductSign(a: real, b: real)
    requires a >= 0.0 && b >= 0.0
    ensures a * b >= 0.0
    ensures a > 0.0 && b > 0.0 ==> a * b > 0.0
  {
  }

  /** The reported wait is the least whole number of seconds in which what is missing flows in,
      even when the bucket could never hold it. */
  lemma {:induction false} RetryAfterIsLeast(b: Bucket, amount: nat, n: nat)
    requires RetryAfter(b, amount).Some?
    ensures Gain(b.capacity, n as real) >= amount as real - b.tokens <==> n >= RetryAfter(b, amount).value
  {
    var deficit := amount as real - b.tokens;
    var needed := deficit / Rate(b.capacity);
    assert Gain(b.capacity, needed) == deficit;
    if n as real < needed {
      GainMonotone(b.capacity, n as real, needed);
    } else {
      GainMonotone(b.capacity, needed, n as real);
    }
  }

  /** Adopting a limit adds no tokens and no time: the bucket keeps what fits. */
  lemma {:induction false} SyncKeepsWhatFits(b: Bucket, limit: nat)
    requires b.tokens <= b.capacity as real
    ensures var b' := Sync(b, limit);
            && b'.capacity == limit && b'.lastRefill == b.lastRefill
            && b'.tokens <= b.tokens && b'.tokens <= limit as real
            && (b'.tokens == b.tokens || b'.tokens == limit as real)
  {
  }

  /** A reported wait is enough, and one second less (or anything shorter) is not. */
  lemma {:induction false} RetryAfterIsTight(b: Bucket, amount: nat, wait: real)
    requires b.capacity > 0 && RetryAfter(b, amount).Some? && wait >= 0.0
    ensures var r := RetryAfter(b, amount).value;
            var later := Refill(b, b.lastRefill + wait);
            && (amount <= b.capacity && wait >= r as real ==> RetryAfter(later, amount).None?)
            && (wait <= (r - 1) as real ==> RetryAfter(later, amount).Some?)
  {
    var rate := Rate(b.capacity);
    var deficit := amount as real - b.tokens;
    var needed := deficit / rate;
    var r := RetryAfter(b, amount).value;
    assert Gain(b.capacity, needed) == deficit;
    if wait >= r as real {
      GainMonotone(b.capacity, needed, wait);
    } else if wait <= (r - 1) as real {
      GainMonotone(b.capacity, wait, needed);
      assert b.tokens + Gain(b.capacity, wait) < amount as real;
    }
  }

  // ---------------------------------------------------------- a table of buckets

  type Table<!K> = map<K, Bucket>

  predicate Limited(limit: Option<int>) {
    limit.Some? && limit.value > 0
  }

  // The bucket that a check of `key` with a positive limit decides on: created full
  // if missing, adapted to the limit, and refilled.
  function Effective<K>(t: Table<K>, key: K, limit: nat, now: Instant): Bucket {
    Refill(Sync(if key in t then t[key] else Full(limit, now), limit), now)
  }

  datatype Check<K> = Check(key: K, limit: Option<int>, amount: nat, debit: bool)

  // RateLimiter::check_bucket
  function CheckBucket<K>(t: Table<K>, c: Check<K>, now: Instant): (Table<K>, Option<nat>) {
    if !Limited(c.limit) then (t, None)
    else
      var b := Effective(t, c.key, c.limit.value, now);
      var r := RetryAfter(b, c.amount);
      (t[c.key := if r.None? && c.debit then Debit(b, c.amount) else b], r)
  }

  // The same check, in the order in which it happens: create the entry, then look at it.
  function Opened<K>(t: Table<K>, key: K, capacity: nat, now: Instant): Table<K> {
    if key in t then t else t[key := Full(capacity, now)]
  }

  function Consulted(b: Bucket, amount: nat, debit: bool): Bucket {
    if RetryAfter(b, amount).None? && debit then Debit(b, amount) else b
  }

  lemma {:induction false} CheckOpensEntry<K>(t: Table<K>, c: Check<K>, now: Instant)
    requires Limited(c.limit)
    ensures var entries := Opened(t, c.key, c.limit.value, now);
            var b := Refill(Sync(entries[c.key], c.limit.value), now);
            CheckBucket(t, c, now) == (entries[c.key := Consulted(b, c.amount, c.debit)], RetryAfter(b, c.amount))
  {
    var entries := Opened(t, c.key, c.limit.value, now);
    var b := Refill(Sync(entries[c.key], c.limit.value), now);
    assert entries[c.key := Consulted(b, c.amount, c.debit)] == t[c.key := Consulted(b, c.amount, c.debit)];
  }

  ghost predicate Clocked<K>(t: Table<K>, now: Instant) {
    forall k | k in t :: t[k].lastRefill <= now
  }

  // 0 <= tokens <= capacity in every bucket.
  ghost predicate Bounded<K>(t: Table<K>) {
    forall k | k in t :: 0.0 <= t[k].tokens <= t[k].capacity as real
  }

  /** Looking at a bucket now and refilling it later is looking at it later. */
  lemma {:induction false} EffectiveComposes<K>(t: Table<K>, key: K, limit: nat, now: Instant, later: Instant)
    requires limit > 0 && now <= later && (key in t ==> t[key].lastRefill <= now)
    ensures Refill(Effective(t, key, limit, now), later) == Effective(t, key, limit, later)
  {
    if key in t {
      RefillComposes(Sync(t[key], limit), now, later);
    } else {
      GainMonotone(limit, 0.0, later - now);
    }
  }

  /** Storing what was just looked at does not change what will be seen from then on. */
  lemma {:induction false} StoreEffective<K>(t: Table<K>, key: K, limit: nat, now: Instant, later: Instant)
    requires limit > 0 && now <= later && (key in t ==> t[key].lastRefill <= now)
    ensures Effective(t[key := Effective(t, key, limit, now)], key, limit, later) == Effective(t, key, limit, later)
  {
    EffectiveComposes(t, key, limit, now, later);
  }

  /** Each check keeps 0 <= tokens <= capacity, whatever limit it brings. */
  lemma {:induction false} CheckKeepsBounds<K>(t: Table<K>, c: Check<K>, now: Instant)
    requires Bounded(t) && Clocked(t, now)
    ensures Bounded(CheckBucket(t, c, now).0) && Clocked(CheckBucket(t, c, now).0, now)
  {
    if Limited(c.limit) {
      var limit := c.limit.value;
      var b := Sync(if c.key in t then t[c.key] else Full(limit, now), limit);
      GainMonotone(limit, 0.0, Elapsed(b.lastRefill, now));
    }
  }

  // -------------------------------------------------- runs of interleaved checks

  // One check by any caller at one instant; a run is any interleaving of such steps.
  datatype Step<K> = Step(check: Check<K>, now: Instant)

  ghost predicate Ordered<K>(steps: seq<Step<K>>, from: Instant) {
    steps == [] || (from <= steps[0].now && Ordered(steps[1..], steps[0].now))
  }

  function Run<K>(t: Table<K>, steps: seq<Step<K>>): Table<K>
    decreases |steps|
  {
    if steps == [] then t else Run(CheckBucket(t, steps[0].check, steps[0].now).0, steps[1..])
  }

  function End<K>(steps: seq<Step<K>>, from: Instant): Instant {
    if steps == [] then from else End(steps[1..], steps[0].now)
  }

  // Tokens taken from `key` by one step.
  function Taken<K(==)>(t: Table<K>, s: Step<K>, key: K): nat {
    if s.check.key == key && s.check.debit && Limited(s.check.limit) && CheckBucket(t, s.check, s.now).1.None?
    then s.check.amount else 0
  }

  function TotalTaken<K(==)>(t: Table<K>, steps: seq<Step<K>>, key: K): nat
    decreases |steps|
  {
    if steps == [] then 0
    else Taken(t, steps[0], key) + TotalTaken(CheckBucket(t, steps[0].check, steps[0].now).0, steps[1..], key)
  }

  ghost predicate FixedLimit<K>(steps: seq<Step<K>>, key: K, limit: nat) {
    forall i | 0 <= i < |steps| && steps[i].check.key == key :: steps[i].check.limit == Some(limit)
  }

  lemma {:induction false} RunKeepsBounds<K>(t: Table<K>, steps: seq<Step<K>>, from: Instant)
    requires Bounded(t) && Clocked(t, from) && Ordered(steps, from)
    ensures Bounded(Run(t, steps)) && Clocked(Run(t, steps), End(steps, from))
    decreases |steps|
  {
    if steps != [] {
      assert Clocked(t, steps[0].now);
      CheckKeepsBounds(t, steps[0].check, steps[0].now);
      RunKeepsBounds(CheckBucket(t, steps[0].check, steps[0].now).0, steps[1..], steps[0].now);
    }
  }

  lemma {:induction false} OrderedEnd<K>(steps: seq<Step<K>>, from: Instant)
    requires Ordered(steps, from)
    ensures from <= End(steps, from)
  {
    if steps != [] {
      OrderedEnd(steps[1..], steps[0].now);
    }
  }

  /** The potential argument: tokens taken plus tokens left never exceed the tokens
      available at the start plus what the elapsed time can refill. */
  lemma {:induction false} Potential<K>(t: Table<K>, steps: seq<Step<K>>, key: K, limit: nat, from: Instant)
    requires limit > 0 && Bounded(t) && Clocked(t, from) && Ordered(steps, from) && FixedLimit(steps, key, limit)
    ensures from <= End(steps, from)
    ensures TotalTaken(t, steps, key) as real + Effective(Run(t, steps), key, limit, End(steps, from)).tokens
            <= Effective(t, key, limit, from).tokens + Gain(limit, End(steps, from) - from)
    decreases |steps|
  {
    OrderedEnd(steps, from);
    if steps == [] {
      GainMonotone(limit, 0.0, 0.0);
    } else {
      var s := steps[0];
      var t' := CheckBucket(t, s.check, s.now).0;
      var end := End(steps, from);
      RefillAtMost(t, key, limit, from, s.now);
      assert Clocked(t, s.now);
      CheckKeepsBounds(t, s.check, s.now);
      StepPotential(t, s, key, limit);
      assert FixedLimit(steps[1..], key, limit);
      Potential(t', steps[1..], key, limit, s.now);
      assert Run(t, steps) == Run(t', steps[1..]) && end == End(steps[1..], s.now);
      assert TotalTaken(t, steps, key) == Taken(t, s, key) + TotalTaken(t', steps[1..], key);
      GainAdds(limit, s.now - from, end - s.now);
    }
  }

  lemma {:induction false} RefillAtMost<K>(t: Table<K>, key: K, limit: nat, from: Instant, now: Instant)
    requires limit > 0 && Clocked(t, from) && from <= now
    ensures Effective(t, key, limit, now).tokens <= Effective(t, key, limit, from).tokens + Gain(limit, now - from)
  {
    EffectiveComposes(t, key, limit, from, now);
  }

  lemma {:induction false} StepPotential<K>(t: Table<K>, s: Step<K>, key: K, limit: nat)
    requires limit > 0 && Clocked(t, s.now) && (s.check.key == key ==> s.check.limit == Some(limit))
    ensures var t' := CheckBucket(t, s.check, s.now).0;
            Taken(t, s, key) as real + Effective(t', key, limit, s.now).tokens == Effective(t, key, limit, s.now).tokens
  {
    if s.check.key == key {
      var b := Effective(t, key, limit, s.now);
      GainMonotone(limit, 0.0, 0.0);
    }
  }

  // The most that a window of the given length may take: a full bucket and a minute's
  // worth of tokens per minute.
  function WindowCap(limit: nat, seconds: real): real {
    limit as real + limit as real * seconds / 60.0
  }

  /** The window bound: in any run of interleaved checks from an empty table, with any
      limits before the window and the limit `limit` on `key` inside it, the tokens
      taken from `key` in the window never exceed WindowCap(limit, length of the window). */
  lemma {:induction false} WindowBound<K>(steps: seq<Step<K>>, i: nat, j: nat, key: K, limit: nat)
    requires limit > 0 && i < j <= |steps| && Ordered(steps, steps[0].now)
    requires FixedLimit(steps[i..j], key, limit)
    ensures TotalTaken(Run(map[], steps[..i]), steps[i..j], key) as real
            <= WindowCap(limit, steps[j - 1].now - steps[i].now)
  {
    var start := steps[0].now;
    OrderedSlice(steps, i, j, start);
    RunKeepsBounds(map[], steps[..i], start);
    var t: Table<K> := Run(map[], steps[..i]);
    var window := steps[i..j];
    assert Clocked(t, steps[i].now);
    TakenFromBounded(t, window, key, limit, steps[i].now);
  }

  lemma {:induction false} TakenFromBounded<K>(t: Table<K>, steps: seq<Step<K>>, key: K, limit: nat, from: Instant)
    requires limit > 0 && Bounded(t) && Clocked(t, from) && Ordered(steps, from) && FixedLimit(steps, key, limit)
    ensures TotalTaken(t, steps, key) as real <= WindowCap(limit, End(steps, from) - from)
  {
    Potential(t, steps, key, limit, from);
    RunKeepsBounds(t, steps, from);
    EffectiveBounds(Run(t, steps), key, limit, End(steps, from));
    EffectiveBounds(t, key, limit, from);
    WindowCapIsGain(limit, End(steps, from) - from);
  }

  lemma WindowCapIsGain(limit: nat, seconds: real)
    ensures WindowCap(limit, seconds) == limit as real + Gain(limit, seconds)
  {
  }

  lemma {:induction false} EffectiveBounds<K>(t: Table<K>, key: K, limit: nat, now: Instant)
    requires Bounded(t) && limit > 0
    ensures 0.0 <= Effective(t, key, limit, now).tokens <= limit as real
  {
    var b := Sync(if key in t then t[key] else Full(limit, now), limit);
    GainMonotone(limit, 0.0, Elapsed(b.lastRefill, now));
  }

  lemma {:induction false} OrderedSlice<K>(steps: seq<Step<K>>, i: nat, j: nat, from: Instant)
    requires i < j <= |steps| && Ordered(steps, from)
    ensures Ordered(steps[..i], from) && End(steps[..i], from) <= steps[i].now
    ensures Ordered(steps[i..j], steps[i].now) && End(steps[i..j], steps[i].now) == steps[j - 1].now
    decreases j
  {
    if i > 0 {
      OrderedSlice(steps[1..], i - 1, j - 1, steps[0].now);
      SliceOfTail(steps, i, j);
    } else {
      OrderedPrefix(steps, j, from);
      assert steps[..j] == steps[0..j];
    }
  }

  lemma {:induction false} OrderedPrefix<K>(steps: seq<Step<K>>, j: nat, from: Instant)
    requires 0 < j <= |steps| && Ordered(steps, from)
    ensures Ordered(steps[..j], steps[0].now) && End(steps[..j], steps[0].now) == steps[j - 1].now
    decreases j
  {
    assert steps[..j][0] == steps[0];
    if j > 1 {
      OrderedPrefix(steps[1..], j - 1, steps[0].now);
      SliceOfTail(steps, j, j);
      assert steps[..j][1..][0] == steps[1];
    }
  }
}
