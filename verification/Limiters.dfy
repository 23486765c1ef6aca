/**
 The limiters as the program has them: buckets changed in place behind a table, the
 two-pass request limiter, and the per-address login limiter.
 */
module Limiters {
  import opened Wrappers
  import opened RateLimiting
  import Spec = TokenBuckets

  class TokenBucket {
    var capacity: nat
    var tokens: real
    var lastRefill: Spec.Instant

    ghost function View(): Spec.Bucket
      reads this
    {
      Spec.Bucket(capacity, tokens, lastRefill)
    }

    constructor (capacity: nat, now: Spec.Instant)
      ensures View() == Spec.Full(capacity, now)
    {
      this.capacity, tokens, lastRefill := capacity, capacity as real, now;
    }

    method Refill(now: Spec.Instant)
      modifies this`tokens, this`lastRefill
      ensures View() == Spec.Refill(old(View()), now)
    {
      if capacity == 0 {
        return;
      }
      var elapsed := Spec.Elapsed(lastRefill, now);
      var rate := capacity as real / 60.0;
      tokens := Spec.Min(tokens + elapsed * rate, capacity as real);
      lastRefill := now;
    }

    // The source's guard against a rate of zero cannot fire once the capacity is positive.
    method DeficitRetryAfter(now: Spec.Instant, amount: nat) returns (r: Option<nat>)
      modifies this`tokens, this`lastRefill
      ensures View() == Spec.Refill(old(View()), now)
      ensures r == Spec.RetryAfter(View(), amount)
    {
      Refill(now);
      if capacity == 0 {
        return None;
      }
      var deficit := amount as real - tokens;
      if deficit <= 0.0 {
        return None;
      }
      var rate := capacity as real / 60.0;
      assert deficit / rate > 0.0;
      r := Some(Spec.Ceil(deficit / rate));
    }

    method Debit(amount: nat)
      modifies this`tokens
      ensures View() == Spec.Debit(old(View()), amount)
    {
      tokens := tokens - amount as real;
    }

    // Check, and debit if asked to and possible.
    method Consult(amount: nat, debit: bool, now: Spec.Instant) returns (r: Option<nat>)
      modifies this`tokens, this`lastRefill
      ensures var b := Spec.Refill(old(View()), now);
              r == Spec.RetryAfter(b, amount) && View() == Spec.Consulted(b, amount, debit)
    {
      r := DeficitRetryAfter(now, amount);
      if r.None? && debit {
        Debit(amount);
      }
    }

    // Adopt a changed limit.
    method Sync(limit: nat)
      modifies this`capacity, this`tokens
      ensures View() == Spec.Sync(old(View()), limit)
    {
      if capacity != limit {
        capacity := limit;
        tokens := Spec.Min(tokens, limit as real);
      }
    }
  }

  // A map from keys to buckets, each bucket owned by one key.
  class BucketTable<K(==)> {
    var entries: map<K, TokenBucket>

    ghost predicate Valid()
      reads this
    {
      forall k, l | k in entries && l in entries && k != l :: entries[k] != entries[l]
    }

    ghost function View(): Spec.Table<K>
      reads this, entries.Values
    {
      map k | k in entries :: entries[k].View()
    }

    constructor ()
      ensures Valid() && View() == map[] && entries == map[]
    {
      entries := map[];
    }

    // The bucket of a key, created full on first use.
    method Entry(key: K, capacity: nat, now: Spec.Instant) returns (b: TokenBucket)
      requires Valid()
      modifies this
      ensures Valid() && key in entries && entries[key] == b
      ensures key in old(entries) ==> entries == old(entries)
      ensures key !in old(entries) ==> fresh(b) && entries == old(entries)[key := b]
      ensures View() == Spec.Opened(old(View()), key, capacity, now)
    {
      if key !in entries {
        b := new TokenBucket(capacity, now);
        entries := entries[key := b];
      } else {
        b := entries[key];
      }
    }

    // Check the bucket of a key that is there.
    method ConsultEntry(key: K, amount: nat, debit: bool, now: Spec.Instant) returns (r: Option<nat>)
      requires Valid() && key in entries
      modifies entries[key]
      ensures var b := Spec.Refill(old(View())[key], now);
              r == Spec.RetryAfter(b, amount) && View() == old(View())[key := Spec.Consulted(b, amount, debit)]
    {
      r := entries[key].Consult(amount, debit, now);
    }

    // Adapt the bucket of a key that is there.
    method SyncEntry(key: K, limit: nat)
      requires Valid() && key in entries
      modifies entries[key]
      ensures View() == old(View())[key := Spec.Sync(old(View())[key], limit)]
    {
      entries[key].Sync(limit);
    }

    method CheckBucket(key: K, limit: Option<int>, amount: nat, debit: bool, now: Spec.Instant) returns (r: Option<nat>)
      requires Valid()
      modifies this, entries.Values
      ensures Valid() && fresh(entries.Values - old(entries.Values))
      ensures (View(), r) == Spec.CheckBucket(old(View()), Spec.Check(key, limit, amount, debit), now)
    {
      if !Spec.Limited(limit) {
        return None;
      }
      Spec.CheckOpensEntry(View(), Spec.Check(key, limit, amount, debit), now);
      var _ := Entry(key, limit.value, now);
      ghost var table := View();
      SyncEntry(key, limit.value);
      r := ConsultEntry(key, amount, debit, now);
      SyncedThenConsulted(table, key, limit.value, amount, debit, now);
    }
  }

  lemma SyncedThenConsulted<K>(t: Spec.Table<K>, key: K, limit: nat, amount: nat, debit: bool, now: Spec.Instant)
    requires key in t
    ensures var b := Spec.Sync(t[key], limit);
            var b' := Spec.Consulted(Spec.Refill(b, now), amount, debit);
            t[key := b][key := b'] == t[key := b'] && t[key := b][key] == b
  {
  }

  class RateLimiter {
    const rpmBuckets: BucketTable<Key>
    const tpmBuckets: BucketTable<Key>

    ghost predicate Valid()
      reads this, rpmBuckets, tpmBuckets
    {
      && rpmBuckets != tpmBuckets && rpmBuckets.Valid() && tpmBuckets.Valid()
      && rpmBuckets.entries.Values !! tpmBuckets.entries.Values
    }

    ghost function Footprint(): set<object>
      reads rpmBuckets, tpmBuckets
    {
      {rpmBuckets, tpmBuckets} + rpmBuckets.entries.Values + tpmBuckets.entries.Values
    }

    ghost function View(): Limiter
      reads rpmBuckets, tpmBuckets, rpmBuckets.entries.Values, tpmBuckets.entries.Values
    {
      Limiter(rpmBuckets.View(), tpmBuckets.View())
    }

    constructor ()
      ensures Valid() && fresh(Footprint()) && View() == Limiter(map[], map[])
    {
      rpmBuckets := new BucketTable<Key>();
      tpmBuckets := new BucketTable<Key>();
    }

    method CheckEntryInPlace(e: RateLimiting.Entry, debit: bool, now: Spec.Instant) returns (r: Option<nat>)
      requires Valid()
      modifies Footprint()
      ensures Valid() && fresh(Footprint() - old(Footprint()))
      ensures (View(), r) == CheckEntry(old(View()), e, debit, now)
    {
      if e.metric.Rpm? {
        r := rpmBuckets.CheckBucket(e.key, e.limit, e.amount, debit, now);
      } else {
        r := tpmBuckets.CheckBucket(e.key, e.limit, e.amount, debit, now);
      }
    }

    method CheckAndConsume(c: Call, now: Spec.Instant) returns (d: Decision)
      requires Valid()
      modifies Footprint()
      ensures Valid() && fresh(Footprint() - old(Footprint()))
      ensures (View(), d) == RateLimiting.CheckAndConsume(old(View()), c, now)
    {
      var caches := Entries(c);
      var slowest := VerifyInPlace(caches, now);
      if slowest.Some? {
        return RateLimited(slowest.value);
      }
      CommitInPlace(caches, now);
      d := Admitted;
    }

    // Pass 1.
    method VerifyInPlace(caches: seq<RateLimiting.Entry>, now: Spec.Instant) returns (slowest: Option<nat>)
      requires Valid()
      modifies Footprint()
      ensures Valid() && fresh(Footprint() - old(Footprint()))
      ensures (View(), slowest) == Verify(old(View()), caches, now, None)
    {
      slowest := None;
      var i := 0;
      while i < |caches|
        invariant i <= |caches| && Valid() && fresh(Footprint() - old(Footprint()))
        invariant Verify(View(), caches[i..], now, slowest) == Verify(old(View()), caches, now, None)
      {
        var r := CheckEntryInPlace(caches[i], false, now);
        assert caches[i..][1..] == caches[i + 1..];
        slowest := Slower(slowest, r);
        i := i + 1;
      }
    }

    // Pass 2.
    method CommitInPlace(caches: seq<RateLimiting.Entry>, now: Spec.Instant)
      requires Valid()
      modifies Footprint()
      ensures Valid() && fresh(Footprint() - old(Footprint()))
      ensures View() == Commit(old(View()), caches, now)
    {
      var i := 0;
      while i < |caches|
        invariant i <= |caches| && Valid() && fresh(Footprint() - old(Footprint()))
        invariant Commit(View(), caches[i..], now) == Commit(old(View()), caches, now)
      {
        var _ := CheckEntryInPlace(caches[i], true, now);
        assert caches[i..][1..] == caches[i + 1..];
        i := i + 1;
      }
    }
  }

  class LoginLimiter {
    const capacity: nat
    const buckets: BucketTable<string>

    ghost predicate Valid()
      reads this, buckets, buckets.entries.Values
    {
      buckets.Valid() && forall ip | ip in buckets.View() :: buckets.View()[ip].capacity == capacity
    }

    constructor (capacity: nat)
      ensures Valid() && this.capacity == capacity && fresh(buckets) && buckets.View() == map[]
    {
      this.capacity := capacity;
      buckets := new BucketTable<string>();
    }

    // With a positive capacity every attempt is a check of one token against that
    // capacity, so the bounds on bucket runs apply; capacity zero disables the limiter.
    method AttemptAllowed(ip: string, debitOnFail: bool, now: Spec.Instant) returns (r: Option<nat>)
      requires Valid()
      modifies buckets, buckets.entries.Values
      ensures Valid() && fresh(buckets.entries.Values - old(buckets.entries.Values))
      ensures capacity > 0 ==>
        (buckets.View(), r) == Spec.CheckBucket(old(buckets.View()), Attempt(ip, capacity, debitOnFail), now)
      ensures capacity == 0 ==> r == None && buckets.View() == old(buckets.View())
    {
      if capacity == 0 {
        return None;
      }
      Spec.CheckOpensEntry(buckets.View(), Attempt(ip, capacity, debitOnFail), now);
      var _ := buckets.Entry(ip, capacity, now);
      r := buckets.ConsultEntry(ip, 1, debitOnFail, now);
    }
  }

  function Attempt(ip: string, capacity: nat, debit: bool): Spec.Check<string> {
    Spec.Check(ip, Some(capacity), 1, debit)
  }

  datatype Login = Login(ip: string, debit: bool, now: Spec.Instant)

  function Steps(logins: seq<Login>, capacity: nat): seq<Spec.Step<string>> {
    seq(|logins|, i requires 0 <= i < |logins| =>
      Spec.Step(Attempt(logins[i].ip, capacity, logins[i].debit), logins[i].now))
  }

  // Attempts from one address that were let through and debited.
  function Debited(t: Spec.Table<string>, logins: seq<Login>, capacity: nat, ip: string): nat
    decreases |logins|
  {
    if logins == [] then 0
    else
      var (t', r) := Spec.CheckBucket(t, Attempt(logins[0].ip, capacity, logins[0].debit), logins[0].now);
      (if logins[0].ip == ip && logins[0].debit && r.None? then 1 else 0) + Debited(t', logins[1..], capacity, ip)
  }

  lemma {:induction false} DebitedIsTaken(t: Spec.Table<string>, logins: seq<Login>, capacity: nat, ip: string)
    requires capacity > 0
    ensures Debited(t, logins, capacity, ip) == Spec.TotalTaken(t, Steps(logins, capacity), ip)
    decreases |logins|
  {
    if logins != [] {
      var t' := Spec.CheckBucket(t, Attempt(logins[0].ip, capacity, logins[0].debit), logins[0].now).0;
      assert Steps(logins, capacity)[1..] == Steps(logins[1..], capacity);
      DebitedIsTaken(t', logins[1..], capacity, ip);
    }
  }

  /** In any run of login attempts, one address never gets more than a full bucket plus
      the refill of the window through in any window. */
  lemma {:induction false} LoginWindowBound(logins: seq<Login>, i: nat, j: nat, capacity: nat, ip: string)
    requires capacity > 0 && i < j <= |logins|
    requires forall k, l | 0 <= k < l < |logins| :: logins[k].now <= logins[l].now
    ensures Debited(Spec.Run(map[], Steps(logins[..i], capacity)), logins[i..j], capacity, ip) as real
            <= Spec.WindowCap(capacity, logins[j - 1].now - logins[i].now)
  {
    var steps := Steps(logins, capacity);
    assert steps[..i] == Steps(logins[..i], capacity);
    assert steps[i..j] == Steps(logins[i..j], capacity);
    DebitedIsTaken(Spec.Run(map[], steps[..i]), logins[i..j], capacity, ip);
    SortedIsOrdered(steps, logins[0].now);
    Spec.WindowBound(steps, i, j, ip, capacity);
  }

  lemma {:induction false} SortedIsOrdered(steps: seq<Spec.Step<string>>, from: Spec.Instant)
    requires forall k, l | 0 <= k < l < |steps| :: steps[k].now <= steps[l].now
    requires forall k | 0 <= k < |steps| :: from <= steps[k].now
    ensures Spec.Ordered(steps, from)
  {
    if steps != [] {
      SortedIsOrdered(steps[1..], steps[0].now);
    }
  }
}
