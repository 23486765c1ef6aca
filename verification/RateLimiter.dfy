/**
 The request rate limiter: four buckets (requests and tokens per minute, for the API
 key and for its organization) are first all checked and then all debited.
 */
module RateLimiting {
  import opened Wrappers
  import opened TokenBuckets

  type Uuid = nat
  type Key = (Uuid, string)

  datatype Metric = Rpm | Tpm

  datatype Limiter = Limiter(rpm: Table<Key>, tpm: Table<Key>) {
    function Buckets(m: Metric): Table<Key> {
      if m.Rpm? then rpm else tpm
    }
    function With(m: Metric, t: Table<Key>): Limiter {
      if m.Rpm? then Limiter(t, tpm) else Limiter(rpm, t)
    }
    ghost predicate ClockedAt(now: Instant) {
      Clocked(rpm, now) && Clocked(tpm, now)
    }
  }

  datatype Call = Call(apiKey: Uuid, org: Uuid, model: string,
                       rpmKey: Option<int>, tpmKey: Option<int>, rpmOrg: Option<int>, tpmOrg: Option<int>,
                       tokens: nat)

  datatype Entry = Entry(metric: Metric, key: Key, limit: Option<int>, amount: nat)

  function Entries(c: Call): seq<Entry> {
    [Entry(Rpm, (c.apiKey, c.model), c.rpmKey, 1),
     Entry(Tpm, (c.apiKey, c.model), c.tpmKey, c.tokens),
     Entry(Rpm, (c.org, c.model), c.rpmOrg, 1),
     Entry(Tpm, (c.org, c.model), c.tpmOrg, c.tokens)]
  }

  function CheckEntry(s: Limiter, e: Entry, debit: bool, now: Instant): (Limiter, Option<nat>) {
    var (t, r) := CheckBucket(s.Buckets(e.metric), Check(e.key, e.limit, e.amount, debit), now);
    (s.With(e.metric, t), r)
  }

  function Slower(a: Option<nat>, b: Option<nat>): Option<nat> {
    if b.None? then a
    else if a.None? then b
    else Some(if a.value >= b.value then a.value else b.value)
  }

  // Pass 1: check every bucket without debiting and keep the slowest refill.
  function Verify(s: Limiter, es: seq<Entry>, now: Instant, slowest: Option<nat>): (Limiter, Option<nat>)
    decreases |es|
  {
    if es == [] then (s, slowest)
    else
      var (s', r) := CheckEntry(s, es[0], false, now);
      Verify(s', es[1..], now, Slower(slowest, r))
  }

  // Pass 2: debit every bucket; the outcome of each check is discarded.
  function Commit(s: Limiter, es: seq<Entry>, now: Instant): Limiter
    decreases |es|
  {
    if es == [] then s else Commit(CheckEntry(s, es[0], true, now).0, es[1..], now)
  }

  datatype Decision = Admitted | RateLimited(retryAfter: nat)

  function CheckAndConsume(s: Limiter, c: Call, now: Instant): (Limiter, Decision) {
    var (s', slowest) := Verify(s, Entries(c), now, None);
    if slowest.Some? then (s', RateLimited(slowest.value))
    else (Commit(s', Entries(c), now), Admitted)
  }

  // --------------------------------------------------------- what pass 1 preserves

  function Seen(s: Limiter, m: Metric, key: Key, limit: nat, now: Instant): Bucket {
    Effective(s.Buckets(m), key, limit, now)
  }

  // `limit` is the limit that the entries set for this bucket, if they set one at all.
  ghost predicate Agrees(es: seq<Entry>, m: Metric, key: Key, limit: Option<int>) {
    forall i | 0 <= i < |es| && es[i].metric == m && es[i].key == key && Limited(es[i].limit) :: es[i].limit == limit
  }

  ghost predicate Consistent(es: seq<Entry>) {
    forall i | 0 <= i < |es| && Limited(es[i].limit) :: Agrees(es, es[i].metric, es[i].key, es[i].limit)
  }

  // Distinct identities, or one identity without two different limits.
  ghost predicate ConsistentCall(c: Call) {
    c.apiKey != c.org || (OneLimit(c.rpmKey, c.rpmOrg) && OneLimit(c.tpmKey, c.tpmOrg))
  }

  ghost predicate OneLimit(a: Option<int>, b: Option<int>) {
    Limited(a) && Limited(b) ==> a == b
  }

  lemma EntriesConsistent(c: Call)
    requires ConsistentCall(c)
    ensures Consistent(Entries(c))
  {
  }

  lemma {:induction false} CheckEntryKeepsView(s: Limiter, e: Entry, now: Instant, m: Metric, key: Key, limit: nat,
                                               later: Instant)
    requires limit > 0 && now <= later && s.ClockedAt(now)
    requires e.metric == m && e.key == key && Limited(e.limit) ==> e.limit == Some(limit)
    ensures Seen(CheckEntry(s, e, false, now).0, m, key, limit, later) == Seen(s, m, key, limit, later)
    ensures CheckEntry(s, e, false, now).0.ClockedAt(now)
  {
    if e.metric == m && e.key == key {
      StoreEffective(s.Buckets(m), key, limit, now, later);
    }
  }

  /** Pass 1 is invisible: every bucket will be seen later exactly as without it. */
  lemma {:induction false} VerifyKeepsView(s: Limiter, es: seq<Entry>, now: Instant, acc: Option<nat>,
                                           m: Metric, key: Key, limit: nat, later: Instant)
    requires limit > 0 && now <= later && s.ClockedAt(now) && Agrees(es, m, key, Some(limit))
    ensures Seen(Verify(s, es, now, acc).0, m, key, limit, later) == Seen(s, m, key, limit, later)
    ensures Verify(s, es, now, acc).0.ClockedAt(now)
    decreases |es|
  {
    if es != [] {
      var (s', r) := CheckEntry(s, es[0], false, now);
      CheckEntryKeepsView(s, es[0], now, m, key, limit, later);
      VerifyKeepsView(s', es[1..], now, Slower(acc, r), m, key, limit, later);
    }
  }

  // -------------------------------------------------------------- what pass 1 decides

  // The wait that one entry demands, judged on the state before the call.
  function Wait(s: Limiter, e: Entry, now: Instant): Option<nat> {
    if Limited(e.limit) then RetryAfter(Seen(s, e.metric, e.key, e.limit.value, now), e.amount) else None
  }

  // `r` is the largest of the waits and `acc`, no wait being the smallest.
  ghost predicate IsSlowest(waits: seq<Option<nat>>, acc: Option<nat>, r: Option<nat>) {
    && (forall i | 0 <= i < |waits| :: Slower(r, waits[i]) == r)
    && Slower(r, acc) == r
    && (r == acc || r in waits)
  }

  function Waits(s: Limiter, es: seq<Entry>, now: Instant): (ws: seq<Option<nat>>)
    ensures |ws| == |es| && forall i | 0 <= i < |es| :: ws[i] == Wait(s, es[i], now)
  {
    seq(|es|, i requires 0 <= i < |es| => Wait(s, es[i], now))
  }

  /** Pass 1 reports the largest wait over all entries, each judged on the state before the call. */
  lemma {:induction false} VerifyReportsSlowest(s: Limiter, es: seq<Entry>, now: Instant, acc: Option<nat>)
    requires s.ClockedAt(now) && Consistent(es)
    ensures IsSlowest(Waits(s, es, now), acc, Verify(s, es, now, acc).1)
    decreases |es|
  {
    if es != [] {
      var (s', w) := CheckEntry(s, es[0], false, now);
      ConsistentTail(es);
      CheckEntryClock(s, es[0], false, now);
      VerifyReportsSlowest(s', es[1..], now, Slower(acc, w));
      SameWaits(s, es, now);
      SlowestCons(w, Waits(s', es[1..], now), acc, Verify(s', es[1..], now, Slower(acc, w)).1);
    }
  }

  lemma SlowestCons(w: Option<nat>, waits: seq<Option<nat>>, acc: Option<nat>, r: Option<nat>)
    requires IsSlowest(waits, Slower(acc, w), r)
    ensures IsSlowest([w] + waits, acc, r)
  {
  }

  lemma {:induction false} ConsistentTail(es: seq<Entry>)
    requires es != [] && Consistent(es)
    ensures Consistent(es[1..])
  {
    forall i | 0 <= i < |es| - 1 && Limited(es[1..][i].limit)
      ensures Agrees(es[1..], es[1..][i].metric, es[1..][i].key, es[1..][i].limit)
    {
      assert Agrees(es, es[i + 1].metric, es[i + 1].key, es[i + 1].limit);
    }
  }

  lemma CheckEntryClock(s: Limiter, e: Entry, debit: bool, now: Instant)
    requires s.ClockedAt(now)
    ensures CheckEntry(s, e, debit, now).0.ClockedAt(now)
  {
  }

  lemma {:induction false} SameWait(s: Limiter, es: seq<Entry>, i: nat, now: Instant)
    requires i < |es| && s.ClockedAt(now) && Consistent(es)
    ensures Wait(CheckEntry(s, es[0], false, now).0, es[i], now) == Wait(s, es[i], now)
  {
    if Limited(es[i].limit) {
      assert Agrees(es, es[i].metric, es[i].key, es[i].limit);
      CheckEntryKeepsView(s, es[0], now, es[i].metric, es[i].key, es[i].limit.value, now);
    }
  }

  lemma {:induction false} SameWaits(s: Limiter, es: seq<Entry>, now: Instant)
    requires es != [] && s.ClockedAt(now) && Consistent(es)
    ensures var (s', w) := CheckEntry(s, es[0], false, now);
            Waits(s, es, now) == [w] + Waits(s', es[1..], now)
  {
    var (s', w) := CheckEntry(s, es[0], false, now);
    forall i | 0 < i < |es|
      ensures Wait(s', es[i], now) == Wait(s, es[i], now)
    {
      SameWait(s, es, i, now);
    }
  }

  /** The decision, stated without the passes: admitted iff no limited bucket lacks tokens,
      and otherwise told to wait for the slowest of the buckets. */
  lemma {:induction false} DecisionIsSlowestWait(s: Limiter, c: Call, now: Instant)
    requires s.ClockedAt(now) && ConsistentCall(c)
    ensures var d := CheckAndConsume(s, c, now).1;
            && (d.Admitted? <==> forall e | e in Entries(c) :: Wait(s, e, now).None?)
            && (d.RateLimited? ==>
                  && (forall e | e in Entries(c) && Wait(s, e, now).Some? :: Wait(s, e, now).value <= d.retryAfter)
                  && exists e :: e in Entries(c) && Wait(s, e, now) == Some(d.retryAfter))
  {
    var es := Entries(c);
    EntriesConsistent(c);
    VerifyReportsSlowest(s, es, now, None);
    var r := Verify(s, es, now, None).1;
    forall e | e in es
      ensures Slower(r, Wait(s, e, now)) == r
    {
      var i :| 0 <= i < |es| && es[i] == e;
      assert Waits(s, es, now)[i] == Wait(s, e, now);
    }
    if r.Some? {
      var i :| 0 <= i < |es| && Waits(s, es, now)[i] == r;
      assert es[i] in es && Wait(s, es[i], now) == r;
    }
  }

  // ------------------------------------------------------------- all or nothing

  ghost predicate Distinct(es: seq<Entry>) {
    forall i, j | 0 <= i < j < |es| :: es[i].metric != es[j].metric || es[i].key != es[j].key
  }

  // The bucket is used by some limited entry.
  ghost predicate Touched(es: seq<Entry>, m: Metric, key: Key) {
    exists i :: 0 <= i < |es| && es[i].metric == m && es[i].key == key && Limited(es[i].limit)
  }

  ghost predicate Same(s: Limiter, s': Limiter, m: Metric, key: Key) {
    && (key in s.Buckets(m) <==> key in s'.Buckets(m))
    && (key in s.Buckets(m) ==> s.Buckets(m)[key] == s'.Buckets(m)[key])
  }

  lemma {:induction false} VerifyFrame(s: Limiter, es: seq<Entry>, now: Instant, acc: Option<nat>, m: Metric, key: Key)
    requires !Touched(es, m, key)
    ensures Same(s, Verify(s, es, now, acc).0, m, key)
    decreases |es|
  {
    if es != [] {
      var (s', r) := CheckEntry(s, es[0], false, now);
      NotTouchedTail(es, m, key);
      VerifyFrame(s', es[1..], now, Slower(acc, r), m, key);
    }
  }

  lemma {:induction false} NotTouchedTail(es: seq<Entry>, m: Metric, key: Key)
    requires es != [] && !Touched(es, m, key)
    ensures !Touched(es[1..], m, key)
    ensures es[0].metric == m && es[0].key == key ==> !Limited(es[0].limit)
  {
    assert forall i | 0 <= i < |es| - 1 :: es[1..][i] == es[i + 1];
  }

  lemma {:induction false} CommitFrame(s: Limiter, es: seq<Entry>, now: Instant, m: Metric, key: Key)
    requires !Touched(es, m, key)
    ensures Same(s, Commit(s, es, now), m, key)
    decreases |es|
  {
    if es != [] {
      NotTouchedTail(es, m, key);
      CommitFrame(CheckEntry(s, es[0], true, now).0, es[1..], now, m, key);
    }
  }

  /** What pass 2 does, in any state that other calls may have left since pass 1: a limited
      bucket is debited exactly once iff it then has the tokens, and not at all otherwise. */
  lemma {:induction false} CommitDebitsOnce(s: Limiter, es: seq<Entry>, now: Instant, i: nat)
    requires i < |es| && Distinct(es) && Limited(es[i].limit)
    ensures var e := es[i]; var t := Commit(s, es, now).Buckets(e.metric);
            var seen := Seen(s, e.metric, e.key, e.limit.value, now);
            e.key in t && t[e.key] == if Wait(s, e, now).None? then Debit(seen, e.amount) else seen
    decreases |es|
  {
    var s' := CheckEntry(s, es[0], true, now).0;
    var e := es[i];
    if i == 0 {
      assert !Touched(es[1..], e.metric, e.key);
      CommitFrame(s', es[1..], now, e.metric, e.key);
    } else {
      assert Same(s, s', e.metric, e.key);
      CommitDebitsOnce(s', es[1..], now, i - 1);
    }
  }

  /** All or nothing: an admitted call takes each amount exactly once from every limited
      bucket, and that leaves no bucket below zero; a rejected one takes nothing from any
      bucket; neither touches any other bucket. */
  lemma {:induction false} AllOrNothing(s: Limiter, c: Call, now: Instant)
    requires s.ClockedAt(now) && c.apiKey != c.org
    ensures var (s', d) := CheckAndConsume(s, c, now);
            && (forall i | 0 <= i < 4 && Limited(Entries(c)[i].limit) ::
                  var e := Entries(c)[i];
                  var seen := Seen(s, e.metric, e.key, e.limit.value, now);
                  var t := s'.Buckets(e.metric);
                  if d.Admitted?
                  then e.key in t && t[e.key] == Debit(seen, e.amount) && t[e.key].tokens >= 0.0
                  else Seen(s', e.metric, e.key, e.limit.value, now) == seen)
            && (forall m: Metric, key: Key | !Touched(Entries(c), m, key) :: Same(s, s', m, key))
  {
    var es := Entries(c);
    var (s1, slowest) := Verify(s, es, now, None);
    var (s', d) := CheckAndConsume(s, c, now);
    EntriesConsistent(c);
    DecisionIsSlowestWait(s, c, now);
    forall i | 0 <= i < 4 && Limited(es[i].limit)
      ensures var e := es[i];
              var seen := Seen(s, e.metric, e.key, e.limit.value, now);
              var t := s'.Buckets(e.metric);
              if d.Admitted?
              then e.key in t && t[e.key] == Debit(seen, e.amount) && t[e.key].tokens >= 0.0
              else Seen(s', e.metric, e.key, e.limit.value, now) == seen
    {
      var e := es[i];
      assert Agrees(es, e.metric, e.key, e.limit);
      VerifyKeepsView(s, es, now, None, e.metric, e.key, e.limit.value, now);
      if d.Admitted? {
        assert e in Entries(c);
        CommitDebitsOnce(s1, es, now, i);
      }
    }
    forall m: Metric, key: Key | !Touched(es, m, key)
      ensures Same(s, s', m, key)
    {
      VerifyFrame(s, es, now, None, m, key);
      CommitFrame(s1, es, now, m, key);
    }
  }

  // ------------------------------------------------------ how much can be admitted

  datatype Timed = Timed(call: Call, now: Instant)

  // What a call takes from one bucket: its amount if it is admitted and uses the bucket.
  function Cost(c: Call, m: Metric, key: Key): nat {
    if key == (c.apiKey, c.model) || key == (c.org, c.model) then (if m.Rpm? then 1 else c.tokens) else 0
  }

  function Spent(s: Limiter, t: Timed, m: Metric, key: Key): nat {
    if CheckAndConsume(s, t.call, t.now).1.Admitted? then Cost(t.call, m, key) else 0
  }

  function TotalSpent(s: Limiter, run: seq<Timed>, m: Metric, key: Key): nat
    decreases |run|
  {
    if run == [] then 0
    else Spent(s, run[0], m, key) + TotalSpent(CheckAndConsume(s, run[0].call, run[0].now).0, run[1..], m, key)
  }

  function StateAfter(s: Limiter, run: seq<Timed>): Limiter
    decreases |run|
  {
    if run == [] then s else StateAfter(CheckAndConsume(s, run[0].call, run[0].now).0, run[1..])
  }

  function EndOf(run: seq<Timed>, from: Instant): Instant {
    if run == [] then from else run[|run| - 1].now
  }

  // All uses of the bucket set this limit.
  ghost predicate Governed(es: seq<Entry>, m: Metric, key: Key, limit: nat) {
    forall i | 0 <= i < |es| && es[i].metric == m && es[i].key == key :: es[i].limit == Some(limit)
  }

  // One call after the other, each by distinct identities, all with the same limit on one bucket.
  ghost predicate SteadyRun(run: seq<Timed>, from: Instant, m: Metric, key: Key, limit: nat) {
    run == [] ||
    (&& from <= run[0].now && run[0].call.apiKey != run[0].call.org
     && Governed(Entries(run[0].call), m, key, limit)
     && SteadyRun(run[1..], run[0].now, m, key, limit))
  }

  lemma {:induction false} CallClock(s: Limiter, c: Call, now: Instant)
    requires s.ClockedAt(now)
    ensures CheckAndConsume(s, c, now).0.ClockedAt(now)
  {
    VerifyClock(s, Entries(c), now, None);
    CommitClock(Verify(s, Entries(c), now, None).0, Entries(c), now);
  }

  lemma {:induction false} CommitClock(s: Limiter, es: seq<Entry>, now: Instant)
    requires s.ClockedAt(now)
    ensures Commit(s, es, now).ClockedAt(now)
    decreases |es|
  {
    if es != [] {
      CheckEntryClock(s, es[0], true, now);
      CommitClock(CheckEntry(s, es[0], true, now).0, es[1..], now);
    }
  }

  lemma {:induction false} DebitedIsSeen(t: Table<Key>, key: Key, limit: nat, now: Instant)
    requires limit > 0 && key in t
    requires t[key].capacity == limit && t[key].lastRefill == now && t[key].tokens <= limit as real
    ensures Effective(t, key, limit, now) == t[key]
  {
    GainMonotone(limit, 0.0, 0.0);
  }

  // The bucket of a metric and key is used by a call iff it is one of its entries.
  lemma {:induction false} CostIsAmount(c: Call, m: Metric, key: Key, limit: nat)
    requires limit > 0 && c.apiKey != c.org && Governed(Entries(c), m, key, limit)
    ensures Touched(Entries(c), m, key) ==>
              exists i :: 0 <= i < 4 && Entries(c)[i] == Entry(m, key, Some(limit), Cost(c, m, key))
    ensures !Touched(Entries(c), m, key) ==> Cost(c, m, key) == 0
  {
    var es := Entries(c);
    var i := (if key == (c.apiKey, c.model) then 0 else 2) + if m.Rpm? then 0 else 1;
    if key == (c.apiKey, c.model) || key == (c.org, c.model) {
      assert es[i].metric == m && es[i].key == key && es[i].limit == Some(limit);
      assert es[i] == Entry(m, key, Some(limit), Cost(c, m, key));
    }
  }

  /** Conservation over one call: what an admitted call spends is what the bucket loses. */
  lemma {:induction false} CallPotential(s: Limiter, t: Timed, m: Metric, key: Key, limit: nat)
    requires limit > 0 && s.ClockedAt(t.now) && t.call.apiKey != t.call.org
    requires Governed(Entries(t.call), m, key, limit)
    ensures var s' := CheckAndConsume(s, t.call, t.now).0;
            Spent(s, t, m, key) as real + Seen(s', m, key, limit, t.now).tokens == Seen(s, m, key, limit, t.now).tokens
  {
    var (s', d) := CheckAndConsume(s, t.call, t.now);
    AllOrNothing(s, t.call, t.now);
    CostIsAmount(t.call, m, key, limit);
    if Touched(Entries(t.call), m, key) {
      var i :| 0 <= i < 4 && Entries(t.call)[i] == Entry(m, key, Some(limit), Cost(t.call, m, key));
      if d.Admitted? {
        DebitedIsSeen(s'.Buckets(m), key, limit, t.now);
      }
    } else {
      assert Same(s, s', m, key);
    }
  }

  lemma {:induction false} RunPotential(s: Limiter, run: seq<Timed>, from: Instant, m: Metric, key: Key, limit: nat)
    requires limit > 0 && s.ClockedAt(from) && SteadyRun(run, from, m, key, limit)
    ensures StateAfter(s, run).ClockedAt(EndOf(run, from))
    ensures TotalSpent(s, run, m, key) as real + Seen(StateAfter(s, run), m, key, limit, EndOf(run, from)).tokens
            <= Seen(s, m, key, limit, from).tokens + Gain(limit, EndOf(run, from) - from)
    decreases |run|
  {
    if run == [] {
      GainMonotone(limit, 0.0, 0.0);
    } else {
      var t := run[0];
      var s' := CheckAndConsume(s, t.call, t.now).0;
      RefillAtMost(s.Buckets(m), key, limit, from, t.now);
      assert s.ClockedAt(t.now);
      CallClock(s, t.call, t.now);
      CallPotential(s, t, m, key, limit);
      RunPotential(s', run[1..], t.now, m, key, limit);
      assert EndOf(run[1..], t.now) == EndOf(run, from);
      GainAdds(limit, t.now - from, EndOf(run, from) - t.now);
    }
  }

  ghost predicate WithinBounds(s: Limiter) {
    Bounded(s.rpm) && Bounded(s.tpm)
  }

  lemma {:induction false} CheckEntryBounds(s: Limiter, e: Entry, debit: bool, now: Instant)
    requires s.ClockedAt(now) && WithinBounds(s)
    ensures WithinBounds(CheckEntry(s, e, debit, now).0) && CheckEntry(s, e, debit, now).0.ClockedAt(now)
  {
    CheckKeepsBounds(s.Buckets(e.metric), Check(e.key, e.limit, e.amount, debit), now);
  }

  lemma {:induction false} VerifyBounds(s: Limiter, es: seq<Entry>, now: Instant, acc: Option<nat>)
    requires s.ClockedAt(now) && WithinBounds(s)
    ensures WithinBounds(Verify(s, es, now, acc).0) && Verify(s, es, now, acc).0.ClockedAt(now)
    decreases |es|
  {
    if es != [] {
      CheckEntryBounds(s, es[0], false, now);
      var (s', r) := CheckEntry(s, es[0], false, now);
      VerifyBounds(s', es[1..], now, Slower(acc, r));
    }
  }

  lemma {:induction false} CommitBounds(s: Limiter, es: seq<Entry>, now: Instant)
    requires s.ClockedAt(now) && WithinBounds(s)
    ensures WithinBounds(Commit(s, es, now)) && Commit(s, es, now).ClockedAt(now)
    decreases |es|
  {
    if es != [] {
      CheckEntryBounds(s, es[0], true, now);
      CommitBounds(CheckEntry(s, es[0], true, now).0, es[1..], now);
    }
  }

  ghost predicate TimedInOrder(run: seq<Timed>, from: Instant) {
    run == [] || (from <= run[0].now && TimedInOrder(run[1..], run[0].now))
  }

  lemma {:induction false} RunBounds(s: Limiter, run: seq<Timed>, from: Instant)
    requires s.ClockedAt(from) && WithinBounds(s) && TimedInOrder(run, from)
    ensures WithinBounds(StateAfter(s, run)) && StateAfter(s, run).ClockedAt(EndOf(run, from))
    decreases |run|
  {
    if run != [] {
      var es, now := Entries(run[0].call), run[0].now;
      assert s.ClockedAt(now);
      VerifyBounds(s, es, now, None);
      CommitBounds(Verify(s, es, now, None).0, es, now);
      RunBounds(CheckAndConsume(s, run[0].call, now).0, run[1..], now);
      assert EndOf(run[1..], now) == EndOf(run, from);
    }
  }

  /** What the limiter is for: after any history of calls with any limits, a run of calls that
      do not interleave and share the limit `limit` on one bucket is admitted for at most a
      full bucket plus the refill of the elapsed time: requests if the bucket counts requests,
      estimated tokens if it counts tokens. */
  lemma {:induction false} AdmissionBound(history: seq<Timed>, run: seq<Timed>, from: Instant, m: Metric, key: Key,
                                          limit: nat)
    requires limit > 0 && run != [] && TimedInOrder(history, from)
    requires SteadyRun(run, EndOf(history, from), m, key, limit)
    ensures TotalSpent(StateAfter(Limiter(map[], map[]), history), run, m, key) as real
            <= WindowCap(limit, EndOf(run, from) - run[0].now)
  {
    RunBounds(Limiter(map[], map[]), history, from);
    var s := StateAfter(Limiter(map[], map[]), history);
    var start := run[0].now;
    assert s.ClockedAt(start) && SteadyRun(run, start, m, key, limit);
    RunPotential(s, run, start, m, key, limit);
    SteadyInOrder(run, start, m, key, limit);
    RunBounds(s, run, start);
    EffectiveBounds(s.Buckets(m), key, limit, start);
    EffectiveBounds(StateAfter(s, run).Buckets(m), key, limit, EndOf(run, start));
    WindowCapIsGain(limit, EndOf(run, start) - start);
  }

  lemma {:induction false} SteadyInOrder(run: seq<Timed>, from: Instant, m: Metric, key: Key, limit: nat)
    requires SteadyRun(run, from, m, key, limit)
    ensures TimedInOrder(run, from)
  {
    if run != [] {
      SteadyInOrder(run[1..], run[0].now, m, key, limit);
    }
  }

  // ---------------------------------------------- a rejected call leaves no trace

  // Limits that stay fixed over a run.
  datatype Config = Config(rpm: Key -> Option<int>, tpm: Key -> Option<int>) {
    function Limit(m: Metric, key: Key): Option<int> {
      if m.Rpm? then rpm(key) else tpm(key)
    }
  }

  datatype Request = Request(apiKey: Uuid, org: Uuid, model: string, tokens: nat, now: Instant)

  function CallOf(cfg: Config, q: Request): Call {
    var k, o := (q.apiKey, q.model), (q.org, q.model);
    Call(q.apiKey, q.org, q.model, cfg.rpm(k), cfg.tpm(k), cfg.rpm(o), cfg.tpm(o), q.tokens)
  }

  function Decisions(s: Limiter, cfg: Config, qs: seq<Request>): seq<Decision>
    decreases |qs|
  {
    if qs == [] then []
    else
      var (s', d) := CheckAndConsume(s, CallOf(cfg, qs[0]), qs[0].now);
      [d] + Decisions(s', cfg, qs[1..])
  }

  ghost predicate InOrder(qs: seq<Request>, from: Instant) {
    qs == [] || (from <= qs[0].now && InOrder(qs[1..], qs[0].now))
  }

  ghost predicate SameView(s: Limiter, s': Limiter, cfg: Config, now: Instant) {
    forall m: Metric, key: Key | Limited(cfg.Limit(m, key)) ::
      Seen(s, m, key, cfg.Limit(m, key).value, now) == Seen(s', m, key, cfg.Limit(m, key).value, now)
  }

  lemma {:induction false} SameViewLater(s: Limiter, s': Limiter, cfg: Config, now: Instant, later: Instant)
    requires now <= later && s.ClockedAt(now) && s'.ClockedAt(now) && SameView(s, s', cfg, now)
    ensures SameView(s, s', cfg, later) && s.ClockedAt(later) && s'.ClockedAt(later)
  {
    forall m: Metric, key: Key | Limited(cfg.Limit(m, key))
      ensures Seen(s, m, key, cfg.Limit(m, key).value, later) == Seen(s', m, key, cfg.Limit(m, key).value, later)
    {
      EffectiveComposes(s.Buckets(m), key, cfg.Limit(m, key).value, now, later);
      EffectiveComposes(s'.Buckets(m), key, cfg.Limit(m, key).value, now, later);
    }
  }

  ghost predicate Configured(es: seq<Entry>, cfg: Config) {
    forall i | 0 <= i < |es| :: es[i].limit == cfg.Limit(es[i].metric, es[i].key)
  }

  lemma {:induction false} CheckEntrySame(s: Limiter, s': Limiter, cfg: Config, e: Entry, debit: bool, now: Instant)
    requires s.ClockedAt(now) && s'.ClockedAt(now) && SameView(s, s', cfg, now)
    requires e.limit == cfg.Limit(e.metric, e.key)
    ensures var (t, r) := CheckEntry(s, e, debit, now);
            var (t', r') := CheckEntry(s', e, debit, now);
            r == r' && SameView(t, t', cfg, now) && t.ClockedAt(now) && t'.ClockedAt(now)
  {
    var (t, r) := CheckEntry(s, e, debit, now);
    var (t', r') := CheckEntry(s', e, debit, now);
    CheckEntryClock(s, e, debit, now);
    CheckEntryClock(s', e, debit, now);
    forall m: Metric, key: Key | Limited(cfg.Limit(m, key))
      ensures Seen(t, m, key, cfg.Limit(m, key).value, now) == Seen(t', m, key, cfg.Limit(m, key).value, now)
    {
      assert Seen(s, m, key, cfg.Limit(m, key).value, now) == Seen(s', m, key, cfg.Limit(m, key).value, now);
    }
  }

  lemma {:induction false} VerifySame(s: Limiter, s': Limiter, cfg: Config, es: seq<Entry>, now: Instant,
                                      acc: Option<nat>)
    requires s.ClockedAt(now) && s'.ClockedAt(now) && SameView(s, s', cfg, now) && Configured(es, cfg)
    ensures var (t, r) := Verify(s, es, now, acc);
            var (t', r') := Verify(s', es, now, acc);
            r == r' && SameView(t, t', cfg, now) && t.ClockedAt(now) && t'.ClockedAt(now)
    decreases |es|
  {
    if es != [] {
      CheckEntrySame(s, s', cfg, es[0], false, now);
      var (t, r) := CheckEntry(s, es[0], false, now);
      VerifySame(t, CheckEntry(s', es[0], false, now).0, cfg, es[1..], now, Slower(acc, r));
    }
  }

  lemma {:induction false} CommitSame(s: Limiter, s': Limiter, cfg: Config, es: seq<Entry>, now: Instant)
    requires s.ClockedAt(now) && s'.ClockedAt(now) && SameView(s, s', cfg, now) && Configured(es, cfg)
    ensures var t, t' := Commit(s, es, now), Commit(s', es, now);
            SameView(t, t', cfg, now) && t.ClockedAt(now) && t'.ClockedAt(now)
    decreases |es|
  {
    if es != [] {
      CheckEntrySame(s, s', cfg, es[0], true, now);
      CommitSame(CheckEntry(s, es[0], true, now).0, CheckEntry(s', es[0], true, now).0, cfg, es[1..], now);
    }
  }

  lemma {:induction false} SameViewSameDecisions(s: Limiter, s': Limiter, cfg: Config, qs: seq<Request>, from: Instant)
    requires s.ClockedAt(from) && s'.ClockedAt(from) && SameView(s, s', cfg, from) && InOrder(qs, from)
    ensures Decisions(s, cfg, qs) == Decisions(s', cfg, qs)
    decreases |qs|
  {
    if qs != [] {
      var now, es := qs[0].now, Entries(CallOf(cfg, qs[0]));
      SameViewLater(s, s', cfg, from, now);
      VerifySame(s, s', cfg, es, now, None);
      var t, t' := Verify(s, es, now, None).0, Verify(s', es, now, None).0;
      CommitSame(t, t', cfg, es, now);
      SameViewSameDecisions(CheckAndConsume(s, CallOf(cfg, qs[0]), now).0,
                            CheckAndConsume(s', CallOf(cfg, qs[0]), now).0, cfg, qs[1..], now);
    }
  }

  /** A rejected call is invisible: with fixed limits, every later decision of every later
      run is the one that would have been made had the call never happened. */
  lemma {:induction false} RejectionIsInvisible(s: Limiter, cfg: Config, q: Request, later: seq<Request>)
    requires s.ClockedAt(q.now) && InOrder(later, q.now)
    requires CheckAndConsume(s, CallOf(cfg, q), q.now).1.RateLimited?
    ensures Decisions(CheckAndConsume(s, CallOf(cfg, q), q.now).0, cfg, later) == Decisions(s, cfg, later)
  {
    var c := CallOf(cfg, q);
    var es := Entries(c);
    var s' := CheckAndConsume(s, c, q.now).0;
    assert s' == Verify(s, es, q.now, None).0;
    forall m: Metric, key: Key | Limited(cfg.Limit(m, key))
      ensures Seen(s, m, key, cfg.Limit(m, key).value, q.now) == Seen(s', m, key, cfg.Limit(m, key).value, q.now)
    {
      VerifyKeepsView(s, es, q.now, None, m, key, cfg.Limit(m, key).value, q.now);
    }
    VerifyClock(s, es, q.now, None);
    SameViewSameDecisions(s', s, cfg, later, q.now);
  }

  lemma {:induction false} VerifyClock(s: Limiter, es: seq<Entry>, now: Instant, acc: Option<nat>)
    requires s.ClockedAt(now)
    ensures Verify(s, es, now, acc).0.ClockedAt(now)
    decreases |es|
  {
    if es != [] {
      var (s', r) := CheckEntry(s, es[0], false, now);
      CheckEntryClock(s, es[0], false, now);
      VerifyClock(s', es[1..], now, Slower(acc, r));
    }
  }

  // ------------------------------------------------------------------- retry-after

  // The same call, repeated after an idle wait.
  function Retry(s: Limiter, c: Call, now: Instant, wait: real): Decision {
    CheckAndConsume(CheckAndConsume(s, c, now).0, c, now + wait).1
  }

  lemma {:induction false} WaitAfterRejection(s: Limiter, c: Call, now: Instant, wait: real, e: Entry)
    requires s.ClockedAt(now) && ConsistentCall(c) && CheckAndConsume(s, c, now).1.RateLimited? && wait >= 0.0
    requires e in Entries(c) && Limited(e.limit)
    ensures var s' := CheckAndConsume(s, c, now).0;
            var b := Seen(s, e.metric, e.key, e.limit.value, now);
            Wait(s', e, now + wait) == RetryAfter(Refill(b, b.lastRefill + wait), e.amount)
  {
    var b := Seen(s, e.metric, e.key, e.limit.value, now);
    assert b.lastRefill == now;
    assert CheckAndConsume(s, c, now).0 == Verify(s, Entries(c), now, None).0;
    SeenAfterRejection(s, c, now, e, now + wait);
  }

  /** Retry-after is sound: if every amount fits its limit, the rejected call is admitted
      after any idle wait of at least the reported number of seconds. */
  lemma {:induction false} RetryAfterIsSound(s: Limiter, c: Call, now: Instant, wait: real)
    requires s.ClockedAt(now) && ConsistentCall(c) && CheckAndConsume(s, c, now).1.RateLimited?
    requires forall e | e in Entries(c) && Limited(e.limit) :: e.amount <= e.limit.value
    requires wait >= CheckAndConsume(s, c, now).1.retryAfter as real
    ensures Retry(s, c, now, wait).Admitted?
  {
    var s' := CheckAndConsume(s, c, now).0;
    ClockAfterRejection(s, c, now, wait);
    forall e | e in Entries(c)
      ensures Wait(s', e, now + wait).None?
    {
      WaitAtMost(s, c, now, e);
      EntryIsReady(s, c, now, wait, e);
    }
    AdmittedIfReady(s', c, now + wait);
  }

  lemma {:induction false} WaitAtMost(s: Limiter, c: Call, now: Instant, e: Entry)
    requires s.ClockedAt(now) && ConsistentCall(c) && CheckAndConsume(s, c, now).1.RateLimited? && e in Entries(c)
    ensures Wait(s, e, now).Some? ==> Wait(s, e, now).value <= CheckAndConsume(s, c, now).1.retryAfter
  {
    DecisionIsSlowestWait(s, c, now);
  }

  lemma {:induction false} AdmittedIfReady(s: Limiter, c: Call, now: Instant)
    requires s.ClockedAt(now) && ConsistentCall(c) && forall e | e in Entries(c) :: Wait(s, e, now).None?
    ensures CheckAndConsume(s, c, now).1.Admitted?
  {
    DecisionIsSlowestWait(s, c, now);
  }

  lemma {:induction false} EntryIsReady(s: Limiter, c: Call, now: Instant, wait: real, e: Entry)
    requires s.ClockedAt(now) && ConsistentCall(c) && CheckAndConsume(s, c, now).1.RateLimited? && wait >= 0.0
    requires e in Entries(c) && (Limited(e.limit) ==> e.amount <= e.limit.value)
    requires Wait(s, e, now).Some? ==> Wait(s, e, now).value as real <= wait
    ensures Wait(CheckAndConsume(s, c, now).0, e, now + wait).None?
  {
    if Limited(e.limit) {
      WaitAfterRejection(s, c, now, wait, e);
      WaitEnough(Seen(s, e.metric, e.key, e.limit.value, now), e.amount, wait);
    }
  }

  /** Retry-after is tight: after any idle wait of at most one second less, the same call
      is rejected again. */
  lemma {:induction false} RetryAfterIsMinimal(s: Limiter, c: Call, now: Instant, wait: real)
    requires s.ClockedAt(now) && ConsistentCall(c) && CheckAndConsume(s, c, now).1.RateLimited?
    requires 0.0 <= wait <= (CheckAndConsume(s, c, now).1.retryAfter - 1) as real
    ensures Retry(s, c, now, wait).RateLimited?
  {
    var (s', d) := CheckAndConsume(s, c, now);
    ClockAfterRejection(s, c, now, wait);
    var e := SlowestEntry(s, c, now);
    EntryStillWaits(s, c, now, wait, e);
    RejectedIfWaiting(s', c, now + wait, e);
  }

  lemma {:induction false} ClockAfterRejection(s: Limiter, c: Call, now: Instant, wait: real)
    requires s.ClockedAt(now) && CheckAndConsume(s, c, now).1.RateLimited? && wait >= 0.0
    ensures CheckAndConsume(s, c, now).0.ClockedAt(now + wait)
  {
    VerifyClock(s, Entries(c), now, None);
  }

  lemma {:induction false} SlowestEntry(s: Limiter, c: Call, now: Instant) returns (e: Entry)
    requires s.ClockedAt(now) && ConsistentCall(c) && CheckAndConsume(s, c, now).1.RateLimited?
    ensures e in Entries(c) && Limited(e.limit) && Wait(s, e, now) == Some(CheckAndConsume(s, c, now).1.retryAfter)
  {
    DecisionIsSlowestWait(s, c, now);
    e :| e in Entries(c) && Wait(s, e, now) == Some(CheckAndConsume(s, c, now).1.retryAfter);
  }

  lemma {:induction false} RejectedIfWaiting(s: Limiter, c: Call, now: Instant, e: Entry)
    requires s.ClockedAt(now) && ConsistentCall(c) && e in Entries(c) && Wait(s, e, now).Some?
    ensures CheckAndConsume(s, c, now).1.RateLimited?
  {
    DecisionIsSlowestWait(s, c, now);
  }

  lemma {:induction false} EntryStillWaits(s: Limiter, c: Call, now: Instant, wait: real, e: Entry)
    requires s.ClockedAt(now) && ConsistentCall(c) && CheckAndConsume(s, c, now).1.RateLimited?
    requires e in Entries(c) && Limited(e.limit) && Wait(s, e, now).Some?
    requires 0.0 <= wait <= (Wait(s, e, now).value - 1) as real
    ensures Wait(CheckAndConsume(s, c, now).0, e, now + wait).Some?
  {
    WaitAfterRejection(s, c, now, wait, e);
    RetryAfterIsTight(Seen(s, e.metric, e.key, e.limit.value, now), e.amount, wait);
  }

  lemma {:induction false} SeenAfterRejection(s: Limiter, c: Call, now: Instant, e: Entry, later: Instant)
    requires s.ClockedAt(now) && ConsistentCall(c) && e in Entries(c) && Limited(e.limit) && now <= later
    ensures Seen(Verify(s, Entries(c), now, None).0, e.metric, e.key, e.limit.value, later)
            == Refill(Seen(s, e.metric, e.key, e.limit.value, now), later)
  {
    var es := Entries(c);
    EntriesConsistent(c);
    var i :| 0 <= i < |es| && es[i] == e;
    assert Agrees(es, e.metric, e.key, e.limit);
    VerifyKeepsView(s, es, now, None, e.metric, e.key, e.limit.value, later);
    EffectiveComposes(s.Buckets(e.metric), e.key, e.limit.value, now, later);
  }

  lemma {:induction false} WaitEnough(b: Bucket, amount: nat, wait: real)
    requires b.capacity > 0 && amount <= b.capacity && wait >= 0.0
    requires RetryAfter(b, amount).Some? ==> wait >= RetryAfter(b, amount).value as real
    ensures RetryAfter(Refill(b, b.lastRefill + wait), amount).None?
  {
    if RetryAfter(b, amount).Some? {
      RetryAfterIsTight(b, amount, wait);
    } else {
      GainMonotone(b.capacity, 0.0, wait);
    }
  }

  /** A call that asks one bucket for more than its limit is rejected in every state. */
  lemma {:induction false} OversizedIsNeverAdmitted(s: Limiter, c: Call, now: Instant, e: Entry)
    requires e in Entries(c) && Limited(e.limit) && e.amount > e.limit.value
    ensures CheckAndConsume(s, c, now).1.RateLimited?
  {
    VerifyRefusesOversized(s, Entries(c), now, None, e);
  }

  lemma {:induction false} VerifyRefusesOversized(s: Limiter, es: seq<Entry>, now: Instant, acc: Option<nat>, e: Entry)
    requires acc.Some? || (e in es && Limited(e.limit) && e.amount > e.limit.value)
    ensures Verify(s, es, now, acc).1.Some?
    decreases |es|
  {
    if es != [] {
      var (s', r) := CheckEntry(s, es[0], false, now);
      if es[0] == e && acc.None? {
        assert Seen(s, e.metric, e.key, e.limit.value, now).tokens <= e.limit.value as real;
      }
      VerifyRefusesOversized(s', es[1..], now, Slower(acc, r), e);
    }
  }

  // ---------------------------------------------------- where all-or-nothing stops

  function Debiting(key: Key, limit: Option<int>, amount: nat): Check<Key> {
    Check(key, limit, amount, true)
  }

  function Looking(key: Key, limit: Option<int>, amount: nat): Check<Key> {
    Check(key, limit, amount, false)
  }

  // The tokens that two debits leave when only the first is sure to find its own.
  function LeftByBoth(tokens: real, a: nat, b: nat): real {
    tokens - a as real - if tokens >= (a + b) as real then b as real else 0.0
  }

  // A bucket just looked at under one limit, looked at again under another at the same time.
  lemma {:induction false} SeenAgain(t: Table<Key>, key: Key, limit: nat, now: Instant)
    requires limit > 0 && key in t && t[key].capacity > 0 && t[key].lastRefill == now
    requires t[key].tokens <= t[key].capacity as real
    ensures Effective(t, key, limit, now) == Bucket(limit, Min(t[key].tokens, limit as real), now)
  {
    GainMonotone(limit, 0.0, 0.0);
  }

  function KeyLimit(c: Call, m: Metric): Option<int> {
    if m.Rpm? then c.rpmKey else c.tpmKey
  }

  function OrgLimit(c: Call, m: Metric): Option<int> {
    if m.Rpm? then c.rpmOrg else c.tpmOrg
  }

  // Pass 2 on the buckets of one metric: first the key's, then the organization's.
  lemma {:induction false} CommitOnMetric(s: Limiter, c: Call, now: Instant, m: Metric)
    ensures var a := if m.Rpm? then 1 else c.tokens;
            var t1 := CheckBucket(s.Buckets(m), Debiting((c.apiKey, c.model), KeyLimit(c, m), a), now).0;
            Commit(s, Entries(c), now).Buckets(m)
            == CheckBucket(t1, Debiting((c.org, c.model), OrgLimit(c, m), a), now).0
  {
    var es := Entries(c);
    var s1 := CheckEntry(s, es[0], true, now).0;
    var s2 := CheckEntry(s1, es[1], true, now).0;
    var s3 := CheckEntry(s2, es[2], true, now).0;
    var s4 := CheckEntry(s3, es[3], true, now).0;
    assert es[1..][1..][1..][1..] == [];
    assert Commit(s3, es[1..][1..][1..], now) == s4;
    assert Commit(s2, es[1..][1..], now) == s4;
    assert Commit(s1, es[1..], now) == s4;
  }

  // Pass 1 on the buckets of one metric, and what it takes to be admitted.
  lemma {:induction false} VerifyOnMetric(s: Limiter, c: Call, now: Instant, m: Metric)
    ensures var a := if m.Rpm? then 1 else c.tokens;
            var (t1, r1) := CheckBucket(s.Buckets(m), Looking((c.apiKey, c.model), KeyLimit(c, m), a), now);
            var (t2, r2) := CheckBucket(t1, Looking((c.org, c.model), OrgLimit(c, m), a), now);
            var (s', slowest) := Verify(s, Entries(c), now, None);
            s'.Buckets(m) == t2 && (slowest.None? ==> r1.None? && r2.None?)
  {
    var es := Entries(c);
    var (s1, r1) := CheckEntry(s, es[0], false, now);
    var (s2, r2) := CheckEntry(s1, es[1], false, now);
    var (s3, r3) := CheckEntry(s2, es[2], false, now);
    var (s4, r4) := CheckEntry(s3, es[3], false, now);
    var w1 := Slower(None, r1);
    var w2 := Slower(w1, r2);
    var w3 := Slower(w2, r3);
    var w4 := Slower(w3, r4);
    assert es[1..][1..][1..][1..] == [];
    assert Verify(s3, es[1..][1..][1..], now, w3) == (s4, w4);
    assert Verify(s2, es[1..][1..], now, w2) == (s4, w4);
    assert Verify(s1, es[1..], now, w1) == (s4, w4);
  }

  // The tokens of a bucket that both the key and the organization may limit, as the smaller
  // limit lets it hold them.
  function SharedTokens(s: Limiter, c: Call, m: Metric, now: Instant): real
    requires Limited(KeyLimit(c, m)) || Limited(OrgLimit(c, m))
  {
    var key, k, o := (c.apiKey, c.model), KeyLimit(c, m), OrgLimit(c, m);
    if Limited(k) && Limited(o) then Min(Seen(s, m, key, k.value, now).tokens, o.value as real)
    else Seen(s, m, key, if Limited(k) then k.value else o.value, now).tokens
  }

  /** Distinct identities matter. When one id is both the key and the organization, an admitted
      call takes its amount from the shared bucket twice iff both limits are set and twice the
      amount is there under the smaller of them, and exactly once whenever a limit is set
      otherwise. */
  lemma {:induction false} SharedIdentityDebitsTwice(s: Limiter, c: Call, now: Instant, m: Metric)
    requires c.apiKey == c.org && CheckAndConsume(s, c, now).1.Admitted?
    requires Limited(KeyLimit(c, m)) || Limited(OrgLimit(c, m))
    ensures var key, after := (c.apiKey, c.model), CheckAndConsume(s, c, now).0.Buckets(m);
            var tokens, amount := SharedTokens(s, c, m, now), Cost(c, m, key);
            && key in after
            && after[key].tokens
               == if Limited(KeyLimit(c, m)) && Limited(OrgLimit(c, m)) then LeftByBoth(tokens, amount, amount)
                  else tokens - amount as real
  {
    var key, a := (c.apiKey, c.model), Cost(c, m, (c.apiKey, c.model));
    var v := Verify(s, Entries(c), now, None).0;
    VerifyOnMetric(s, c, now, m);
    CommitOnMetric(v, c, now, m);
    if Limited(KeyLimit(c, m)) && Limited(OrgLimit(c, m)) {
      TwoLimits(s.Buckets(m), key, KeyLimit(c, m).value, OrgLimit(c, m).value, a, now);
    } else {
      OneLimitOnly(s.Buckets(m), key, if Limited(KeyLimit(c, m)) then KeyLimit(c, m).value else OrgLimit(c, m).value,
                   a, now);
    }
  }

  lemma {:induction false} OneLimitOnly(t: Table<Key>, key: Key, limit: nat, a: nat, now: Instant)
    requires limit > 0 && RetryAfter(Effective(t, key, limit, now), a).None?
    ensures var v := CheckBucket(t, Looking(key, Some(limit), a), now).0;
            var t' := CheckBucket(v, Debiting(key, Some(limit), a), now).0;
            key in t' && t'[key].tokens == Effective(t, key, limit, now).tokens - a as real
  {
    SeenAgain(CheckBucket(t, Looking(key, Some(limit), a), now).0, key, limit, now);
  }

  // Looked at under both limits, and then debited under both, one after the other.
  lemma {:induction false} TwoLimits(t: Table<Key>, key: Key, k: nat, o: nat, a: nat, now: Instant)
    requires k > 0 && o > 0
    requires var (v1, r1) := CheckBucket(t, Looking(key, Some(k), a), now);
             r1.None? && CheckBucket(v1, Looking(key, Some(o), a), now).1.None?
    ensures var v1 := CheckBucket(t, Looking(key, Some(k), a), now).0;
            var v2 := CheckBucket(v1, Looking(key, Some(o), a), now).0;
            var t1 := CheckBucket(v2, Debiting(key, Some(k), a), now).0;
            var t2 := CheckBucket(t1, Debiting(key, Some(o), a), now).0;
            && key in t2
            && t2[key].tokens == LeftByBoth(Min(Effective(t, key, k, now).tokens, o as real), a, a)
  {
    var v1 := CheckBucket(t, Looking(key, Some(k), a), now).0;
    SeenAgain(v1, key, o, now);
    var v2 := CheckBucket(v1, Looking(key, Some(o), a), now).0;
    SeenAgain(v2, key, k, now);
    var t1 := CheckBucket(v2, Debiting(key, Some(k), a), now).0;
    SeenAgain(t1, key, o, now);
  }

  // Entries of two calls on one bucket, under one limit.
  ghost predicate Share(e1: Entry, e2: Entry) {
    e1.metric == e2.metric && e1.key == e2.key && e1.limit == e2.limit && Limited(e1.limit)
  }

  // Pass 2 of two calls on one bucket, at two times, of which the first finds its tokens: the
  // second takes its amount iff what the first left, refilled since, has it.
  lemma {:induction false} TwoCommits(s: Limiter, es1: seq<Entry>, es2: seq<Entry>, at1: Instant, at2: Instant,
                                      i: nat, j: nat)
    requires Distinct(es1) && Distinct(es2) && i < |es1| && j < |es2| && Share(es1[i], es2[j]) && at1 <= at2
    requires Wait(s, es1[i], at1).None?
    ensures var e := es1[i]; var t := Commit(Commit(s, es1, at1), es2, at2).Buckets(e.metric);
            var left := Debit(Seen(s, e.metric, e.key, e.limit.value, at1), e.amount);
            e.key in t && t[e.key] == Consulted(Refill(left, at2), es2[j].amount, true)
  {
    var e := es1[i];
    CommitDebitsOnce(s, es1, at1, i);
    var s' := Commit(s, es1, at1);
    CommitDebitsOnce(s', es2, at2, j);
  }

  // Pass 1 of both calls: nothing looks different afterwards.
  lemma {:induction false} TwoVerifies(s: Limiter, c1: Call, c2: Call, from1: Instant, from2: Instant, at: Instant,
                                       i: nat, j: nat)
    requires s.ClockedAt(from1) && from1 <= from2 <= at && ConsistentCall(c1) && ConsistentCall(c2)
    requires i < 4 && j < 4 && Share(Entries(c1)[i], Entries(c2)[j])
    ensures var e := Entries(c1)[i];
            var checked := Verify(Verify(s, Entries(c1), from1, None).0, Entries(c2), from2, None).0;
            Seen(checked, e.metric, e.key, e.limit.value, at) == Seen(s, e.metric, e.key, e.limit.value, at)
  {
    var es1, es2 := Entries(c1), Entries(c2);
    EntriesConsistent(c1);
    EntriesConsistent(c2);
    var e1, e2 := es1[i], es2[j];
    assert Agrees(es1, e1.metric, e1.key, e1.limit) && Agrees(es2, e2.metric, e2.key, e2.limit);
    var s1 := Verify(s, es1, from1, None).0;
    VerifyKeepsView(s, es1, from1, None, e1.metric, e1.key, e1.limit.value, at);
    assert s1.ClockedAt(from2);
    VerifyKeepsView(s1, es2, from2, None, e1.metric, e1.key, e1.limit.value, at);
  }

  // Tokens once found stay there while nobody takes any.
  lemma {:induction false} WaitStaysNone(s: Limiter, e: Entry, now: Instant, later: Instant)
    requires s.ClockedAt(now) && now <= later && Limited(e.limit) && Wait(s, e, now).None?
    ensures Wait(s, e, later).None?
  {
    var b := Seen(s, e.metric, e.key, e.limit.value, now);
    EffectiveComposes(s.Buckets(e.metric), e.key, e.limit.value, now, later);
    GainMonotone(b.capacity, 0.0, later - now);
    assert b.tokens <= b.capacity as real;
  }

  /** Calls that do interleave: when two calls both pass their checks before either debits, at any
      four times, both are admitted. Of a bucket they share the first takes its amount, and the
      second takes its own iff what is left, refilled until then, has it; otherwise its debit
      fails and the failure is discarded. */
  lemma {:induction false} InterleavedCallsShareTokens(s: Limiter, c1: Call, c2: Call, from1: Instant, from2: Instant,
                                                       at1: Instant, at2: Instant, i: nat, j: nat)
    requires s.ClockedAt(from1) && from1 <= from2 <= at1 <= at2 && c1.apiKey != c1.org && c2.apiKey != c2.org
    requires i < 4 && j < 4 && Share(Entries(c1)[i], Entries(c2)[j])
    requires Verify(s, Entries(c1), from1, None).1.None?
    requires Verify(Verify(s, Entries(c1), from1, None).0, Entries(c2), from2, None).1.None?
    ensures var e := Entries(c1)[i];
            var checked := Verify(Verify(s, Entries(c1), from1, None).0, Entries(c2), from2, None).0;
            var t := Commit(Commit(checked, Entries(c1), at1), Entries(c2), at2).Buckets(e.metric);
            var left := Debit(Seen(s, e.metric, e.key, e.limit.value, at1), e.amount);
            && left.tokens >= 0.0 && e.key in t
            && t[e.key] == Consulted(Refill(left, at2), Entries(c2)[j].amount, true)
  {
    var e := Entries(c1)[i];
    var checked := Verify(Verify(s, Entries(c1), from1, None).0, Entries(c2), from2, None).0;
    TwoVerifies(s, c1, c2, from1, from2, at1, i, j);
    AdmittedHasTokens(s, c1, from1, i);
    WaitStaysNone(s, e, from1, at1);
    assert Wait(checked, e, at1).None?;
    EntriesDistinct(c1);
    EntriesDistinct(c2);
    TwoCommits(checked, Entries(c1), Entries(c2), at1, at2, i, j);
  }

  lemma EntriesDistinct(c: Call)
    requires c.apiKey != c.org
    ensures Distinct(Entries(c))
  {
  }

  lemma {:induction false} AdmittedHasTokens(s: Limiter, c: Call, now: Instant, i: nat)
    requires s.ClockedAt(now) && ConsistentCall(c) && i < 4 && Verify(s, Entries(c), now, None).1.None?
    ensures Wait(s, Entries(c)[i], now).None?
  {
    DecisionIsSlowestWait(s, c, now);
    assert Entries(c)[i] in Entries(c);
  }
}
