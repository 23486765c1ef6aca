/**
 Choosing among models: round robin over a shared counter, least busy by requests in
 flight, and lowest smoothed latency.
 */
module LoadBalancing {
  import opened Wrappers
  import opened Words

  type Uuid = nat

  // ------------------------------------------------------------- round robin

  // How often index k is chosen in m consecutive selections over n models, the counter
  // standing at `counter` before the first.
  function Chosen(counter: nat, m: nat, n: nat, k: nat): nat
    requires n > 0
    decreases m
  {
    if m == 0 then 0
    else (if counter % n == k then 1 else 0) + Chosen((counter + 1) % WORD, m - 1, n, k)
  }

  // The same without wrap-around.
  function Hits(from: nat, m: nat, n: nat, k: nat): nat
    requires n > 0
    decreases m
  {
    if m == 0 then 0 else (if from % n == k then 1 else 0) + Hits(from + 1, m - 1, n, k)
  }

  lemma {:induction false} ChosenIsHits(counter: nat, m: nat, n: nat, k: nat)
    requires n > 0 && counter < WORD && counter + m <= WORD
    ensures Chosen(counter, m, n, k) == Hits(counter, m, n, k)
    decreases m
  {
    if m > 1 {
      NoWrap(counter);
      ChosenIsHits(counter + 1, m - 1, n, k);
    }
  }

  lemma NoWrap(counter: nat)
    requires counter + 1 < WORD
    ensures (counter + 1) % WORD == counter + 1
  {
  }

  lemma {:induction false} HitsSplit(from: nat, a: nat, b: nat, n: nat, k: nat)
    requires n > 0
    ensures Hits(from, a + b, n, k) == Hits(from, a, n, k) + Hits(from + a, b, n, k)
    decreases a
  {
    if a > 0 {
      HitsSplit(from + 1, a - 1, b, n, k);
    }
  }

  lemma {:induction false} ModCycle(x: nat, n: nat)
    requires n > 0
    ensures (x + n) % n == x % n
  {
    var q, r := x / n, x % n;
    assert x + n == (q + 1) * n + r;
    ModUnique(x + n, n, q + 1, r);
  }

  lemma {:induction false} ModUnique(x: nat, n: nat, q: nat, r: nat)
    requires n > 0 && x == q * n + r && r < n
    ensures x % n == r && x / n == q
  {
    var d := q - x / n;
    assert d * n == q * n - x / n * n;
    assert x == x / n * n + x % n;
    if d >= 1 {
      MulAtLeast(d, n);
    }
  }

  lemma {:induction false} MulAtLeast(d: nat, n: nat)
    requires d >= 1
    ensures d * n >= n
  {
    assert d * n == (d - 1) * n + n;
  }

  lemma {:induction false} FirstCycle(m: nat, n: nat, k: nat)
    requires k < n && m <= n
    ensures Hits(n - m, m, n, k) == if n - m <= k then 1 else 0
    decreases m
  {
    if m > 0 {
      FirstCycle(m - 1, n, k);
      ModUnique(n - m, n, 0, n - m);
    }
  }

  // Every window of n selections chooses each index exactly once.
  lemma {:induction false} OncePerCycle(from: nat, n: nat, k: nat)
    requires k < n
    ensures Hits(from, n, n, k) == 1
    decreases from
  {
    if from == 0 {
      FirstCycle(n, n, k);
    } else {
      OncePerCycle(from - 1, n, k);
      HitsSplit(from - 1, 1, n - 1, n, k);
      HitsSplit(from, n - 1, 1, n, k);
      ModCycle(from - 1, n);
      assert Hits(from + (n - 1), 1, n, k) == Hits(from - 1, 1, n, k);
    }
  }

  lemma {:induction false} HitsFair(from: nat, m: nat, n: nat, k: nat)
    requires k < n
    ensures m / n <= Hits(from, m, n, k) <= m / n + (if m % n == 0 then 0 else 1)
    decreases m
  {
    if m < n {
      HitsSplit(from, m, n - m, n, k);
      OncePerCycle(from, n, k);
      ModUnique(m, n, 0, m);
    } else {
      HitsSplit(from, n, m - n, n, k);
      OncePerCycle(from, n, k);
      HitsFair(from + n, m - n, n, k);
      var q, r := (m - n) / n, (m - n) % n;
      assert m == (q + 1) * n + r;
      ModUnique(m, n, q + 1, r);
    }
  }

  /** Fairness: in any window of m consecutive selections over n models, each index is chosen
      floor(m/n) or ceil(m/n) times, as long as the counter does not wrap. */
  lemma {:induction false} RoundRobinIsFair(counter: nat, m: nat, n: nat, k: nat)
    requires k < n && counter < WORD && counter + m <= WORD
    ensures m / n <= Chosen(counter, m, n, k) <= m / n + (if m % n == 0 then 0 else 1)
  {
    ChosenIsHits(counter, m, n, k);
    HitsFair(counter, m, n, k);
  }

  /** At the wrap the cycle goes on undisturbed iff the number of models divides the word size. */
  lemma {:induction false} WrapKeepsCycleIff(n: nat)
    requires n > 0
    ensures ((WORD - 1) % n + 1) % n == 0 % n <==> WORD % n == 0
  {
    var r := (WORD - 1) % n;
    var q := (WORD - 1) / n;
    if r + 1 < n {
      ModUnique(WORD, n, q, r + 1);
      ModUnique(r + 1, n, 0, r + 1);
    } else {
      assert WORD == (q + 1) * n;
      ModUnique(WORD, n, q + 1, 0);
      ModUnique(n, n, 1, 0);
    }
    ModUnique(0, n, 0, 0);
  }

  // --------------------------------------------------------------- least busy

  ghost predicate IsFirstMinimum(loads: seq<nat>, i: nat) {
    && i < |loads|
    && (forall j | 0 <= j < |loads| :: loads[i] <= loads[j])
    && (forall j | 0 <= j < i :: loads[i] < loads[j])
  }

  method LeastBusy(loads: seq<nat>) returns (minIdx: nat)
    requires loads != [] && forall i | 0 <= i < |loads| :: loads[i] < WORD
    ensures IsFirstMinimum(loads, minIdx)
  {
    minIdx := 0;
    var minInFlight := WORD - 1;
    for i := 0 to |loads|
      invariant minIdx < |loads| && (i > 0 ==> minIdx < i && loads[minIdx] == minInFlight) && minInFlight < WORD
      invariant i == 0 ==> minInFlight == WORD - 1
      invariant forall j | 0 <= j < i :: minInFlight <= loads[j]
      invariant forall j | 0 <= j < minIdx :: minInFlight < loads[j]
    {
      if loads[i] < minInFlight {
        minInFlight, minIdx := loads[i], i;
      }
    }
  }

  // Loads that differ by at most one.
  ghost predicate Balanced(loads: seq<nat>) {
    forall i, j | 0 <= i < |loads| && 0 <= j < |loads| :: loads[i] <= loads[j] + 1
  }

  // A run that always sends the next request to a least busy model, with no completions.
  ghost predicate Routes(loads: seq<nat>, picks: seq<nat>, end: seq<nat>)
    decreases |picks|
  {
    if picks == [] then end == loads
    else IsFirstMinimum(loads, picks[0]) && Routes(loads[picks[0] := loads[picks[0]] + 1], picks[1..], end)
  }

  /** Routing to the least busy from equal loads keeps all loads within one of each other. */
  lemma {:induction false} LeastBusyBalances(loads: seq<nat>, picks: seq<nat>, end: seq<nat>)
    requires Balanced(loads) && Routes(loads, picks, end)
    ensures Balanced(end) && |end| == |loads|
    decreases |picks|
  {
    if picks != [] {
      var i := picks[0];
      LeastBusyBalances(loads[i := loads[i] + 1], picks[1..], end);
    }
  }

  // ------------------------------------------------------------------ latency

  // The exponentially weighted average; an average of zero counts as not yet set.
  function UpdateEwma(old_: real, sample: real): real {
    if old_ == 0.0 then sample else 0.2 * sample + (1.0 - 0.2) * old_
  }

  function Ewma(samples: seq<real>): real {
    if samples == [] then 0.0 else UpdateEwma(Ewma(samples[..|samples| - 1]), samples[|samples| - 1])
  }

  /** The average stays between the smallest and the largest sample. */
  lemma {:induction false} EwmaStaysWithinSamples(samples: seq<real>, lo: real, hi: real)
    requires samples != [] && forall i | 0 <= i < |samples| :: lo <= samples[i] <= hi
    ensures lo <= Ewma(samples) <= hi
    decreases |samples|
  {
    if |samples| > 1 {
      EwmaStaysWithinSamples(samples[..|samples| - 1], lo, hi);
    } else {
      assert samples[..0] == [];
    }
  }

  /** Each sample takes the average one fifth of the way towards it; an average that is not set is
      replaced by it. */
  lemma {:induction false} EwmaMovesOneFifth(samples: seq<real>, sample: real)
    ensures var before, after := Ewma(samples), Ewma(samples + [sample]);
            if before == 0.0 then after == sample else 5.0 * (after - before) == sample - before
  {
    assert (samples + [sample])[..|samples|] == samples;
  }

  // ----------------------------------------------------------------- the balancer

  // A live guard; it is consumed when dropped.
  datatype Guard = Guard(model: Uuid)

  class LoadBalancer {
    var rrIndex: map<Uuid, nat>
    var inFlight: map<Uuid, nat>
    // The guards that have not been dropped, by model.
    ghost var live: multiset<Uuid>

    ghost predicate Valid()
      reads this
    {
      && (forall id | id in inFlight :: inFlight[id] == live[id])
      && (forall id | id in live :: id in inFlight)
      && (forall id | id in rrIndex :: rrIndex[id] < WORD)
    }

    constructor ()
      ensures Valid() && live == multiset{} && rrIndex == map[]
    {
      rrIndex, inFlight, live := map[], map[], multiset{};
    }

    // Where the round robin of a list stands; it is kept under the first model.
    function Counter(id: Uuid): nat
      reads this
    {
      if id in rrIndex then rrIndex[id] else 0
    }

    function InFlight(id: Uuid): nat
      reads this
    {
      if id in inFlight then inFlight[id] else 0
    }

    method SelectRoundRobin(models: seq<Uuid>) returns (r: Option<nat>)
      requires Valid()
      modifies this`rrIndex
      ensures Valid()
      ensures models == [] ==> r == None && rrIndex == old(rrIndex)
      ensures models != [] ==>
                var before := old(Counter(models[0]));
                && r == Some(before % |models|) && rrIndex == old(rrIndex)[models[0] := (before + 1) % WORD]
    {
      if models == [] {
        return None;
      }
      var before := Counter(models[0]);
      rrIndex := rrIndex[models[0] := (before + 1) % WORD];
      r := Some(before % |models|);
    }

    method SelectLeastBusy(models: seq<Uuid>) returns (r: Option<nat>)
      requires Valid() && |live| < WORD
      ensures models == [] ==> r == None
      ensures models != [] ==> r.Some? && IsFirstMinimum(Loads(live, models), r.value)
    {
      if models == [] {
        return None;
      }
      var loads := [];
      for i := 0 to |models|
        invariant loads == Loads(live, models[..i]) && forall j | 0 <= j < |loads| :: loads[j] < WORD
      {
        AtMostAll(live, models[i]);
        assert models[..i + 1][..i] == models[..i];
        loads := loads + [InFlight(models[i])];
      }
      assert models[..|models|] == models;
      var i := LeastBusy(loads);
      r := Some(i);
    }

    method IncrementInFlight(id: Uuid) returns (g: Guard)
      requires Valid()
      modifies this`inFlight, this`live
      ensures Valid() && g == Guard(id) && live == old(live) + multiset{id}
      ensures InFlight(id) == old(InFlight(id)) + 1
    {
      inFlight := inFlight[id := InFlight(id) + 1];
      live := live + multiset{id};
      g := Guard(id);
    }

    // Dropping a live guard never takes the count below zero.
    method Drop(g: Guard)
      requires Valid() && g.model in live
      modifies this`inFlight, this`live
      ensures Valid() && live == old(live) - multiset{g.model}
      ensures old(InFlight(g.model)) > 0 && InFlight(g.model) == old(InFlight(g.model)) - 1
    {
      inFlight := inFlight[g.model := InFlight(g.model) - 1];
      live := live - multiset{g.model};
    }
  }

  // The number of live guards of each listed model.
  ghost function Loads(live: multiset<Uuid>, models: seq<Uuid>): (r: seq<nat>)
    ensures |r| == |models| && forall i | 0 <= i < |r| :: r[i] == live[models[i]]
  {
    if models == [] then [] else Loads(live, models[..|models| - 1]) + [live[models[|models| - 1]]]
  }

  lemma {:induction false} AtMostAll(m: multiset<Uuid>, x: Uuid)
    ensures m[x] <= |m|
  {
    assert m == m[x := 0] + multiset{}[x := m[x]];
  }

  // ---------------------------------------------------------- runs of the balancer

  ghost predicate Fair(picks: seq<nat>, n: nat)
    requires n > 0
  {
    var m := |picks|;
    forall k: nat | k < n :: m / n <= multiset(picks)[k] <= m / n + (if m % n == 0 then 0 else 1)
  }

  /** Any run of selections over one list of models chooses as the counter says, and fairly as
      long as the counter does not wrap. */
  method RunRoundRobin(b: LoadBalancer, models: seq<Uuid>, m: nat) returns (picks: seq<nat>)
    requires b.Valid() && models != []
    modifies b`rrIndex
    ensures b.Valid() && |picks| == m
    ensures forall k: nat :: multiset(picks)[k] == Chosen(old(b.Counter(models[0])), m, |models|, k)
    ensures old(b.Counter(models[0])) + m <= WORD ==> Fair(picks, |models|)
  {
    picks := [];
    var n := |models|;
    ghost var start := b.Counter(models[0]);
    for i := 0 to m
      invariant b.Valid() && |picks| == i
      invariant forall k: nat ::
                  multiset(picks)[k] + Chosen(b.Counter(models[0]), m - i, n, k) == Chosen(start, m, n, k)
    {
      var r := b.SelectRoundRobin(models);
      picks := picks + [r.value];
    }
    if start + m <= WORD {
      forall k: nat | k < n
        ensures m / n <= multiset(picks)[k] <= m / n + (if m % n == 0 then 0 else 1)
      {
        RoundRobinIsFair(start, m, n, k);
      }
    }
  }

  ghost predicate AllDifferent(models: seq<Uuid>) {
    forall i, j | 0 <= i < j < |models| :: models[i] != models[j]
  }

  lemma {:induction false} RoutesOneMore(loads: seq<nat>, picks: seq<nat>, middle: seq<nat>, i: nat)
    requires Routes(loads, picks, middle) && IsFirstMinimum(middle, i)
    ensures Routes(loads, picks + [i], middle[i := middle[i] + 1])
    decreases |picks|
  {
    if picks == [] {
      assert (picks + [i])[1..] == [];
    } else {
      assert (picks + [i])[0] == picks[0] && (picks + [i])[1..] == picks[1..] + [i];
      RoutesOneMore(loads[picks[0] := loads[picks[0]] + 1], picks[1..], middle, i);
    }
  }

  lemma {:induction false} LoadsOneMore(live: multiset<Uuid>, models: seq<Uuid>, i: nat)
    requires i < |models|
    ensures RiseTogether(Loads(live, models), Loads(live + multiset{models[i]}, models), models, i)
  {
    var loads, loads' := Loads(live, models), Loads(live + multiset{models[i]}, models);
    forall j | 0 <= j < |models|
      ensures loads'[j] == loads[j] + if models[j] == models[i] then 1 else 0
    {
      assert (live + multiset{models[i]})[models[j]] == live[models[j]] + if models[j] == models[i] then 1 else 0;
    }
    assert loads[i] == live[models[i]];
  }

  // All entries of the model at i have one load, and it rises by one.
  ghost predicate RiseTogether(loads: seq<nat>, loads': seq<nat>, models: seq<Uuid>, i: nat)
    requires i < |models|
  {
    && |loads| == |loads'| == |models|
    && forall j | 0 <= j < |models| ::
         if models[j] == models[i] then loads[j] == loads[i] && loads'[j] == loads[j] + 1 else loads'[j] == loads[j]
  }

  lemma {:induction false} RisingStaysBalanced(loads: seq<nat>, loads': seq<nat>, models: seq<Uuid>, i: nat)
    requires i < |models| && RiseTogether(loads, loads', models, i) && IsFirstMinimum(loads, i) && Balanced(loads)
    ensures Balanced(loads')
  {
    forall j, k | 0 <= j < |loads'| && 0 <= k < |loads'|
      ensures loads'[j] <= loads'[k] + 1
    {
      assert loads[j] <= loads[k] + 1 && loads[i] <= loads[k];
    }
  }

  lemma RisingAlone(loads: seq<nat>, loads': seq<nat>, models: seq<Uuid>, i: nat)
    requires i < |models| && RiseTogether(loads, loads', models, i) && AllDifferent(models)
    ensures loads' == loads[i := loads[i] + 1]
  {
  }

  lemma {:induction false} OneMoreRequest(start: seq<nat>, picks: seq<nat>, live: multiset<Uuid>,
                                          models: seq<Uuid>, i: nat)
    requires i < |models| && IsFirstMinimum(Loads(live, models), i)
    ensures var loads, loads' := Loads(live, models), Loads(live + multiset{models[i]}, models);
            && (AllDifferent(models) && Routes(start, picks, loads) ==> Routes(start, picks + [i], loads'))
            && (Balanced(loads) ==> Balanced(loads'))
  {
    var loads, loads' := Loads(live, models), Loads(live + multiset{models[i]}, models);
    LoadsOneMore(live, models, i);
    if AllDifferent(models) && Routes(start, picks, loads) {
      RoutesOneMore(start, picks, loads, i);
      RisingAlone(loads, loads', models, i);
    }
    if Balanced(loads) {
      RisingStaysBalanced(loads, loads', models, i);
    }
  }

  /** Any run that sends each request to the least busy model and completes none keeps balanced
      loads within one of each other, even over a list that names a model twice; over different
      models it routes by the live guards. */
  method RunLeastBusy(b: LoadBalancer, models: seq<Uuid>, m: nat) returns (picks: seq<nat>)
    requires b.Valid() && models != [] && |b.live| + m < WORD
    modifies b`inFlight, b`live
    ensures b.Valid() && |picks| == m && |b.live| == |old(b.live)| + m
    ensures AllDifferent(models) ==> Routes(Loads(old(b.live), models), picks, Loads(b.live, models))
    ensures Balanced(Loads(old(b.live), models)) ==> Balanced(Loads(b.live, models))
  {
    picks := [];
    ghost var start := Loads(b.live, models);
    for i := 0 to m
      invariant b.Valid() && |picks| == i && |b.live| == |old(b.live)| + i
      invariant AllDifferent(models) ==> Routes(start, picks, Loads(b.live, models))
      invariant Balanced(start) ==> Balanced(Loads(b.live, models))
    {
      var r := b.SelectLeastBusy(models);
      OneMoreRequest(start, picks, b.live, models, r.value);
      var _ := b.IncrementInFlight(models[r.value]);
      picks := picks + [r.value];
    }
  }
}
