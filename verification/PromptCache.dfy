/**
 The prompt cache: a map with expiry times plus a recency queue. Removal and expiry never
 touch the queue, so it holds tombstones. The cache is proved to behave as a plain list of
 live items, least recently used first.
 */
module PromptCaching {
  import opened Wrappers
  import opened Sequences

  type Instant = int

  datatype Entry<V> = Entry(value: V, expiresAt: Instant)
  datatype Item<K, V> = Item(key: K, entry: Entry<V>)

  // ---------------------------------------------------------- the reference: a list

  type Lru<!K, !V> = seq<Item<K, V>>

  ghost predicate Unique<K, V>(l: Lru<K, V>) {
    forall i, j | 0 <= i < j < |l| :: l[i].key != l[j].key
  }

  ghost function Without<K, V>(l: Lru<K, V>, key: K): Lru<K, V> {
    if l == [] then []
    else if l[0].key == key then Without(l[1..], key)
    else [l[0]] + Without(l[1..], key)
  }

  ghost function Unexpired<K, V>(l: Lru<K, V>, now: Instant): (r: Lru<K, V>)
    ensures |r| <= |l|
  {
    if l == [] then []
    else if l[0].entry.expiresAt < now then Unexpired(l[1..], now)
    else [l[0]] + Unexpired(l[1..], now)
  }

  ghost function Find<K, V>(l: Lru<K, V>, key: K): Option<Entry<V>> {
    if l == [] then None
    else if l[0].key == key then Some(l[0].entry)
    else Find(l[1..], key)
  }

  // Drop the least recently used item when a new key would overflow the list.
  ghost function MakeRoom<K, V>(l: Lru<K, V>, key: K, maxSize: nat): Lru<K, V> {
    if Find(l, key).None? && |l| >= maxSize && l != [] then l[1..] else l
  }

  datatype Op<K, V> =
    | Insert(key: K, value: V, ttl: nat)
    | Get(key: K)
    | ContainsKey(key: K)
    | Remove(key: K)
    | Clear
    | EvictExpired

  datatype Output<V> = Done | Value(value: Option<V>) | Present(present: bool) | Count(count: nat)

  ghost function Apply<K, V>(l: Lru<K, V>, maxSize: nat, op: Op<K, V>, now: Instant): (Lru<K, V>, Output<V>) {
    match op
    case Insert(key, value, ttl) =>
      (Without(MakeRoom(l, key, maxSize), key) + [Item(key, Entry(value, now + ttl))], Done)
    case Get(key) =>
      (match Find(l, key)
       case None => (l, Value(None))
       case Some(e) =>
         if e.expiresAt < now then (Without(l, key), Value(None))
         else (Without(l, key) + [Item(key, e)], Value(Some(e.value))))
    case ContainsKey(key) =>
      (match Find(l, key)
       case None => (l, Present(false))
       case Some(e) => if e.expiresAt < now then (Without(l, key), Present(false)) else (l, Present(true)))
    case Remove(key) =>
      (Without(l, key), Value(match Find(l, key) case None => None case Some(e) => Some(e.value)))
    case Clear => ([], Done)
    case EvictExpired => (Unexpired(l, now), Count(|l| - |Unexpired(l, now)|))
  }

  // ------------------------------------------------- laws of the reference list

  lemma {:induction false} WithoutFind<K, V>(l: Lru<K, V>, key: K, other: K)
    ensures Find(Without(l, key), other) == if other == key then None else Find(l, other)
  {
    if l != [] {
      WithoutFind(l[1..], key, other);
    }
  }

  lemma {:induction false} AppendFind<K, V>(l: Lru<K, V>, x: Item<K, V>, key: K)
    ensures Find(l + [x], key)
            == if Find(l, key).Some? then Find(l, key) else if x.key == key then Some(x.entry) else None
  {
    if l != [] {
      assert (l + [x])[1..] == l[1..] + [x];
      AppendFind(l[1..], x, key);
    }
  }

  lemma {:induction false} FindNone<K, V>(l: Lru<K, V>, key: K)
    ensures Find(l, key).None? <==> forall i | 0 <= i < |l| :: l[i].key != key
  {
    if l != [] {
      FindNone(l[1..], key);
      assert forall i | 0 < i < |l| :: l[i] == l[1..][i - 1];
    }
  }

  lemma {:induction false} UnexpiredFind<K, V>(l: Lru<K, V>, now: Instant, key: K)
    requires Unique(l)
    ensures Find(Unexpired(l, now), key)
            == if Find(l, key).Some? && Find(l, key).value.expiresAt < now then None else Find(l, key)
  {
    if l != [] {
      UnexpiredFind(l[1..], now, key);
      FindNone(l[1..], l[0].key);
    }
  }

  // Without and Unexpired keep a subsequence: any property of an item and any order survive.
  ghost predicate Ranked<K(!new), V>(l: Lru<K, V>, rank: K -> int, bound: int) {
    && (forall i | 0 <= i < |l| :: 0 <= rank(l[i].key) < bound)
    && (forall i, j | 0 <= i < j < |l| :: rank(l[i].key) < rank(l[j].key))
  }

  lemma RankedTail<K(!new), V>(l: Lru<K, V>, rank: K -> int, bound: int)
    requires l != [] && Ranked(l, rank, bound)
    ensures Ranked(l[1..], rank, bound)
    ensures forall i | 0 <= i < |l| - 1 :: rank(l[0].key) < rank(l[1..][i].key)
  {
  }

  lemma RankedCons<K(!new), V>(x: Item<K, V>, l: Lru<K, V>, rank: K -> int, bound: int)
    requires Ranked(l, rank, bound) && 0 <= rank(x.key) < bound
    requires forall i | 0 <= i < |l| :: rank(x.key) < rank(l[i].key)
    ensures Ranked([x] + l, rank, bound)
  {
  }

  lemma {:induction false} WithoutKeys<K, V>(l: Lru<K, V>, key: K)
    ensures forall i | 0 <= i < |Without(l, key)| :: Without(l, key)[i] in l && Without(l, key)[i].key != key
    ensures |Without(l, key)| <= |l|
    ensures Find(l, key).Some? ==> |Without(l, key)| < |l|
  {
    if l != [] {
      WithoutKeys(l[1..], key);
    }
  }

  lemma {:induction false} WithoutRanked<K(!new), V>(l: Lru<K, V>, key: K, rank: K -> int, bound: int)
    requires Ranked(l, rank, bound)
    ensures Ranked(Without(l, key), rank, bound)
  {
    if l != [] {
      RankedTail(l, rank, bound);
      WithoutRanked(l[1..], key, rank, bound);
      WithoutKeys(l[1..], key);
      if l[0].key != key {
        RankedCons(l[0], Without(l[1..], key), rank, bound);
      }
    }
  }

  lemma {:induction false} UnexpiredKeys<K, V>(l: Lru<K, V>, now: Instant)
    ensures forall i | 0 <= i < |Unexpired(l, now)| :: Unexpired(l, now)[i] in l
  {
    if l != [] {
      UnexpiredKeys(l[1..], now);
    }
  }

  lemma {:induction false} UnexpiredRanked<K(!new), V>(l: Lru<K, V>, now: Instant, rank: K -> int, bound: int)
    requires Ranked(l, rank, bound)
    ensures Ranked(Unexpired(l, now), rank, bound)
  {
    if l != [] {
      RankedTail(l, rank, bound);
      UnexpiredRanked(l[1..], now, rank, bound);
      UnexpiredKeys(l[1..], now);
      if l[0].entry.expiresAt >= now {
        RankedCons(l[0], Unexpired(l[1..], now), rank, bound);
      }
    }
  }

  // ----------------------------------------------------------- runs of the list

  datatype Timed<K, V> = Timed(op: Op<K, V>, now: Instant)

  // The list after a run from empty; the last operation is the last element.
  ghost function State<K, V>(ops: seq<Timed<K, V>>, maxSize: nat): Lru<K, V> {
    if ops == [] then []
    else Apply(State(Prefix(ops), maxSize), maxSize, Last(ops).op, Last(ops).now).0
  }

  function Prefix<T>(s: seq<T>): seq<T>
    requires s != []
  {
    s[..|s| - 1]
  }

  function Last<T>(s: seq<T>): T
    requires s != []
  {
    s[|s| - 1]
  }

  // An insertion of the key, or a get of it that found a live value.
  ghost predicate Uses<K, V>(l: Lru<K, V>, t: Timed<K, V>, key: K) {
    match t.op
    case Insert(k, _, _) => k == key
    case Get(k) => k == key && Find(l, k).Some? && Find(l, k).value.expiresAt >= t.now
    case _ => false
  }

  // The index of the last use of a key in a run, or -1.
  ghost function LastUse<K, V>(ops: seq<Timed<K, V>>, maxSize: nat, key: K): int {
    if ops == [] then -1
    else if Uses(State(Prefix(ops), maxSize), Last(ops), key) then |ops| - 1
    else LastUse(Prefix(ops), maxSize, key)
  }

  lemma {:induction false} RankedRerank<K(!new), V>(l: Lru<K, V>, rank: K -> int, bound: int, rank': K -> int,
                                                    bound': int)
    requires Ranked(l, rank, bound) && bound <= bound'
    requires forall i | 0 <= i < |l| :: rank'(l[i].key) == rank(l[i].key)
    ensures Ranked(l, rank', bound')
  {
    assert forall i | 0 <= i < |l| :: rank'(l[i].key) == rank(l[i].key);
  }

  lemma RankedSnoc<K(!new), V>(l: Lru<K, V>, x: Item<K, V>, rank: K -> int, bound: int)
    requires Ranked(l, rank, bound) && rank(x.key) == bound >= 0
    ensures Ranked(l + [x], rank, bound + 1)
  {
  }

  lemma {:induction false} MakeRoomRanked<K(!new), V>(l: Lru<K, V>, key: K, maxSize: nat, rank: K -> int, bound: int)
    requires Ranked(l, rank, bound)
    ensures Ranked(MakeRoom(l, key, maxSize), rank, bound)
  {
    if MakeRoom(l, key, maxSize) != l {
      RankedTail(l, rank, bound);
    }
  }

  /** After every run the list is ordered by last use: the item at the front is the one
      whose last insertion or successful get is oldest. */
  lemma {:induction false} OrderedByLastUse<K(!new), V>(ops: seq<Timed<K, V>>, maxSize: nat)
    ensures Ranked(State(ops, maxSize), k => LastUse(ops, maxSize, k), |ops|)
  {
    if ops != [] {
      OrderedByLastUse(Prefix(ops), maxSize);
      StepRanked(State(Prefix(ops), maxSize), maxSize, Last(ops),
        k => LastUse(Prefix(ops), maxSize, k), k => LastUse(ops, maxSize, k), |ops| - 1);
    }
  }

  // One operation keeps the order, if the keys it uses become the most recent.
  lemma {:induction false} StepRanked<K(!new), V>(l: Lru<K, V>, maxSize: nat, t: Timed<K, V>, rank: K -> int,
                                                  rank': K -> int, bound: nat)
    requires Ranked(l, rank, bound)
    requires forall k :: rank'(k) == if Uses(l, t, k) then bound else rank(k)
    ensures Ranked(Apply(l, maxSize, t.op, t.now).0, rank', bound + 1)
  {
    match t.op
    case Insert(key, value, ttl) =>
      MakeRoomRanked(l, key, maxSize, rank, bound);
      MoveToBack(MakeRoom(l, key, maxSize), key, Entry(value, t.now + ttl), rank, rank', bound);
    case Get(key) => GetRanked(l, key, t.now, maxSize, rank, rank', bound);
    case ContainsKey(key) => KeptRanked(l, key, rank, bound, rank', bound + 1);
    case Remove(key) => KeptRanked(l, key, rank, bound, rank', bound + 1);
    case Clear =>
    case EvictExpired =>
      UnexpiredRanked(l, t.now, rank, bound);
      RankedRerank(Unexpired(l, t.now), rank, bound, rank', bound + 1);
  }

  lemma {:induction false} GetRanked<K(!new), V>(l: Lru<K, V>, key: K, now: Instant, maxSize: nat,
                              rank: K -> int, rank': K -> int, bound: nat)
    requires Ranked(l, rank, bound)
    requires forall k :: rank'(k) == if Uses(l, Timed(Get(key), now), k) then bound else rank(k)
    ensures Ranked(Apply(l, maxSize, Get(key), now).0, rank', bound + 1)
  {
    if Uses(l, Timed(Get(key), now), key) {
      MoveToBack(l, key, Find(l, key).value, rank, rank', bound);
    } else {
      KeptRanked(l, key, rank, bound, rank', bound + 1);
    }
  }

  // Nothing was used: the list, or the list without a key, keeps its order.
  lemma {:induction false} KeptRanked<K(!new), V>(l: Lru<K, V>, key: K, rank: K -> int, bound: int,
                                                  rank': K -> int, bound': int)
    requires Ranked(l, rank, bound) && bound <= bound' && forall k :: rank'(k) == rank(k)
    ensures Ranked(l, rank', bound') && Ranked(Without(l, key), rank', bound')
  {
    WithoutRanked(l, key, rank, bound);
    RankedRerank(l, rank, bound, rank', bound');
    RankedRerank(Without(l, key), rank, bound, rank', bound');
  }

  lemma {:induction false} MoveToBack<K(!new), V>(l: Lru<K, V>, key: K, e: Entry<V>, rank: K -> int,
                                                  rank': K -> int, bound: nat)
    requires Ranked(l, rank, bound)
    requires rank'(key) == bound && forall k | k != key :: rank'(k) == rank(k)
    ensures Ranked(Without(l, key) + [Item(key, e)], rank', bound + 1)
  {
    WithoutRanked(l, key, rank, bound);
    WithoutKeys(l, key);
    RankedRerank(Without(l, key), rank, bound, rank', bound);
    RankedSnoc(Without(l, key), Item(key, e), rank', bound);
  }

  lemma {:induction false} RankedIsUnique<K(!new), V>(l: Lru<K, V>, rank: K -> int, bound: int)
    requires Ranked(l, rank, bound)
    ensures Unique(l)
  {
    forall i, j | 0 <= i < j < |l|
      ensures l[i].key != l[j].key
    {
      assert rank(l[i].key) < rank(l[j].key);
    }
  }

  /** An insertion into a full cache drops exactly one key, and it is the key whose last use is oldest. */
  lemma {:induction false} EvictsLeastRecentlyUsed<K(!new), V>(ops: seq<Timed<K, V>>, maxSize: nat, key: K, k: K)
    requires var l := State(ops, maxSize); l != [] && Find(l, key).None? && |l| >= maxSize && Find(l, k).Some?
    ensures var l := State(ops, maxSize);
            && (Find(MakeRoom(l, key, maxSize), k) == if k == l[0].key then None else Find(l, k))
            && (k != l[0].key ==> LastUse(ops, maxSize, l[0].key) < LastUse(ops, maxSize, k))
  {
    var l := State(ops, maxSize);
    var rank := k => LastUse(ops, maxSize, k);
    OrderedByLastUse(ops, maxSize);
    RankedIsUnique(l, rank, |ops|);
    FindNone(l[1..], k);
    FindNone(l, k);
    var i :| 0 <= i < |l| && l[i].key == k;
    assert i > 0 ==> rank(l[0].key) < rank(l[i].key);
  }

  /** The list never grows past its maximum (a maximum of zero still admits one item). */
  lemma {:induction false} SizeBound<K, V>(ops: seq<Timed<K, V>>, maxSize: nat)
    ensures |State(ops, maxSize)| <= if maxSize == 0 then 1 else maxSize
  {
    if ops != [] {
      SizeBound(Prefix(ops), maxSize);
      var l, t := State(Prefix(ops), maxSize), Last(ops);
      match t.op
      case Insert(key, _, _) =>
        WithoutKeys(MakeRoom(l, key, maxSize), key);
      case Get(key) =>
        WithoutKeys(l, key);
      case ContainsKey(key) =>
        WithoutKeys(l, key);
      case Remove(key) =>
        WithoutKeys(l, key);
      case _ =>
    }
  }

  // The operation takes the key out of the list, for one of the reasons the cache has:
  // capacity, removal, clearing, or an expiry that was noticed.
  ghost predicate Drops<K, V>(l: Lru<K, V>, maxSize: nat, t: Timed<K, V>, key: K) {
    var expired := Find(l, key).Some? && Find(l, key).value.expiresAt < t.now;
    match t.op
    case Insert(k, _, _) => k != key && Find(l, k).None? && |l| >= maxSize && l != [] && l[0].key == key
    case Get(k) => k == key && expired
    case ContainsKey(k) => k == key && expired
    case Remove(k) => k == key
    case Clear => true
    case EvictExpired => expired
  }

  // An operation inserts a new entry under the key, drops the old one, or leaves it.
  ghost function NextEntry<K, V>(l: Lru<K, V>, maxSize: nat, t: Timed<K, V>, key: K, e: Option<Entry<V>>)
    : Option<Entry<V>>
  {
    if t.op.Insert? && t.op.key == key then Some(Entry(t.op.value, t.now + t.op.ttl))
    else if Drops(l, maxSize, t, key) then None
    else e
  }

  // What the history of a run says about a key: the last value inserted, unless dropped since.
  ghost function History<K, V>(ops: seq<Timed<K, V>>, maxSize: nat, key: K): Option<Entry<V>> {
    if ops == [] then None
    else NextEntry(State(Prefix(ops), maxSize), maxSize, Last(ops), key, History(Prefix(ops), maxSize, key))
  }

  /** The cache holds exactly the last value inserted under a key that was not dropped since. */
  lemma {:induction false} HoldsLastInserted<K(!new), V>(ops: seq<Timed<K, V>>, maxSize: nat, key: K)
    ensures Find(State(ops, maxSize), key) == History(ops, maxSize, key)
  {
    if ops != [] {
      HoldsLastInserted(Prefix(ops), maxSize, key);
      StateIsUnique(Prefix(ops), maxSize);
      StepFind(State(Prefix(ops), maxSize), maxSize, Last(ops), key);
    }
  }

  lemma {:induction false} StateIsUnique<K(!new), V>(ops: seq<Timed<K, V>>, maxSize: nat)
    ensures Unique(State(ops, maxSize))
  {
    OrderedByLastUse(ops, maxSize);
    RankedIsUnique(State(ops, maxSize), k => LastUse(ops, maxSize, k), |ops|);
  }

  // What one operation does to what is found under a key.
  lemma {:induction false} StepFind<K, V>(l: Lru<K, V>, maxSize: nat, t: Timed<K, V>, key: K)
    requires Unique(l)
    ensures Find(Apply(l, maxSize, t.op, t.now).0, key)
            == NextEntry(l, maxSize, t, key, Find(l, key))
  {
    match t.op
    case Insert(k, value, ttl) => InsertFind(l, maxSize, k, Entry(value, t.now + ttl), key);
    case Get(k) =>
      WithoutFind(l, k, key);
      if Find(l, k).Some? {
        AppendFind(Without(l, k), Item(k, Find(l, k).value), key);
      }
    case ContainsKey(k) => WithoutFind(l, k, key);
    case Remove(k) => WithoutFind(l, k, key);
    case Clear =>
    case EvictExpired => UnexpiredFind(l, t.now, key);
  }

  lemma {:induction false} InsertFind<K, V>(l: Lru<K, V>, maxSize: nat, k: K, e: Entry<V>, key: K)
    requires Unique(l)
    ensures Find(Without(MakeRoom(l, k, maxSize), k) + [Item(k, e)], key)
            == if key == k then Some(e)
               else if Find(l, k).None? && |l| >= maxSize && l != [] && l[0].key == key then None
               else Find(l, key)
  {
    var room := MakeRoom(l, k, maxSize);
    if room != l {
      FindNone(l[1..], l[0].key);
    }
    WithoutFind(room, k, key);
    AppendFind(Without(room, k), Item(k, e), key);
  }

  /** So a get returns a value iff that value is the last one inserted, not dropped and not expired. */
  lemma {:induction false} GetReturnsLastInserted<K(!new), V>(ops: seq<Timed<K, V>>, maxSize: nat, key: K, now: Instant)
    ensures var h := History(ops, maxSize, key);
            Apply(State(ops, maxSize), maxSize, Get(key), now).1
            == Value(if h.Some? && h.value.expiresAt >= now then Some(h.value.value) else None)
  {
    HoldsLastInserted(ops, maxSize, key);
  }

  /** The other answers over every run: a key is reported present iff the last value inserted was
      not dropped and is not expired; and a removal hands out that value, expired or not. */
  lemma {:induction false} AnswersFollowHistory<K(!new), V>(ops: seq<Timed<K, V>>, maxSize: nat, key: K, now: Instant)
    ensures var h, l := History(ops, maxSize, key), State(ops, maxSize);
            && Apply(l, maxSize, ContainsKey(key), now).1 == Present(h.Some? && h.value.expiresAt >= now)
            && Apply(l, maxSize, Remove(key), now).1 == Value(if h.Some? then Some(h.value.value) else None)
  {
    HoldsLastInserted(ops, maxSize, key);
  }

  ghost function ExpiredKeys<K, V>(l: Lru<K, V>, now: Instant): set<K> {
    set i | 0 <= i < |l| && l[i].entry.expiresAt < now :: l[i].key
  }

  lemma {:induction false} ExpiredIsFound<K, V>(l: Lru<K, V>, now: Instant, key: K)
    requires Unique(l)
    ensures key in ExpiredKeys(l, now) <==> Find(l, key).Some? && Find(l, key).value.expiresAt < now
  {
    if l != [] {
      ExpiredIsFound(l[1..], now, key);
      ExpiredTail(l, now);
    }
  }

  lemma {:induction false} ExpiredTail<K, V>(l: Lru<K, V>, now: Instant)
    requires l != [] && Unique(l)
    ensures ExpiredKeys(l, now) == ExpiredKeys(l[1..], now) + if l[0].entry.expiresAt < now then {l[0].key} else {}
    ensures l[0].key !in ExpiredKeys(l[1..], now)
  {
    forall key
      ensures key in ExpiredKeys(l, now)
              <==> key in ExpiredKeys(l[1..], now) || (l[0].entry.expiresAt < now && key == l[0].key)
    {
      if key in ExpiredKeys(l, now) {
        var i :| 0 <= i < |l| && l[i].entry.expiresAt < now && l[i].key == key;
        assert i > 0 ==> l[1..][i - 1] == l[i];
      }
      if key in ExpiredKeys(l[1..], now) {
        var i :| 0 <= i < |l| - 1 && l[1..][i].entry.expiresAt < now && l[1..][i].key == key;
        assert l[i + 1] == l[1..][i];
      }
    }
  }

  lemma {:induction false} ExpiredAreCounted<K, V>(l: Lru<K, V>, now: Instant)
    requires Unique(l)
    ensures |l| - |Unexpired(l, now)| == |ExpiredKeys(l, now)|
  {
    if l != [] {
      ExpiredAreCounted(l[1..], now);
      ExpiredTail(l, now);
    }
  }

  /** Evicting reports how many keys hold an expired value. */
  lemma {:induction false} EvictionCountsExpired<K(!new), V>(ops: seq<Timed<K, V>>, maxSize: nat, now: Instant)
    ensures var expired := ExpiredKeys(State(ops, maxSize), now);
            && (forall key ::
                  key in expired
                  <==> History(ops, maxSize, key).Some? && History(ops, maxSize, key).value.expiresAt < now)
            && Apply(State(ops, maxSize), maxSize, EvictExpired, now).1 == Count(|expired|)
  {
    var l := State(ops, maxSize);
    StateIsUnique(ops, maxSize);
    forall key
      ensures key in ExpiredKeys(l, now)
              <==> History(ops, maxSize, key).Some? && History(ops, maxSize, key).value.expiresAt < now
    {
      HoldsLastInserted(ops, maxSize, key);
      ExpiredIsFound(l, now, key);
    }
    ExpiredAreCounted(l, now);
  }

  // ------------------------------------------------ abstraction of map and queue

  // The queue, filtered to the keys that are live in the map.
  ghost function Live<K, V>(cache: map<K, Entry<V>>, queue: seq<K>): Lru<K, V> {
    if queue == [] then []
    else if queue[0] in cache then [Item(queue[0], cache[queue[0]])] + Live(cache, queue[1..])
    else Live(cache, queue[1..])
  }

  ghost function Dequeued<K>(queue: seq<K>, key: K): seq<K> {
    if queue == [] then []
    else if queue[0] == key then Dequeued(queue[1..], key)
    else [queue[0]] + Dequeued(queue[1..], key)
  }

  ghost predicate NoDuplicates<T>(s: seq<T>) {
    forall i, j | 0 <= i < j < |s| :: s[i] != s[j]
  }

  lemma {:induction false} DequeuedKeys<K>(queue: seq<K>, key: K)
    ensures forall k :: k in Dequeued(queue, key) <==> k in queue && k != key
    ensures key !in queue ==> Dequeued(queue, key) == queue
  {
    if queue != [] {
      DequeuedKeys(queue[1..], key);
    }
  }

  lemma {:induction false} DequeuedNoDuplicates<K>(queue: seq<K>, key: K)
    requires NoDuplicates(queue)
    ensures NoDuplicates(Dequeued(queue, key))
  {
    if queue != [] {
      DequeuedNoDuplicates(queue[1..], key);
      DequeuedKeys(queue[1..], key);
      var d := Dequeued(queue[1..], key);
      assert forall i | 0 <= i < |d| :: d[i] in d;
    }
  }

  lemma {:induction false} LiveAppend<K, V>(cache: map<K, Entry<V>>, queue: seq<K>, key: K)
    ensures Live(cache, queue + [key]) == Live(cache, queue) + if key in cache then [Item(key, cache[key])] else []
  {
    if queue == [] {
      assert queue + [key] == [key];
    } else {
      assert (queue + [key])[1..] == queue[1..] + [key];
      LiveAppend(cache, queue[1..], key);
    }
  }

  lemma {:induction false} LiveDequeued<K, V>(cache: map<K, Entry<V>>, queue: seq<K>, key: K)
    ensures Live(cache, Dequeued(queue, key)) == Without(Live(cache, queue), key)
  {
    if queue != [] {
      LiveDequeued(cache, queue[1..], key);
      if queue[0] != key {
        var d := Dequeued(queue[1..], key);
        assert ([queue[0]] + d)[1..] == d;
      }
    }
  }

  // Live depends on the map only at keys in the queue.
  lemma {:induction false} LiveSame<K, V>(cache: map<K, Entry<V>>, cache': map<K, Entry<V>>, queue: seq<K>)
    requires forall k | k in queue :: (k in cache <==> k in cache') && (k in cache ==> cache[k] == cache'[k])
    ensures Live(cache, queue) == Live(cache', queue)
  {
    if queue != [] {
      LiveSame(cache, cache', queue[1..]);
    }
  }

  lemma {:induction false} LiveRemove<K, V>(cache: map<K, Entry<V>>, queue: seq<K>, key: K)
    ensures Live(cache - {key}, queue) == Without(Live(cache, queue), key)
  {
    if queue != [] {
      LiveRemove(cache, queue[1..], key);
    }
  }

  lemma {:induction false} LiveFind<K, V>(cache: map<K, Entry<V>>, queue: seq<K>, key: K)
    ensures Find(Live(cache, queue), key) == if key in queue && key in cache then Some(cache[key]) else None
  {
    if queue != [] {
      LiveFind(cache, queue[1..], key);
    }
  }

  lemma {:induction false} LiveSize<K, V>(cache: map<K, Entry<V>>, queue: seq<K>)
    requires NoDuplicates(queue) && forall k | k in cache :: k in queue
    ensures |Live(cache, queue)| == |cache|
  {
    if queue == [] {
      assert cache == map[];
    } else {
      var k := queue[0];
      var rest := cache - {k};
      assert forall i | 0 <= i < |queue| - 1 :: queue[1..][i] == queue[i + 1] != k;
      LiveSize(rest, queue[1..]);
      LiveSame(cache, rest, queue[1..]);
      assert rest.Keys == cache.Keys - {k};
      assert |rest| == |rest.Keys| && |cache| == |cache.Keys|;
    }
  }

  lemma {:induction false} LiveUnexpired<K, V>(cache: map<K, Entry<V>>, kept: map<K, Entry<V>>,
                                               queue: seq<K>, now: Instant)
    requires forall k :: k in kept <==> k in cache && cache[k].expiresAt >= now
    requires forall k | k in kept :: kept[k] == cache[k]
    ensures Live(kept, queue) == Unexpired(Live(cache, queue), now)
  {
    if queue != [] {
      LiveUnexpired(cache, kept, queue[1..], now);
    }
  }

  lemma {:induction false} EvictedView<K, V>(cache: map<K, Entry<V>>, queue: seq<K>, expired: set<K>, now: Instant)
    requires NoDuplicates(queue) && (forall k | k in cache :: k in queue)
    requires forall k :: k in expired <==> k in cache && cache[k].expiresAt < now
    ensures Live(cache - expired, queue) == Unexpired(Live(cache, queue), now)
    ensures |Live(cache, queue)| - |Unexpired(Live(cache, queue), now)| == |expired|
  {
    var kept := cache - expired;
    LiveUnexpired(cache, kept, queue, now);
    LiveSize(cache, queue);
    LiveSize(kept, queue);
    assert kept.Keys == cache.Keys - expired && expired <= cache.Keys;
    assert |kept.Keys| == |cache.Keys| - |expired|;
  }

  lemma {:induction false} LiveInserted<K, V>(cache: map<K, Entry<V>>, queue: seq<K>, key: K, e: Entry<V>)
    ensures Live(cache[key := e], Dequeued(queue, key) + [key]) == Without(Live(cache, queue), key) + [Item(key, e)]
  {
    DequeuedKeys(queue, key);
    LiveSame(cache, cache[key := e], Dequeued(queue, key));
    LiveDequeued(cache, queue, key);
    LiveAppend(cache[key := e], Dequeued(queue, key), key);
  }

  // ------------------------------------------------------------------- the cache

  class PromptCache<K(==,!new), V> {
    var cache: map<K, Entry<V>>
    var lruOrder: seq<K>
    const maxSize: nat

    ghost predicate Valid()
      reads this
    {
      NoDuplicates(lruOrder) && forall k | k in cache :: k in lruOrder
    }

    ghost function View(): Lru<K, V>
      reads this
    {
      Live(cache, lruOrder)
    }

    constructor (maxSize: nat)
      ensures Valid() && View() == [] && this.maxSize == maxSize
    {
      cache, lruOrder, this.maxSize := map[], [], maxSize;
    }

    // Pop the queue until a live key comes out, and remove that one.
    method EvictLru()
      requires Valid()
      modifies this
      ensures Valid() && View() == if old(View()) == [] then [] else old(View())[1..]
      ensures cache.Keys <= old(cache).Keys && |cache| == if |old(cache)| == 0 then 0 else |old(cache)| - 1
    {
      LiveSize(cache, lruOrder);
      while lruOrder != []
        invariant Valid() && cache == old(cache) && View() == old(View())
        decreases |lruOrder|
      {
        var key := lruOrder[0];
        ghost var rest := lruOrder[1..];
        assert key !in rest;
        lruOrder := lruOrder[1..];
        if key in cache {
          LiveSame(cache, cache - {key}, rest);
          cache := cache - {key};
          assert forall k | k in cache :: k in rest;
          break;
        }
      }
      LiveSize(cache, lruOrder);
    }

    method UpdateLruAccess(key: K)
      requires NoDuplicates(lruOrder)
      modifies this`lruOrder
      ensures lruOrder == Dequeued(old(lruOrder), key) + [key]
      ensures NoDuplicates(lruOrder) && forall k :: k in lruOrder <==> k in old(lruOrder) || k == key
    {
      DequeuedKeys(lruOrder, key);
      DequeuedNoDuplicates(lruOrder, key);
      var pos := 0;
      while pos < |lruOrder| && lruOrder[pos] != key
        invariant pos <= |lruOrder| && key !in lruOrder[..pos]
        invariant lruOrder == old(lruOrder)
      {
        pos := pos + 1;
      }
      if pos < |lruOrder| {
        DequeuedAt(lruOrder, pos);
        lruOrder := lruOrder[..pos] + lruOrder[pos + 1..];
      }
      lruOrder := lruOrder + [key];
    }

    method InsertWithTtl(key: K, value: V, ttl: nat, now: Instant)
      requires Valid()
      modifies this
      ensures Valid() && View() == Apply(old(View()), maxSize, Insert(key, value, ttl), now).0
    {
      LiveFind(cache, lruOrder, key);
      LiveSize(cache, lruOrder);
      if key !in cache && |cache| >= maxSize {
        EvictLru();
      }
      ghost var room := View();
      assert room == MakeRoom(old(View()), key, maxSize);
      InsertEntry(key, Entry(value, now + ttl));
      assert View() == Without(room, key) + [Item(key, Entry(value, now + ttl))];
    }

    // Replace the map entry and move the key to the back of the queue.
    method InsertEntry(key: K, e: Entry<V>)
      requires Valid()
      modifies this
      ensures Valid() && View() == Without(old(View()), key) + [Item(key, e)]
    {
      LiveInserted(cache, lruOrder, key, e);
      assert (cache - {key})[key := e] == cache[key := e];
      cache := cache - {key};
      cache := cache[key := e];
      UpdateLruAccess(key);
    }

    method Get(key: K, now: Instant) returns (r: Option<V>)
      requires Valid()
      modifies this
      ensures Valid() && (View(), Value(r)) == Apply(old(View()), maxSize, Op.Get(key), now)
    {
      LiveFind(cache, lruOrder, key);
      if key !in cache {
        return None;
      }
      if cache[key].expiresAt < now {
        LiveRemove(cache, lruOrder, key);
        cache := cache - {key};
        return None;
      }
      ghost var queue := lruOrder;
      UpdateLruAccess(key);
      LiveDequeued(cache, queue, key);
      LiveAppend(cache, Dequeued(queue, key), key);
      r := Some(cache[key].value);
    }

    method ContainsKey(key: K, now: Instant) returns (r: bool)
      requires Valid()
      modifies this
      ensures Valid() && (View(), Present(r)) == Apply(old(View()), maxSize, Op.ContainsKey(key), now)
    {
      LiveFind(cache, lruOrder, key);
      if key !in cache {
        return false;
      }
      if cache[key].expiresAt >= now {
        return true;
      }
      LiveRemove(cache, lruOrder, key);
      cache := cache - {key};
      r := false;
    }

    method Remove(key: K) returns (r: Option<V>)
      requires Valid()
      modifies this
      ensures Valid() && forall now :: (View(), Value(r)) == Apply(old(View()), maxSize, Op.Remove(key), now)
    {
      LiveFind(cache, lruOrder, key);
      LiveRemove(cache, lruOrder, key);
      r := if key in cache then Some(cache[key].value) else None;
      cache := cache - {key};
    }

    method Clear()
      modifies this
      ensures Valid() && View() == []
    {
      cache := map[];
      lruOrder := [];
    }

    // The keys are collected first, in whatever order the map iterates.
    method EvictExpired(now: Instant) returns (evicted: nat)
      requires Valid()
      modifies this
      ensures Valid() && (View(), Count(evicted)) == Apply(old(View()), maxSize, Op.EvictExpired, now)
    {
      var keys := set k | k in cache && cache[k].expiresAt < now;
      EvictedView(cache, lruOrder, keys, now);
      evicted := RemoveAll(keys);
    }

    method RemoveAll(collected: set<K>) returns (removed: nat)
      modifies this`cache
      ensures cache == old(cache) - collected && removed == |collected|
    {
      removed := 0;
      var keys := collected;
      while keys != {}
        invariant keys <= collected && cache == old(cache) - (collected - keys) && removed == |collected| - |keys|
        decreases keys
      {
        var key :| key in keys;
        assert collected - (keys - {key}) == (collected - keys) + {key};
        cache := cache - {key};
        keys := keys - {key};
        removed := removed + 1;
      }
    }

    method Len() returns (n: nat)
      requires Valid()
      ensures n == |View()|
    {
      LiveSize(cache, lruOrder);
      n := |cache|;
    }

    method Perform(op: Op<K, V>, now: Instant) returns (out: Output<V>)
      requires Valid()
      modifies this
      ensures Valid() && (View(), out) == Apply(old(View()), maxSize, op, now)
    {
      match op
      case Insert(key, value, ttl) =>
        InsertWithTtl(key, value, ttl, now);
        out := Done;
      case Get(key) =>
        var r := Get(key, now);
        out := Value(r);
      case ContainsKey(key) =>
        var r := ContainsKey(key, now);
        out := Present(r);
      case Remove(key) =>
        var r := Remove(key);
        out := Value(r);
      case Clear =>
        Clear();
        out := Done;
      case EvictExpired =>
        var n := EvictExpired(now);
        out := Count(n);
    }
  }

  lemma {:induction false} DequeuedAt<K>(queue: seq<K>, pos: nat)
    requires pos < |queue| && NoDuplicates(queue)
    ensures Dequeued(queue, queue[pos]) == queue[..pos] + queue[pos + 1..]
    decreases pos
  {
    if pos == 0 {
      assert queue[0] !in queue[1..];
      DequeuedKeys(queue[1..], queue[0]);
    } else {
      assert queue[1..][pos - 1] == queue[pos];
      DequeuedAt(queue[1..], pos - 1);
      assert queue[1..][..pos - 1] == queue[1..pos];
      assert queue[1..][pos..] == queue[pos + 1..];
    }
  }

  ghost function Outputs<K, V>(l: Lru<K, V>, maxSize: nat, ops: seq<Timed<K, V>>): (Lru<K, V>, seq<Output<V>>)
    decreases |ops|
  {
    if ops == [] then (l, [])
    else
      var (l', out) := Apply(l, maxSize, ops[0].op, ops[0].now);
      var (l'', outs) := Outputs(l', maxSize, ops[1..]);
      (l'', [out] + outs)
  }

  lemma {:induction false} OutputsAppend<K, V>(l: Lru<K, V>, maxSize: nat, ops: seq<Timed<K, V>>, t: Timed<K, V>)
    ensures var (l', outs) := Outputs(l, maxSize, ops);
            var (l'', out) := Apply(l', maxSize, t.op, t.now);
            Outputs(l, maxSize, ops + [t]) == (l'', outs + [out])
    decreases |ops|
  {
    if ops == [] {
      assert ops + [t] == [t];
      var (l'', out) := Apply(l, maxSize, t.op, t.now);
      assert Outputs(l'', maxSize, [t][1..]) == (l'', []);
      assert [out] + [] == [] + [out];
    } else {
      assert (ops + [t])[1..] == ops[1..] + [t];
      var (m, first) := Apply(l, maxSize, ops[0].op, ops[0].now);
      OutputsAppend(m, maxSize, ops[1..], t);
      var (l', rest) := Outputs(m, maxSize, ops[1..]);
      var out := Apply(l', maxSize, t.op, t.now).1;
      assert [first] + (rest + [out]) == ([first] + rest) + [out];
    }
  }

  /** A run from an empty cache ends in the state that the history laws speak about, and its
      last output is the last operation's output in the state before it. */
  lemma {:induction false} RunReachesState<K, V>(ops: seq<Timed<K, V>>, maxSize: nat)
    ensures var (l, outs) := Outputs([], maxSize, ops);
            && l == State(ops, maxSize) && |outs| == |ops|
            && (ops != [] ==>
                  Last(outs) == Apply(State(Prefix(ops), maxSize), maxSize, Last(ops).op, Last(ops).now).1)
  {
    if ops != [] {
      RunReachesState(Prefix(ops), maxSize);
      OutputsAppend([], maxSize, Prefix(ops), Last(ops));
      assert Prefix(ops) + [Last(ops)] == ops;
    }
  }

  lemma {:induction false} OutputsStep<K, V>(l: Lru<K, V>, maxSize: nat, ops: seq<Timed<K, V>>, i: nat,
                                             before: seq<Output<V>>)
    requires i < |ops|
    ensures var (l', out) := Apply(l, maxSize, ops[i].op, ops[i].now);
            var (end, rest) := Outputs(l, maxSize, ops[i..]);
            var (end', rest') := Outputs(l', maxSize, ops[i + 1..]);
            end == end' && before + rest == (before + [out]) + rest'
  {
    var (l', out) := Apply(l, maxSize, ops[i].op, ops[i].now);
    assert ops[i..][1..] == ops[i + 1..];
    Concat3(before, [out], Outputs(l', maxSize, ops[i + 1..]).1);
  }

  /** Any run of the real cache shows the outputs of the eager list, and ends in its state. */
  method RunCache<K(==,!new), V>(c: PromptCache<K, V>, ops: seq<Timed<K, V>>) returns (outs: seq<Output<V>>)
    requires c.Valid()
    modifies c
    ensures c.Valid() && (c.View(), outs) == Outputs(old(c.View()), c.maxSize, ops)
  {
    outs := [];
    assert ops[0..] == ops;
    Concat0(Outputs(c.View(), c.maxSize, ops).1);
    for i := 0 to |ops|
      invariant c.Valid()
      invariant var (l, rest) := Outputs(c.View(), c.maxSize, ops[i..]);
                (l, outs + rest) == Outputs(old(c.View()), c.maxSize, ops)
    {
      OutputsStep(c.View(), c.maxSize, ops, i, outs);
      var out := c.Perform(ops[i].op, ops[i].now);
      outs := outs + [out];
    }
    Concat0(outs);
  }
}
