/** The replacement policy of fastest_addr.rs on top of the cache. */
module FastestPolicy {
  import opened Wire
  import opened LruCache
  import LruRuns

  const CACHE_TTL_MS := 600_000
  const U64_MAX := 0xFFFF_FFFF_FFFF_FFFF

  function ExpireAt(now: nat): nat {
    if now + CACHE_TTL_MS > U64_MAX then U64_MAX else now + CACHE_TTL_MS
  }

  function AfterFailure(c: Lru, k: Key, now: nat): Lru {
    var looked := AfterGet(c, k, now);
    if GetResult(c, k, now).Some? then looked
    else AfterUpsert(looked, k, Entry(Failure, 0, ExpireAt(now)))
  }

  function AfterSuccess(c: Lru, k: Key, latency: uint32, now: nat): Lru {
    var looked := AfterGet(c, k, now);
    var replace := match GetResult(c, k, now)
                   case None => true
                   case Some(e) => e.status == Failure || latency < e.latencyMs;
    if replace then AfterUpsert(looked, k, Entry(Success, latency, ExpireAt(now))) else looked
  }

  method StoreFastestFailure(cache: FastestIpCache, k: Key, now: nat)
    requires cache.Valid()
    modifies cache
    ensures cache.Valid() && cache.Abs() == AfterFailure(old(cache.Abs()), k, now)
  {
    var existing := cache.Get(k, now);
    if existing.Some? {
      return;
    }
    cache.Upsert(k, Entry(Failure, 0, ExpireAt(now)));
  }

  method StoreFastestSuccess(cache: FastestIpCache, k: Key, latency: uint32, now: nat)
    requires cache.Valid()
    modifies cache
    ensures cache.Valid() && cache.Abs() == AfterSuccess(old(cache.Abs()), k, latency, now)
  {
    var existing := cache.Get(k, now);
    var replace := match existing
                   case None => true
                   case Some(e) => e.status == Failure || latency < e.latencyMs;
    if replace {
      cache.Upsert(k, Entry(Success, latency, ExpireAt(now)));
    }
  }

  // ---------------------------------------------------------------- runs

  datatype Op =
    | StoreSuccess(key: Key, latency: uint32, nowMs: nat)
    | StoreFailure(key: Key, nowMs: nat)
    | Load(key: Key, nowMs: nat)

  /** Beside the cache, the latencies of successful pings stored for each held key since it became resident. */
  datatype Run = Run(cache: Lru, pings: map<Key, seq<uint32>>)

  function Stored(c: Lru, op: Op): Lru {
    match op
    case StoreSuccess(k, latency, now) => AfterSuccess(c, k, latency, now)
    case StoreFailure(k, now) => AfterFailure(c, k, now)
    case Load(k, now) => AfterGet(c, k, now)
  }

  /** The pings of the operation's key: its history goes on only if the key was resident and unexpired. */
  function History(r: Run, op: Op): seq<uint32> {
    var before := if GetResult(r.cache, op.key, op.nowMs).Some? && op.key in r.pings then r.pings[op.key] else [];
    if op.StoreSuccess? then before + [op.latency] else before
  }

  function Step(r: Run, op: Op): Run {
    var c := Stored(r.cache, op);
    Run(c, map k | k in c.held :: if k == op.key || k !in r.pings then History(r, op) else r.pings[k])
  }

  function Exec(maxSize: nat, ops: seq<Op>): Run
    decreases |ops|
  {
    if |ops| == 0 then Run(Lru(if maxSize > 1 then maxSize else 1, [], map[]), map[])
    else Step(Exec(maxSize, ops[..|ops| - 1]), ops[|ops| - 1])
  }

  /** The entry a history of successful pings calls for: Failure when empty, else the least latency. */
  ghost predicate Reflects(e: Entry, pings: seq<uint32>) {
    && (e.status == Failure <==> |pings| == 0)
    && (|pings| > 0 ==> e.latencyMs in pings && forall p :: p in pings ==> e.latencyMs <= p)
  }

  ghost predicate Inv(r: Run) {
    && Coherent(r.cache) && r.pings.Keys == r.cache.held.Keys
    && (forall k :: k in r.cache.held ==> Reflects(r.cache.held[k], r.pings[k]))
  }

  /** A lookup keeps every other key, and its own exactly when it hits. */
  lemma {:induction false} LookupKeeps(c: Lru, k: Key, now: nat)
    requires Coherent(c)
    ensures var d := AfterGet(c, k, now);
            && Coherent(d) && (k in d.held <==> GetResult(c, k, now).Some?)
            && (forall x :: x in d.held ==> x in c.held && d.held[x] == c.held[x])
  {
    hide Without;
    GetCoherent(c, k, now);
    if k in c.held {
      RemovedCoherent(c, k);
    }
  }

  lemma {:induction false} UpsertKeeps(c: Lru, k: Key, e: Entry)
    requires Coherent(c)
    ensures var d := AfterUpsert(c, k, e);
            && Coherent(d) && k in d.held && d.held[k] == e
            && (forall x :: x in d.held && x != k ==> x in c.held && d.held[x] == c.held[x])
  {
    hide AfterUpsert, Coherent;
    UpsertCoherent(c, k, e);
  }

  /** Ten minutes from now, at the end of the 64-bit clock no later than its last reading. */
  function TenMinutesFrom(now: nat): nat {
    if now + 600_000 > 0xFFFF_FFFF_FFFF_FFFF then 0xFFFF_FFFF_FFFF_FFFF else now + 600_000
  }

  /** `k` has an entry that has not expired. */
  predicate Live(c: Lru, k: Key, now: nat) {
    k in c.held && c.held[k].expireAtMs > now
  }

  /** What each kind of store leaves under its own key, expiry included. */
  lemma {:induction false} StoresUnderKey(c: Lru, k: Key, latency: uint32, now: nat)
    requires Coherent(c)
    ensures var d := Stored(c, StoreFailure(k, now));
            k in d.held && d.held[k] == if Live(c, k, now) then c.held[k] else Entry(Failure, 0, TenMinutesFrom(now))
    ensures var d := Stored(c, StoreSuccess(k, latency, now));
            && k in d.held
            && d.held[k] == if Live(c, k, now) && c.held[k].status == Success && c.held[k].latencyMs <= latency
                            then c.held[k] else Entry(Success, latency, TenMinutesFrom(now))
    ensures var d := Stored(c, Load(k, now));
            (k in d.held <==> Live(c, k, now)) && (k in d.held ==> d.held[k] == c.held[k])
  {
    hide AfterGet, AfterUpsert, Coherent;
    LookupKeeps(c, k, now);
    UpsertKeeps(AfterGet(c, k, now), k, Entry(Failure, 0, ExpireAt(now)));
    UpsertKeeps(AfterGet(c, k, now), k, Entry(Success, latency, ExpireAt(now)));
  }

  /**
    What it does to any other key: the entry stays as it is, and goes only when a new key is
    stored in a cache full of others, the one that has not been used for longest.
   */
  lemma {:induction false} StoresElsewhere(c: Lru, op: Op, x: Key)
    requires Coherent(c) && x != op.key
    ensures var d := Stored(c, op);
            && (x in d.held ==> x in c.held && d.held[x] == c.held[x])
            && (x in c.held && x !in d.held ==>
                  && !op.Load? && !Live(c, op.key, op.nowMs)
                  && |Without(c.order, op.key)| == c.max && x == Without(c.order, op.key)[c.max - 1])
  {
    hide AfterGet, AfterUpsert, Distinct, Without;
    var looked := AfterGet(c, op.key, op.nowMs);
    LookupKeeps(c, op.key, op.nowMs);
    LruRuns.LookupElsewhere(c, op.key, op.nowMs);
    WithoutFacts(c.order, op.key);
    DroppedOnly(looked, op.key, Entry(Failure, 0, ExpireAt(op.nowMs)), x);
    if op.StoreSuccess? {
      DroppedOnly(looked, op.key, Entry(Success, op.latency, ExpireAt(op.nowMs)), x);
    }
    if op.key !in looked.held {
      WithoutAbsent(looked.order, op.key);
    }
  }

  lemma {:induction false} DroppedOnly(c: Lru, k: Key, e: Entry, x: Key)
    requires Coherent(c) && x != k
    ensures var d := AfterUpsert(c, k, e);
            && (x in d.held ==> x in c.held && d.held[x] == c.held[x])
            && (x in c.held && x !in d.held ==>
                  k !in c.held && |c.order| == c.max && x == c.order[c.max - 1])
  {
    hide AfterUpsert, Coherent;
    UpsertCoherent(c, k, e);
    if x in c.held && x !in AfterUpsert(c, k, e).held {
      LruRuns.DroppedIsLast(c, k, e, x);
    }
  }

  /** The key stored or found is the most recently used one, the others keep their order. */
  lemma {:induction false} StoresInFront(c: Lru, op: Op)
    requires Coherent(c)
    ensures var d := Stored(c, op);
            && (!op.Load? || Live(c, op.key, op.nowMs) ==> |d.order| > 0 && d.order[0] == op.key)
            && Without(d.order, op.key) <= Without(c.order, op.key)
  {
    hide AfterGet, AfterUpsert, Coherent, Without;
    var k, now := op.key, op.nowMs;
    var looked := AfterGet(c, k, now);
    LookupInFront(c, k, now);
    UpsertInFront(looked, k, Entry(Failure, 0, ExpireAt(now)));
    if op.StoreSuccess? {
      UpsertInFront(looked, k, Entry(Success, op.latency, ExpireAt(now)));
    }
  }

  lemma {:induction false} LookupInFront(c: Lru, k: Key, now: nat)
    requires Coherent(c)
    ensures var d := AfterGet(c, k, now);
            && Coherent(d) && (Live(c, k, now) ==> |d.order| > 0 && d.order[0] == k)
            && Without(d.order, k) == Without(c.order, k)
  {
    hide Without, Coherent;
    GetCoherent(c, k, now);
    LruRuns.LookupElsewhere(c, k, now);
  }

  lemma {:induction false} UpsertInFront(c: Lru, k: Key, e: Entry)
    requires Coherent(c)
    ensures var d := AfterUpsert(c, k, e);
            && |d.order| > 0 && d.order[0] == k && Without(d.order, k) <= Without(c.order, k)
  {
    if k in c.held {
      FrontOnly(Without(c.order, k), k);
    } else {
      WithoutAbsent(c.order, k);
      var kept := match Evicted(c, k) case Some(last) => Removed(c, last) case None => c;
      FrontOnly(kept.order, k);
      if Evicted(c, k).Some? {
        WithoutAt(c.order, |c.order| - 1);
      }
    }
  }

  lemma {:induction false} FrontOnly(order: seq<Key>, k: Key)
    ensures Without([k] + order, k) == order
  {
    assert ([k] + order)[1..] == order;
  }

  lemma {:induction false} ReflectsMore(e: Entry, pings: seq<uint32>, latency: uint32, expire: nat)
    requires Reflects(e, pings)
    ensures e.status == Failure || latency < e.latencyMs ==>
        Reflects(Entry(Success, latency, expire), pings + [latency])
    ensures e.status == Success && latency >= e.latencyMs ==> Reflects(e, pings + [latency])
  {
    assert latency in pings + [latency];
    assert forall p :: p in pings ==> p in pings + [latency];
  }

  lemma {:induction false} StepInv(r: Run, op: Op)
    requires Inv(r)
    ensures Inv(Step(r, op))
  {
    hide AfterGet, AfterUpsert, Coherent, Reflects;
    var c := r.cache;
    var k, now := op.key, op.nowMs;
    var looked := AfterGet(c, k, now);
    LookupKeeps(c, k, now);
    FreshEntries(now);
    if GetResult(c, k, now).Some? && op.StoreSuccess? {
      ReflectsMore(c.held[k], r.pings[k], op.latency, ExpireAt(now));
    }
    match op
    case Load(_, _) =>
    case StoreFailure(_, _) => UpsertKeeps(looked, k, Entry(Failure, 0, ExpireAt(now)));
    case StoreSuccess(_, latency, _) =>
      SuccessAlone(latency, ExpireAt(now));
      assert [] + [latency] == [latency];
      UpsertKeeps(looked, k, Entry(Success, latency, ExpireAt(now)));
  }

  lemma {:induction false} FreshEntries(now: nat)
    ensures Reflects(Entry(Failure, 0, ExpireAt(now)), [])
  {
  }

  lemma {:induction false} SuccessAlone(latency: uint32, expire: nat)
    ensures Reflects(Entry(Success, latency, expire), [latency])
  {
  }

  /**
    Over every interleaving of stores and lookups on all keys: while a key stays resident and
    unexpired its entry is Failure exactly when no successful ping was stored since it became
    resident, and otherwise holds the least latency of those.
   */
  lemma {:induction false} EntriesReflectPings(maxSize: nat, ops: seq<Op>)
    ensures Inv(Exec(maxSize, ops))
    decreases |ops|
  {
    if |ops| > 0 {
      EntriesReflectPings(maxSize, ops[..|ops| - 1]);
      StepInv(Exec(maxSize, ops[..|ops| - 1]), ops[|ops| - 1]);
    }
  }
}
