/** What holds over every run of cache operations. */
module LruRuns {
  import opened Wire
  import opened LruCache

  datatype Op = Get(key: Key, nowMs: nat) | Upsert(key: Key, entry: Entry) | Remove(key: Key)

  /** The cache, the number of operations so far, when each key was last used and what was last stored under it. */
  datatype Run = Run(cache: Lru, clock: nat, used: map<Key, nat>, stored: map<Key, Entry>)

  function Start(maxSize: nat): Run {
    Run(Lru(if maxSize > 1 then maxSize else 1, [], map[]), 0, map[], map[])
  }

  function Step(r: Run, op: Op): Run {
    match op
    case Get(k, now) =>
      Run(AfterGet(r.cache, k, now), r.clock + 1,
          if GetResult(r.cache, k, now).Some? then r.used[k := r.clock] else r.used, r.stored)
    case Upsert(k, e) => Run(AfterUpsert(r.cache, k, e), r.clock + 1, r.used[k := r.clock], r.stored[k := e])
    case Remove(k) => Run(Removed(r.cache, k), r.clock + 1, r.used, r.stored)
  }

  function Exec(maxSize: nat, ops: seq<Op>): Run
    decreases |ops|
  {
    if |ops| == 0 then Start(maxSize) else Step(Exec(maxSize, ops[..|ops| - 1]), ops[|ops| - 1])
  }

  ghost predicate Recency(order: seq<Key>, used: map<Key, nat>, clock: nat) {
    && (forall i :: 0 <= i < |order| ==> order[i] in used && used[order[i]] < clock)
    && (forall i, j :: 0 <= i < j < |order| ==> used[order[j]] < used[order[i]])
  }

  ghost predicate Inv(r: Run) {
    && Coherent(r.cache) && Recency(r.cache.order, r.used, r.clock)
    && (forall k :: k in r.cache.held ==> k in r.stored && r.cache.held[k] == r.stored[k])
  }

  lemma {:induction false} RecencyCut(order: seq<Key>, i: nat, used: map<Key, nat>, clock: nat)
    requires Recency(order, used, clock) && i < |order|
    ensures Recency(order[..i] + order[i + 1..], used, clock)
  {
    var r := order[..i] + order[i + 1..];
    assert forall j :: 0 <= j < |r| ==> r[j] == order[if j < i then j else j + 1];
  }

  lemma {:induction false} RecencyWithout(order: seq<Key>, k: Key, used: map<Key, nat>, clock: nat)
    requires Recency(order, used, clock) && Distinct(order)
    ensures Recency(Without(order, k), used, clock)
  {
    hide Recency, Without;
    if k in order {
      var i: nat :| i < |order| && order[i] == k;
      WithoutAt(order, i);
      RecencyCut(order, i, used, clock);
    } else {
      WithoutAbsent(order, k);
    }
  }

  lemma {:induction false} RecencyFront(order: seq<Key>, k: Key, used: map<Key, nat>, clock: nat)
    requires Recency(order, used, clock) && k !in order
    ensures Recency([k] + order, used[k := clock], clock + 1)
  {
  }

  lemma {:induction false} RecencyLater(order: seq<Key>, used: map<Key, nat>, clock: nat)
    requires Recency(order, used, clock)
    ensures Recency(order, used, clock + 1)
  {
  }

  lemma {:induction false} TouchInv(c: Lru, k: Key, used: map<Key, nat>, clock: nat)
    requires Coherent(c) && Recency(c.order, used, clock) && k in c.held
    ensures Recency(Touched(c, k).order, used[k := clock], clock + 1)
  {
    hide Recency;
    WithoutFacts(c.order, k);
    RecencyWithout(c.order, k, used, clock);
    RecencyFront(Without(c.order, k), k, used, clock);
  }

  lemma {:induction false} GetInv(r: Run, k: Key, now: nat)
    requires Inv(r)
    ensures Inv(Step(r, Get(k, now)))
  {
    hide Recency, Coherent, Without, Distinct;
    CoherentDistinct(r.cache);
    GetCoherent(r.cache, k, now);
    if GetResult(r.cache, k, now).Some? {
      TouchInv(r.cache, k, r.used, r.clock);
    } else {
      RecencyWithout(r.cache.order, k, r.used, r.clock);
      RecencyLater(AfterGet(r.cache, k, now).order, r.used, r.clock);
    }
  }

  lemma {:induction false} RemoveInv(r: Run, k: Key)
    requires Inv(r)
    ensures Inv(Step(r, Remove(k)))
  {
    hide Recency, Coherent, Without, Distinct;
    CoherentDistinct(r.cache);
    RemovedCoherent(r.cache, k);
    RecencyWithout(r.cache.order, k, r.used, r.clock);
    RecencyLater(Removed(r.cache, k).order, r.used, r.clock);
  }

  lemma {:induction false} UpsertInv(r: Run, k: Key, e: Entry)
    requires Inv(r)
    ensures Inv(Step(r, Upsert(k, e)))
  {
    hide Recency, Coherent, Without, Distinct;
    UpsertCoherent(r.cache, k, e);
    if k in r.cache.held {
      TouchInv(r.cache, k, r.used, r.clock);
    } else {
      UpsertNewInv(r, k, e);
    }
  }

  lemma {:induction false} StepInv(r: Run, op: Op)
    requires Inv(r)
    ensures Inv(Step(r, op))
  {
    hide Inv, Step;
    match op
    case Get(k, now) => GetInv(r, k, now);
    case Remove(k) => RemoveInv(r, k);
    case Upsert(k, e) => UpsertInv(r, k, e);
  }

  lemma {:induction false} CoherentDistinct(c: Lru)
    requires Coherent(c)
    ensures Distinct(c.order) && forall k :: k in c.held <==> k in c.order
  {
  }

  lemma {:induction false} UpsertNewInv(r: Run, k: Key, e: Entry)
    requires Inv(r) && k !in r.cache.held
    ensures Recency(AfterUpsert(r.cache, k, e).order, r.used[k := r.clock], r.clock + 1)
  {
    hide Recency, Without;
    var c := r.cache;
    if Evicted(c, k).Some? {
      var last := Evicted(c, k).value;
      RemovedCoherent(c, last);
      WithoutFacts(c.order, last);
      RecencyWithout(c.order, last, r.used, r.clock);
      RecencyFront(Removed(c, last).order, k, r.used, r.clock);
    } else {
      RecencyFront(c.order, k, r.used, r.clock);
    }
  }

  lemma {:induction false} UpsertFits(c: Lru, k: Key, e: Entry)
    requires Coherent(AfterUpsert(c, k, e))
    ensures |AfterUpsert(c, k, e).order| <= c.max
  {
    hide Coherent, Without;
    CoherentSize(AfterUpsert(c, k, e));
  }

  lemma {:induction false} CoherentSize(c: Lru)
    ensures Coherent(c) ==> |c.order| <= c.max
  {
  }

  /** A key that an insertion drops was the last of a full cache, and is the only one dropped. */
  lemma {:induction false} DroppedIsLast(c: Lru, k: Key, e: Entry, x: Key)
    requires Coherent(c) && x in c.held && x !in AfterUpsert(c, k, e).held
    ensures k !in c.held && |c.order| == c.max && x == c.order[|c.order| - 1]
    ensures forall y :: y in c.held && y != x ==> y in AfterUpsert(c, k, e).held
  {
    hide Without, Distinct;
  }

  lemma {:induction false} LastIsOldest(c: Lru, used: map<Key, nat>, clock: nat)
    requires Coherent(c) && Recency(c.order, used, clock) && |c.order| > 0
    ensures var last := c.order[|c.order| - 1];
            last in used && forall y :: y in c.held && y != last ==> y in used && used[last] < used[y]
  {
    hide Distinct;
    forall y | y in c.held && y != c.order[|c.order| - 1]
      ensures y in used && used[c.order[|c.order| - 1]] < used[y]
    {
      var j :| 0 <= j < |c.order| && c.order[j] == y;
    }
  }

  /** Over every run: no repetition, within the bound, ordered by last use, each key holding what was last stored. */
  lemma {:induction false} RunInv(maxSize: nat, ops: seq<Op>)
    ensures Inv(Exec(maxSize, ops))
    decreases |ops|
  {
    if |ops| > 0 {
      RunInv(maxSize, ops[..|ops| - 1]);
      StepInv(Exec(maxSize, ops[..|ops| - 1]), ops[|ops| - 1]);
    }
  }

  /** After any run, a lookup returns the value last stored under the key while it is held and unexpired. */
  lemma {:induction false} GetReturnsLatest(maxSize: nat, ops: seq<Op>, k: Key, now: nat)
    ensures var r := Exec(maxSize, ops);
            GetResult(r.cache, k, now)
            == if k in r.cache.held && k in r.stored && r.stored[k].expireAtMs > now then Some(r.stored[k]) else None
  {
    hide Exec;
    RunInv(maxSize, ops);
  }

  /** After any run, storing a new key in a full cache drops the key unused for longest and nothing else. */
  lemma {:induction false} EvictsLeastRecentlyUsed(maxSize: nat, ops: seq<Op>, k: Key, e: Entry)
    ensures var r := Exec(maxSize, ops);
            var d := AfterUpsert(r.cache, k, e);
            && |d.order| <= r.cache.max && k in d.held && d.held[k] == e
            && (forall x :: x in r.cache.held && x !in d.held
                  ==> k !in r.cache.held && |r.cache.order| == r.cache.max
                      && forall y :: y in r.cache.held && y != x ==>
                          y in d.held && x in r.used && y in r.used
                          && r.used[x] < r.used[y])
  {
    hide Exec, AfterUpsert, Coherent, Recency;
    RunInv(maxSize, ops);
    var r := Exec(maxSize, ops);
    UpsertCoherent(r.cache, k, e);
    UpsertFits(r.cache, k, e);
    forall x | x in r.cache.held && x !in AfterUpsert(r.cache, k, e).held
      ensures k !in r.cache.held && |r.cache.order| == r.cache.max
      ensures forall y :: y in r.cache.held && y != x ==>
                y in AfterUpsert(r.cache, k, e).held && x in r.used && y in r.used && r.used[x] < r.used[y]
    {
      DroppedIsLast(r.cache, k, e, x);
      LastIsOldest(r.cache, r.used, r.clock);
    }
  }

  // ---------------------------------------------------------------- who stays

  /** A lookup changes no other key: neither whether it is held, nor its entry, nor the order among the others. */
  lemma {:induction false} LookupElsewhere(c: Lru, k: Key, now: nat)
    requires Coherent(c)
    ensures var d := AfterGet(c, k, now);
            && (forall x :: x != k ==> (x in d.held <==> x in c.held))
            && (forall x :: x != k && x in c.held ==> d.held[x] == c.held[x])
            && Without(d.order, k) == Without(c.order, k) && d.max == c.max
  {
    WithoutFacts(c.order, k);
    WithoutAbsent(Without(c.order, k), k);
  }

  lemma {:induction false} RemoveElsewhere(c: Lru, k: Key)
    requires Coherent(c)
    ensures var d := Removed(c, k);
            && k !in d.held && (forall x :: x != k ==> (x in d.held <==> x in c.held))
            && (forall x :: x != k && x in c.held ==> d.held[x] == c.held[x])
            && d.order == Without(c.order, k) && d.max == c.max
  {
    if k !in c.held {
      WithoutAbsent(c.order, k);
    } else {
      WithoutFacts(c.order, k);
    }
  }

  /** `x` is held and was used longer ago than every other held key. */
  ghost predicate Oldest(r: Run, x: Key) {
    x in r.cache.held && x in r.used
    && forall y :: y in r.cache.held && y != x ==> y in r.used && r.used[x] < r.used[y]
  }

  /** Which keys are held after an operation, in terms of those held before and of when they were used. */
  ghost predicate StaysOrComes(r: Run, op: Op, x: Key) {
    match op
    case Get(k, now) => x in r.cache.held && !(x == k && r.cache.held[k].expireAtMs <= now)
    case Remove(k) => x in r.cache.held && x != k
    case Upsert(k, _) =>
      x == k
      || (x in r.cache.held && !(k !in r.cache.held && |r.cache.held| == r.cache.max && Oldest(r, x)))
  }

  lemma {:induction false} OrderSize(c: Lru)
    requires Coherent(c)
    ensures |c.held| == |c.order|
  {
    SeqSize(c.order);
    assert c.held.Keys == set k | k in c.order;
    assert |c.held| == |c.held.Keys|;
  }

  lemma {:induction false} SeqSize(s: seq<Key>)
    requires Distinct(s)
    ensures |set k | k in s| == |s|
    decreases |s|
  {
    if |s| > 0 {
      var n := |s| - 1;
      SeqSize(s[..n]);
      assert s[..n] + [s[n]] == s;
      assert (set k | k in s) == (set k | k in s[..n]) + {s[n]};
    }
  }

  /** A key goes only when it is removed, is looked up when expired, or is the oldest of a full cache. */
  lemma {:induction false} HeldAfter(maxSize: nat, ops: seq<Op>, op: Op, x: Key)
    ensures var r := Exec(maxSize, ops);
            && (x in Exec(maxSize, ops + [op]).cache.held <==> StaysOrComes(r, op, x))
            && (x in r.cache.held && StaysOrComes(r, op, x) && !(op.Upsert? && op.key == x) ==>
                  Exec(maxSize, ops + [op]).cache.held[x] == r.cache.held[x])
  {
    hide Coherent, Recency, Without, Exec, Oldest, AfterUpsert, AfterGet, Removed;
    RunInv(maxSize, ops);
    ExecSnoc(maxSize, ops, op);
    var r := Exec(maxSize, ops);
    match op
    case Get(k, now) =>
      LookupElsewhere(r.cache, k, now);
      LookupHere(r.cache, k, now);
    case Remove(k) => RemoveElsewhere(r.cache, k);
    case Upsert(k, e) =>
      UpsertCoherent(r.cache, k, e);
      EvictedIsOldest(r, k);
  }

  lemma {:induction false} ExecSnoc(maxSize: nat, ops: seq<Op>, op: Op)
    ensures Exec(maxSize, ops + [op]) == Step(Exec(maxSize, ops), op)
  {
    hide Step;
    assert (ops + [op])[..|ops|] == ops;
  }

  lemma {:induction false} LookupHere(c: Lru, k: Key, now: nat)
    requires Coherent(c)
    ensures var d := AfterGet(c, k, now);
            && (k in d.held <==> k in c.held && c.held[k].expireAtMs > now)
            && (k in d.held ==> d.held[k] == c.held[k])
  {
    RemovedCoherent(c, k);
  }

  lemma {:induction false} EvictedIsOldest(r: Run, k: Key)
    requires Inv(r)
    ensures forall x :: Evicted(r.cache, k) == Some(x) <==>
              k !in r.cache.held && |r.cache.held| == r.cache.max && Oldest(r, x)
  {
    hide Recency, Without;
    var c := r.cache;
    OrderSize(c);
    if |c.order| > 0 {
      LastIsOldest(c, r.used, r.clock);
      assert c.order[|c.order| - 1] in c.order;
    }
  }

  // ---------------------------------------------------------------- how long a key stays

  /** The keys stored or looked up. */
  function UsedKeys(ops: seq<Op>): set<Key> {
    set op | op in ops && !op.Remove? :: op.key
  }

  /** `k` is in the order, and only keys from `others` stand before it. */
  ghost predicate BehindOnly(order: seq<Key>, k: Key, others: set<Key>) {
    exists i: nat :: i < |order| && order[i] == k && forall j :: 0 <= j < i ==> order[j] in others
  }

  lemma {:induction false} BehindFront(order: seq<Key>, k: Key, others: set<Key>)
    ensures BehindOnly([k] + order, k, others)
  {
    assert ([k] + order)[0] == k;
  }

  lemma {:induction false} BehindCons(order: seq<Key>, k: Key, others: set<Key>, y: Key)
    requires BehindOnly(order, k, others) && y in others
    ensures BehindOnly([y] + order, k, others)
  {
    var i: nat :| i < |order| && order[i] == k && forall j :: 0 <= j < i ==> order[j] in others;
    assert ([y] + order)[i + 1] == k;
  }

  lemma {:induction false} BehindCut(order: seq<Key>, k: Key, others: set<Key>, m: nat)
    requires BehindOnly(order, k, others) && m < |order| && order[m] != k
    ensures BehindOnly(order[..m] + order[m + 1..], k, others)
  {
    var i: nat :| i < |order| && order[i] == k && forall j :: 0 <= j < i ==> order[j] in others;
    var rest := order[..m] + order[m + 1..];
    var i' := if i < m then i else i - 1;
    forall j | 0 <= j < i'
      ensures rest[j] in others
    {
      assert rest[j] == order[if j < m then j else j + 1];
    }
    assert rest[i'] == k;
  }

  lemma {:induction false} BehindWithout(order: seq<Key>, k: Key, others: set<Key>, y: Key)
    requires BehindOnly(order, k, others) && Distinct(order) && y != k
    ensures BehindOnly(Without(order, y), k, others)
  {
    hide BehindOnly, Without, Distinct;
    if y in order {
      var m: nat :| m < |order| && order[m] == y;
      WithoutAt(order, m);
      BehindCut(order, k, others, m);
    } else {
      WithoutAbsent(order, y);
    }
  }

  lemma {:induction false} BehindMore(order: seq<Key>, k: Key, others: set<Key>, more: set<Key>)
    requires BehindOnly(order, k, others) && others <= more
    ensures BehindOnly(order, k, more)
  {
  }

  /** As many distinct keys stand before the last one as the order is long, less one. */
  lemma {:induction false} LastNeedsOthers(order: seq<Key>, k: Key, others: set<Key>)
    requires Distinct(order) && |order| > 0 && order[|order| - 1] == k && BehindOnly(order, k, others)
    ensures |order| - 1 <= |others * (set y | y in order)|
  {
    var i: nat :| i < |order| && order[i] == k && forall j :: 0 <= j < i ==> order[j] in others;
    assert i == |order| - 1;
    var before := order[..i];
    SeqSize(before);
    var keys := set y | y in before;
    assert keys <= others * (set y | y in order);
    Subset(keys, others * (set y | y in order));
  }

  lemma {:induction false} Subset(a: set<Key>, b: set<Key>)
    requires a <= b
    ensures |a| <= |b|
  {
    if a != {} {
      var x :| x in a;
      Subset(a - {x}, b - {x});
    }
  }

  /** One operation that neither removes `k` nor finds it expired, with room for what it uses. */
  lemma {:induction false} StepStays(r: Run, op: Op, k: Key, others: set<Key>, more: set<Key>)
    requires Inv(r) && BehindOnly(r.cache.order, k, others) && others <= more && k !in more && |more| < r.cache.max
    requires !op.Remove? && op.key != k ==> op.key in more
    requires op.key == k ==> op.Get? && k in r.cache.held && op.nowMs < r.cache.held[k].expireAtMs
    ensures BehindOnly(Step(r, op).cache.order, k, more) && k in r.cache.held && k in Step(r, op).cache.held
    ensures Step(r, op).cache.held[k] == r.cache.held[k]
  {
    hide Recency, BehindOnly, Coherent, Without, Distinct;
    var c := r.cache;
    CoherentDistinct(c);
    BehindHeld(c.order, k, others);
    BehindMore(c.order, k, others, more);
    if op.key == k {
      BehindFront(Without(c.order, k), k, more);
    } else {
      BehindWithout(c.order, k, more, op.key);
      match op
      case Get(y, now) =>
        LookupElsewhere(c, y, now);
        BehindCons(Without(c.order, y), k, more, y);
      case Remove(y) => RemoveElsewhere(c, y);
      case Upsert(y, e) =>
        UpsertCoherent(c, y, e);
        UpsertStays(c, y, e, k, more);
    }
  }

  lemma {:induction false} BehindHeld(order: seq<Key>, k: Key, others: set<Key>)
    requires BehindOnly(order, k, others)
    ensures k in order
  {
  }

  lemma {:induction false} UpsertStays(c: Lru, y: Key, e: Entry, k: Key, more: set<Key>)
    requires Coherent(c) && BehindOnly(c.order, k, more) && k !in more && y in more && |more| < c.max
    ensures BehindOnly(AfterUpsert(c, y, e).order, k, more) && Evicted(c, y) != Some(k)
  {
    hide Without, BehindOnly, Distinct;
    CoherentDistinct(c);
    if y in c.held {
      BehindWithout(c.order, k, more, y);
      BehindCons(Without(c.order, y), k, more, y);
    } else if Evicted(c, y).Some? {
      var last := Evicted(c, y).value;
      if last == k {
        LastNeedsOthers(c.order, k, more);
        var there := more * (set x | x in c.order);
        assert there <= more - {y};
        Subset(there, more - {y});
        assert false;
      }
      BehindWithout(c.order, k, more, last);
      BehindCons(Without(c.order, last), k, more, y);
    } else {
      BehindCons(c.order, k, more, y);
    }
  }

  /** Every lookup of `k` comes before its entry expires. */
  predicate InTime(ops: seq<Op>, k: Key, e: Entry) {
    forall op :: op in ops && op.key == k ==> op.Get? && op.nowMs < e.expireAtMs
  }

  lemma {:induction false} MaxKept(maxSize: nat, ops: seq<Op>)
    ensures Exec(maxSize, ops).cache.max == if maxSize > 1 then maxSize else 1
    decreases |ops|
  {
    if |ops| > 0 {
      MaxKept(maxSize, ops[..|ops| - 1]);
    }
  }

  lemma {:induction false} StaysBehind(maxSize: nat, before: seq<Op>, k: Key, e: Entry, later: seq<Op>)
    requires InTime(later, k, e) && |UsedKeys(later) - {k}| < (if maxSize > 1 then maxSize else 1)
    ensures var c := Exec(maxSize, before + [Upsert(k, e)] + later).cache;
            k in c.held && c.held[k] == e && BehindOnly(c.order, k, UsedKeys(later) - {k})
    decreases |later|
  {
    hide Exec, Step, BehindOnly, Inv, InTime, UsedKeys;
    var start := before + [Upsert(k, e)];
    if |later| == 0 {
      assert start + later == start;
      ExecSnoc(maxSize, before, Upsert(k, e));
      RunInv(maxSize, before);
      JustStored(Exec(maxSize, before), k, e);
      BehindMore(Exec(maxSize, start).cache.order, k, {}, UsedKeys(later) - {k});
    } else {
      var n := |later| - 1;
      var op := later[n];
      UsedSnoc(later, k, e);
      StaysBehind(maxSize, before, k, e, later[..n]);
      var r := Exec(maxSize, start + later[..n]);
      assert start + later == start + later[..n] + [op];
      ExecSnoc(maxSize, start + later[..n], op);
      RunInv(maxSize, start + later[..n]);
      MaxKept(maxSize, start + later[..n]);
      StepStays(r, op, k, UsedKeys(later[..n]) - {k}, UsedKeys(later) - {k});
    }
  }

  lemma {:induction false} UsedSnoc(later: seq<Op>, k: Key, e: Entry)
    requires |later| > 0 && InTime(later, k, e)
    ensures var n := |later| - 1;
            && UsedKeys(later[..n]) <= UsedKeys(later)
            && |UsedKeys(later[..n]) - {k}| <= |UsedKeys(later) - {k}|
            && (!later[n].Remove? ==> later[n].key in UsedKeys(later))
            && (later[n].key == k ==> later[n].Get? && later[n].nowMs < e.expireAtMs) && InTime(later[..n], k, e)
  {
    var n := |later| - 1;
    assert forall op :: op in later[..n] ==> op in later;
    Subset(UsedKeys(later[..n]) - {k}, UsedKeys(later) - {k});
    assert later[n] in later;
  }

  lemma {:induction false} JustStored(r: Run, k: Key, e: Entry)
    requires Inv(r)
    ensures var c := Step(r, Upsert(k, e)).cache;
            k in c.held && c.held[k] == e && BehindOnly(c.order, k, {})
  {
    hide Recency, Coherent;
    UpsertCoherent(r.cache, k, e);
    var c := AfterUpsert(r.cache, k, e);
    assert c.order[0] == k;
  }

  /**
    After any run, a stored key is still held, with its entry, and a lookup in time returns it, as long as
    it is not removed or stored anew, is looked up only in time, and fewer other keys than the
    cache holds are stored or looked up since.
   */
  lemma {:induction false} HeldWhileFewOthers(maxSize: nat, before: seq<Op>, k: Key, e: Entry, later: seq<Op>, now: nat)
    requires InTime(later, k, e) && |UsedKeys(later) - {k}| < (if maxSize > 1 then maxSize else 1)
    ensures var c := Exec(maxSize, before + [Upsert(k, e)] + later).cache;
            && k in c.held && c.held[k] == e
            && GetResult(c, k, now) == if now < e.expireAtMs then Some(e) else None
  {
    hide Exec;
    StaysBehind(maxSize, before, k, e, later);
  }
}
