/** How fastest_addr.rs chooses an address, by cache and by pings, and the reply it answers with. */
module FastestSelection {
  import opened Wire
  import opened Messages
  import opened AnswerRewrite
  import opened RewriteRefinement
  import opened LruCache
  import opened FastestPolicy

  // ---------------------------------------------------------------- candidate addresses

  predicate Unspecified(ip: IpAddr) {
    forall b :: b in ip.Octets() ==> b == 0
  }

  /** Exactly two addresses are unspecified, 0.0.0.0 and ::. */
  lemma {:induction false} UnspecifiedAre(ip: IpAddr)
    ensures Unspecified(ip) <==>
              ip == V4([0, 0, 0, 0]) || ip == V6([0, 0, 0, 0, 0, 0, 0, 0, 0, 0, 0, 0, 0, 0, 0, 0])
  {
    if Unspecified(ip) {
      assert forall i :: 0 <= i < |ip.Octets()| ==> ip.Octets()[i] in ip.Octets();
    }
  }

  /** The addresses in the answers of a packet, none when it does not decode. */
  function ReplyIps(p: Bytes): seq<IpAddr> {
    match Unpack(p)
    case Ok(m) => AnswerIps(m.answers)
    case Err(_) => []
  }

  ghost predicate Candidate(replies: seq<Bytes>, ip: IpAddr) {
    !Unspecified(ip) && exists i :: 0 <= i < |replies| && ip in ReplyIps(replies[i])
  }

  method CollectIps(replies: seq<Bytes>) returns (ips: set<IpAddr>)
    ensures forall ip: IpAddr :: ip in ips <==> Candidate(replies, ip)
  {
    hide ReplyIps, Unspecified;
    ips := {};
    for i := 0 to |replies|
      invariant forall ip: IpAddr :: ip in ips <==> Candidate(replies[..i], ip)
    {
      ghost var before := ips;
      var found := ReplyIps(replies[i]);
      for k := 0 to |found|
        invariant forall ip: IpAddr :: ip in ips <==> ip in before || (ip in found[..k] && !Unspecified(ip))
      {
        assert found[..k + 1] == found[..k] + [found[k]];
        if !Unspecified(found[k]) {
          ips := ips + {found[k]};
        }
      }
      assert found[..|found|] == found;
      forall ip: IpAddr
        ensures Candidate(replies[..i + 1], ip) <==> Candidate(replies[..i], ip) || (ip in found && !Unspecified(ip))
      {
        CandidateSnoc(replies, i, ip);
      }
    }
    assert replies[..|replies|] == replies;
  }

  lemma {:induction false} CandidateSnoc(replies: seq<Bytes>, i: nat, ip: IpAddr)
    requires i < |replies|
    ensures Candidate(replies[..i + 1], ip)
       <==> Candidate(replies[..i], ip) || (ip in ReplyIps(replies[i]) && !Unspecified(ip))
  {
    hide ReplyIps, Unspecified;
    assert forall k :: 0 <= k < i ==> replies[..i + 1][k] == replies[..i][k];
    assert replies[..i + 1][i] == replies[i];
  }

  // ---------------------------------------------------------------- ping_all

  datatype PingResult = PingResult(ip: IpAddr, latencyMs: uint32, success: bool)

  /** What other tasks, running pings among them, do to the cache while nobody else holds it. */
  function Meanwhile(c: Lru, ops: seq<Op>): Lru
    decreases |ops|
  {
    if |ops| == 0 then c else Stored(Meanwhile(c, ops[..|ops| - 1]), ops[|ops| - 1])
  }

  /**
    The lookups of one call: the addresses, the clock readings, and before each lookup whatever
    other tasks do to the cache.
   */
  datatype Lookups = Lookups(ips: seq<IpAddr>, nows: seq<nat>, others: seq<seq<Op>>) {
    predicate Valid() {
      |nows| == |ips| == |others|
    }
  }

  /** The cache after the first `i` lookups. */
  function CacheAfter(c: Lru, ask: Lookups, i: nat): Lru
    requires ask.Valid() && i <= |ask.ips|
  {
    if i == 0 then c
    else
      var seen := Meanwhile(CacheAfter(c, ask, i - 1), ask.others[i - 1]);
      AfterGet(seen, ask.ips[i - 1], ask.nows[i - 1])
  }

  /** What lookup `i` finds: an entry, or a reason to ping. */
  function Known(c: Lru, ask: Lookups, i: nat): Option<Entry>
    requires ask.Valid() && i < |ask.ips|
  {
    GetResult(Meanwhile(CacheAfter(c, ask, i), ask.others[i]), ask.ips[i], ask.nows[i])
  }

  function Better(best: Option<PingResult>, ip: IpAddr, known: Option<Entry>): Option<PingResult> {
    if known.Some? && known.value.status.Success? && (best.None? || known.value.latencyMs < best.value.latencyMs)
    then Some(PingResult(ip, known.value.latencyMs, true))
    else best
  }

  /** The best cached success among the first `i` lookups, the earliest among equals. */
  function CachedBest(c: Lru, ask: Lookups, i: nat): Option<PingResult>
    requires ask.Valid() && i <= |ask.ips|
  {
    if i == 0 then None else Better(CachedBest(c, ask, i - 1), ask.ips[i - 1], Known(c, ask, i - 1))
  }

  predicate AnyUnknown(c: Lru, ask: Lookups, i: nat)
    requires ask.Valid() && i <= |ask.ips|
  {
    exists k :: 0 <= k < i && Known(c, ask, k).None?
  }

  /** The first successful ping to arrive. */
  function FirstSuccess(arrivals: seq<PingResult>): Option<PingResult> {
    if |arrivals| == 0 then None
    else if arrivals[0].success then Some(arrivals[0])
    else FirstSuccess(arrivals[1..])
  }

  function Fastest(cached: Option<PingResult>, pinged: Option<PingResult>): Option<PingResult> {
    if pinged.None? then cached
    else if cached.Some? && cached.value.latencyMs < pinged.value.latencyMs then cached
    else pinged
  }

  lemma {:induction false} StoredIs(c: Lru, op: Op)
    ensures op.StoreSuccess? ==> Stored(c, op) == AfterSuccess(c, op.key, op.latency, op.nowMs)
    ensures op.StoreFailure? ==> Stored(c, op) == AfterFailure(c, op.key, op.nowMs)
    ensures op.Load? ==> Stored(c, op) == AfterGet(c, op.key, op.nowMs)
  {
  }

  lemma {:induction false} MeanwhileSnoc(c: Lru, ops: seq<Op>, i: nat)
    requires i < |ops|
    ensures Meanwhile(c, ops[..i + 1]) == Stored(Meanwhile(c, ops[..i]), ops[i])
  {
    hide Stored;
    assert ops[..i + 1][..i] == ops[..i];
  }

  lemma {:induction false} MeanwhileNone(c: Lru, ops: seq<Op>)
    ensures Meanwhile(c, ops[..0]) == c
  {
  }

  method RunOther(cache: FastestIpCache, op: Op)
    requires cache.Valid()
    modifies cache
    ensures cache.Valid() && cache.Abs() == Stored(old(cache.Abs()), op)
  {
    hide *;
    StoredIs(cache.Abs(), op);
    match op
    case StoreSuccess(k, latency, now) => StoreFastestSuccess(cache, k, latency, now);
    case StoreFailure(k, now) => StoreFastestFailure(cache, k, now);
    case Load(k, now) => var _ := cache.Get(k, now);
  }

  /** The other tasks' operations, one after another. */
  method RunOthers(cache: FastestIpCache, ops: seq<Op>)
    requires cache.Valid()
    modifies cache
    ensures cache.Valid() && cache.Abs() == Meanwhile(old(cache.Abs()), ops)
  {
    hide *;
    ghost var c := cache.Abs();
    MeanwhileNone(c, ops);
    for i := 0 to |ops|
      invariant cache.Valid() && cache.Abs() == Meanwhile(c, ops[..i])
    {
      MeanwhileSnoc(c, ops, i);
      RunOther(cache, ops[i]);
    }
    assert ops[..|ops|] == ops;
  }

  /** Without a choice to make nothing is looked up; pings are sent and waited for only when a lookup found nothing. */
  function Choice(c: Lru, ask: Lookups, arrivals: seq<PingResult>): Option<PingResult>
    requires ask.Valid()
  {
    if |ask.ips| == 0 then None
    else if |ask.ips| == 1 then Some(PingResult(ask.ips[0], 0, true))
    else Fastest(CachedBest(c, ask, |ask.ips|),
                 if AnyUnknown(c, ask, |ask.ips|) then FirstSuccess(arrivals) else None)
  }

  /** `arrivals` are the ping results received before the wait times out, in order of arrival. */
  method PingAll(cache: FastestIpCache, ask: Lookups, arrivals: seq<PingResult>) returns (r: Option<PingResult>)
    requires cache.Valid() && ask.Valid()
    modifies cache
    ensures cache.Valid()
    ensures cache.Abs() == if |ask.ips| < 2 then old(cache.Abs()) else CacheAfter(old(cache.Abs()), ask, |ask.ips|)
    ensures r == Choice(old(cache.Abs()), ask, arrivals)
  {
    hide CacheAfter, CachedBest, AnyUnknown;
    if |ask.ips| == 0 {
      return None;
    }
    if |ask.ips| == 1 {
      return Some(PingResult(ask.ips[0], 0, true));
    }
    var cachedBest, scheduled := LookUpAll(cache, ask);
    if scheduled == 0 {
      return cachedBest;
    }
    for i := 0 to |arrivals|
      invariant FirstSuccess(arrivals) == FirstSuccess(arrivals[i..])
    {
      assert arrivals[i..][1..] == arrivals[i + 1..];
      var result := arrivals[i];
      if result.success {
        if cachedBest.Some? && cachedBest.value.latencyMs < result.latencyMs {
          return cachedBest;
        }
        return Some(result);
      }
    }
    return cachedBest;
  }

  /** After the first `i` lookups of a cache that was `c`. */
  ghost predicate LookInv(c: Lru, ask: Lookups, i: nat, now: Lru, best: Option<PingResult>, scheduled: nat)
    requires ask.Valid() && i <= |ask.ips|
  {
    now == CacheAfter(c, ask, i) && best == CachedBest(c, ask, i) && (scheduled > 0 <==> AnyUnknown(c, ask, i))
  }

  lemma {:induction false} LookStart(c: Lru, ask: Lookups)
    requires ask.Valid()
    ensures LookInv(c, ask, 0, c, None, 0)
  {
  }

  lemma {:induction false} LookStep(c: Lru, ask: Lookups, i: nat, now: Lru, best: Option<PingResult>, scheduled: nat)
    requires ask.Valid() && i < |ask.ips| && LookInv(c, ask, i, now, best, scheduled)
    ensures |ask.others| == |ask.nows| == |ask.ips|
    ensures var seen := Meanwhile(now, ask.others[i]);
            var known := GetResult(seen, ask.ips[i], ask.nows[i]);
            && LookInv(c, ask, i + 1, AfterGet(seen, ask.ips[i], ask.nows[i]),
                       if known.Some? && known.value.status.Success?
                           && (best.None? || known.value.latencyMs < best.value.latencyMs)
                       then Some(PingResult(ask.ips[i], known.value.latencyMs, true)) else best,
                       if known.None? then scheduled + 2 else scheduled)
  {
    hide GetResult, AfterGet, Meanwhile;
  }

  lemma {:induction false} LookEnd(c: Lru, ask: Lookups, now: Lru, best: Option<PingResult>, scheduled: nat)
    requires ask.Valid() && LookInv(c, ask, |ask.ips|, now, best, scheduled)
    ensures now == CacheAfter(c, ask, |ask.ips|) && best == CachedBest(c, ask, |ask.ips|)
    ensures scheduled > 0 <==> AnyUnknown(c, ask, |ask.ips|)
  {
  }

  /** The loop that asks the cache; an address it does not know gets one ping per port. */
  method LookUpAll(cache: FastestIpCache, ask: Lookups) returns (cachedBest: Option<PingResult>, scheduled: nat)
    requires cache.Valid() && ask.Valid()
    modifies cache
    ensures cache.Valid() && cache.Abs() == CacheAfter(old(cache.Abs()), ask, |ask.ips|)
    ensures cachedBest == CachedBest(old(cache.Abs()), ask, |ask.ips|)
    ensures scheduled > 0 <==> AnyUnknown(old(cache.Abs()), ask, |ask.ips|)
  {
    hide *;
    ghost var c := cache.Abs();
    cachedBest := None;
    scheduled := 0;
    LookStart(c, ask);
    for i := 0 to |ask.ips|
      invariant cache.Valid() && LookInv(c, ask, i, cache.Abs(), cachedBest, scheduled)
    {
      LookStep(c, ask, i, cache.Abs(), cachedBest, scheduled);
      RunOthers(cache, ask.others[i]);
      var cached := cache.Get(ask.ips[i], ask.nows[i]);
      if cached.Some? {
        if cached.value.status.Success? && (cachedBest.None? || cached.value.latencyMs < cachedBest.value.latencyMs) {
          cachedBest := Some(PingResult(ask.ips[i], cached.value.latencyMs, true));
        }
      } else {
        scheduled := scheduled + 2;
      }
    }
    LookEnd(c, ask, cache.Abs(), cachedBest, scheduled);
  }

  /** Everything that happens to the cache before lookup `i`. */
  function Preceding(ask: Lookups, i: nat): seq<Op>
    requires ask.Valid() && i < |ask.ips|
  {
    (if i == 0 then [] else Preceding(ask, i - 1) + [Load(ask.ips[i - 1], ask.nows[i - 1])]) + ask.others[i]
  }

  /** Lookup `i` is a lookup of address `i` after all that. */
  lemma {:induction false} KnownIs(c: Lru, ask: Lookups, i: nat)
    requires ask.Valid() && i < |ask.ips|
    ensures Known(c, ask, i) == GetResult(Meanwhile(c, Preceding(ask, i)), ask.ips[i], ask.nows[i])
    ensures Meanwhile(CacheAfter(c, ask, i), ask.others[i]) == Meanwhile(c, Preceding(ask, i))
    decreases i
  {
    hide Stored, GetResult, AfterGet;
    if i == 0 {
      assert [] + ask.others[0] == ask.others[0];
    } else {
      KnownIs(c, ask, i - 1);
      var load := Load(ask.ips[i - 1], ask.nows[i - 1]);
      var before := Preceding(ask, i - 1) + [load];
      assert before[..|before| - 1] == Preceding(ask, i - 1);
      StoredIs(Meanwhile(c, Preceding(ask, i - 1)), load);
      MeanwhileJoin(c, before, ask.others[i]);
    }
  }

  lemma {:induction false} MeanwhileJoin(c: Lru, a: seq<Op>, b: seq<Op>)
    ensures Meanwhile(c, a + b) == Meanwhile(Meanwhile(c, a), b)
    decreases |b|
  {
    hide Stored;
    if |b| == 0 {
      assert a + b == a;
    } else {
      var n := |b| - 1;
      MeanwhileJoin(c, a, b[..n]);
      assert (a + b)[..|a + b| - 1] == a + b[..n];
    }
  }

  /** The latency a lookup gives, if it gives a success. */
  function Hit(c: Lru, ask: Lookups, i: nat): Option<uint32>
    requires ask.Valid() && i < |ask.ips|
  {
    var known := Known(c, ask, i);
    if known.Some? && known.value.status.Success? then Some(known.value.latencyMs) else None
  }

  lemma {:induction false} BetterIs(best: Option<PingResult>, ip: IpAddr, known: Option<Entry>)
    ensures known.None? || !known.value.status.Success? ==> Better(best, ip, known) == best
    ensures known.Some? && known.value.status.Success? ==>
              Better(best, ip, known)
              == if best.None? || known.value.latencyMs < best.value.latencyMs
                 then Some(PingResult(ip, known.value.latencyMs, true)) else best
  {
  }

  lemma {:induction false} CachedBestIsLeast(c: Lru, ask: Lookups, n: nat)
    requires ask.Valid() && n <= |ask.ips|
    ensures var best := CachedBest(c, ask, n);
            && (best.None? <==> forall i :: 0 <= i < n ==> Hit(c, ask, i).None?)
            && (best.Some? ==>
                  && best.value.success
                  && (exists i ::
                      0 <= i < n && ask.ips[i] == best.value.ip
                      && Hit(c, ask, i) == Some(best.value.latencyMs))
                  && forall i :: 0 <= i < n && Hit(c, ask, i).Some? ==> best.value.latencyMs <= Hit(c, ask, i).value)
    decreases n
  {
    hide Known;
    if n > 0 {
      CachedBestIsLeast(c, ask, n - 1);
      var before, best := CachedBest(c, ask, n - 1), CachedBest(c, ask, n);
      BetterIs(before, ask.ips[n - 1], Known(c, ask, n - 1));
      hide Better;
      assert Hit(c, ask, n - 1).Some? ==> best.Some? && best.value.latencyMs <= Hit(c, ask, n - 1).value;
      assert best == before || (best.Some? && Hit(c, ask, n - 1) == Some(best.value.latencyMs));
    }
  }

  lemma {:induction false} FirstSuccessArrived(arrivals: seq<PingResult>)
    ensures FirstSuccess(arrivals).Some? ==>
        FirstSuccess(arrivals).value in arrivals
        && FirstSuccess(arrivals).value.success
    ensures FirstSuccess(arrivals).None? ==> forall a :: a in arrivals ==> !a.success
    decreases |arrivals|
  {
    if |arrivals| > 0 {
      FirstSuccessArrived(arrivals[1..]);
    }
  }

  /** The first to arrive of the successful pings. */
  ghost predicate FirstIn(arrivals: seq<PingResult>, r: PingResult) {
    exists i :: 0 <= i < |arrivals| && arrivals[i] == r && r.success && forall j :: 0 <= j < i ==> !arrivals[j].success
  }

  lemma {:induction false} FirstSuccessIsFirst(arrivals: seq<PingResult>)
    ensures FirstSuccess(arrivals).Some? ==> FirstIn(arrivals, FirstSuccess(arrivals).value)
    decreases |arrivals|
  {
    if |arrivals| > 0 {
      if arrivals[0].success {
        assert FirstIn(arrivals, arrivals[0]);
      } else {
        FirstSuccessIsFirst(arrivals[1..]);
        if FirstSuccess(arrivals[1..]).Some? {
          var r := FirstSuccess(arrivals[1..]).value;
          var i :| 0 <= i < |arrivals| - 1 && arrivals[1..][i] == r && r.success
              && forall j :: 0 <= j < i ==> !arrivals[1..][j].success;
          assert arrivals[i + 1] == r;
          assert forall j :: 0 < j < i + 1 ==> arrivals[j] == arrivals[1..][j - 1];
        }
      }
    }
  }

  /** The earliest among the fastest lookups that found a success. */
  ghost predicate EarliestBest(c: Lru, ask: Lookups, n: nat, r: PingResult)
    requires ask.Valid() && n <= |ask.ips|
  {
    exists i :: 0 <= i < n && ask.ips[i] == r.ip && Hit(c, ask, i) == Some(r.latencyMs)
        && (forall j :: 0 <= j < n && Hit(c, ask, j).Some? ==> r.latencyMs <= Hit(c, ask, j).value)
        && forall j :: 0 <= j < i && Hit(c, ask, j).Some? ==> r.latencyMs < Hit(c, ask, j).value
  }

  lemma {:induction false} CachedBestIsEarliest(c: Lru, ask: Lookups, n: nat)
    requires ask.Valid() && n <= |ask.ips|
    ensures CachedBest(c, ask, n).Some? ==> EarliestBest(c, ask, n, CachedBest(c, ask, n).value)
    decreases n
  {
    hide Known, Better;
    if n > 0 {
      CachedBestIsEarliest(c, ask, n - 1);
      CachedBestIsLeast(c, ask, n - 1);
      BetterIs(CachedBest(c, ask, n - 1), ask.ips[n - 1], Known(c, ask, n - 1));
    }
  }

  /** No address, no choice; one address is chosen unasked. */
  lemma {:induction false} FewAddresses(c: Lru, ask: Lookups, arrivals: seq<PingResult>)
    requires ask.Valid()
    ensures ask.ips == [] ==> Choice(c, ask, arrivals) == None
    ensures |ask.ips| == 1 ==> Choice(c, ask, arrivals) == Some(PingResult(ask.ips[0], 0, true))
  {
  }

  /**
    With two or more: when every lookup finds an entry, the earliest of the fastest successes
    found; else the first successful ping, unless a success found is strictly faster.
   */
  lemma {:induction false} ChoiceExplained(c: Lru, ask: Lookups, arrivals: seq<PingResult>)
    requires ask.Valid() && |ask.ips| >= 2
    ensures var n := |ask.ips|;
            var r := Choice(c, ask, arrivals);
            var asked := exists i :: 0 <= i < n && Known(c, ask, i).None?;
            && (r.None? <==> (forall i :: 0 <= i < n ==> Hit(c, ask, i).None?)
                             && (asked ==> forall a :: a in arrivals ==> !a.success))
            && (!asked && r.Some? ==> EarliestBest(c, ask, n, r.value))
            && (asked ==>
                  && (forall p :: FirstIn(arrivals, p) && NoneFaster(c, ask, n, p.latencyMs) ==> r == Some(p))
                  && (r.Some? && !FirstIn(arrivals, r.value) ==>
                        && EarliestBest(c, ask, n, r.value)
                        && forall p :: FirstIn(arrivals, p) ==> r.value.latencyMs < p.latencyMs))
  {
    hide CachedBest, FirstSuccess, Hit, EarliestBest, Known;
    CachedBestIsLeast(c, ask, |ask.ips|);
    CachedBestIsEarliest(c, ask, |ask.ips|);
    FirstSuccessArrived(arrivals);
    FirstSuccessIsFirst(arrivals);
  }

  /** No lookup found a success below this latency. */
  ghost predicate NoneFaster(c: Lru, ask: Lookups, n: nat, latency: uint32)
    requires ask.Valid() && n <= |ask.ips|
  {
    forall i :: 0 <= i < n && Hit(c, ask, i).Some? ==> latency <= Hit(c, ask, i).value
  }

  /**
    Whatever other tasks do to the cache meanwhile, the chosen address is one of those asked
    about, at least as fast as every success a lookup found and as the first ping that succeeded;
    there is none exactly when neither kind of success exists.
   */
  lemma {:induction false} FastestIsBest(c: Lru, ask: Lookups, arrivals: seq<PingResult>)
    requires ask.Valid() && forall a :: a in arrivals ==> a.ip in ask.ips
    ensures var pinged := FirstSuccess(arrivals);
            var r := Fastest(CachedBest(c, ask, |ask.ips|), pinged);
            && (r.None? <==> (forall i :: 0 <= i < |ask.ips| ==> Hit(c, ask, i).None?)
                             && forall a :: a in arrivals ==> !a.success)
            && (r.Some? ==>
                  && r.value.ip in ask.ips && r.value.success
                  && (pinged.Some? ==> r.value.latencyMs <= pinged.value.latencyMs)
                  && forall i :: 0 <= i < |ask.ips| && Hit(c, ask, i).Some? ==>
                      r.value.latencyMs <= Hit(c, ask, i).value)
  {
    hide CachedBest, FirstSuccess, Hit;
    CachedBestIsLeast(c, ask, |ask.ips|);
    FirstSuccessArrived(arrivals);
  }

  // ---------------------------------------------------------------- ping_do_tcp

  /** The key a ping stores under: the IPv4 form of an IPv6 address that has one, mapped or compatible. */
  function PingKey(ip: IpAddr): (k: Key)
    ensures k.V6? ==> k == ip
  {
    if ip.V6? && HasIpv4Form(ip.octets6) then V4(ip.octets6[12..]) else ip
  }

  predicate HasIpv4Form(o: Bytes)
    requires |o| == 16
  {
    (forall i :: 0 <= i < 10 ==> o[i] == 0) && ((o[10] == 0 && o[11] == 0) || (o[10] == 0xFF && o[11] == 0xFF))
  }

  /** In octets: ten zeros and then two zeros or two times 255 before the four octets of the key. */
  lemma {:induction false} PingKeyOctets(ip: IpAddr)
    ensures ip.V4? ==> PingKey(ip) == ip
    ensures ip.V6? ==>
              var o := ip.octets6;
              var form := o[..10] == [0, 0, 0, 0, 0, 0, 0, 0, 0, 0] && o[10..12] in [[0, 0], [255, 255]];
              PingKey(ip) == if form then V4([o[12], o[13], o[14], o[15]]) else ip
  {
    if ip.V6? {
      var o := ip.octets6;
      assert o[12..] == [o[12], o[13], o[14], o[15]];
      assert forall i :: 0 <= i < 10 ==> o[i] == o[..10][i];
      assert o[10..12] == [o[10], o[11]];
    }
  }

  function PingOp(ip: IpAddr, success: bool, latency: uint32, now: nat): Op {
    if success then StoreSuccess(PingKey(ip), latency, now) else StoreFailure(PingKey(ip), now)
  }

  lemma {:induction false} PingStores(c: Lru, ip: IpAddr, success: bool, latency: uint32, now: nat)
    ensures var key := if ip.V6? && HasIpv4Form(ip.octets6) then V4(ip.octets6[12..]) else ip;
            Stored(c, PingOp(ip, success, latency, now))
            == if success then AfterSuccess(c, key, latency, now) else AfterFailure(c, key, now)
  {
    hide AfterSuccess, AfterFailure, HasIpv4Form;
  }

  method PingDoTcp(cache: FastestIpCache, ip: IpAddr, success: bool, latency: uint32, now: nat) returns (r: PingResult)
    requires cache.Valid()
    modifies cache
    ensures cache.Valid() && cache.Abs() == Stored(old(cache.Abs()), PingOp(ip, success, latency, now))
    ensures r == PingResult(ip, latency, success)
  {
    hide Stored, AfterSuccess, AfterFailure, Linked, Keyed, Entries, HasIpv4Form;
    PingStores(cache.Abs(), ip, success, latency, now);
    var key := ip;
    if ip.V6? && HasIpv4Form(ip.octets6) {
      key := V4(ip.octets6[12..]);
    }
    if success {
      StoreFastestSuccess(cache, key, latency, now);
    } else {
      StoreFastestFailure(cache, key, now);
    }
    return PingResult(ip, latency, success);
  }

  /** What a ping leaves under its key: a success no slower than it, or a failure where nothing was known. */
  lemma {:induction false} PingRecorded(c: Lru, ip: IpAddr, latency: uint32, now: nat)
    requires Coherent(c)
    ensures var d := Stored(c, PingOp(ip, true, latency, now));
            && PingKey(ip) in d.held && d.held[PingKey(ip)].status == Success
            && d.held[PingKey(ip)].latencyMs <= latency
    ensures var d := Stored(c, PingOp(ip, false, latency, now));
            && PingKey(ip) in d.held
            && d.held[PingKey(ip)]
               == if Live(c, PingKey(ip), now) then c.held[PingKey(ip)] else Entry(Failure, 0, TenMinutesFrom(now))
  {
    hide Stored, PingKey, Coherent;
    StoresUnderKey(c, PingKey(ip), latency, now);
  }

  /** The program stores through pings only; lookups use the address as it stands in the answer. */
  ghost predicate FromPings(ops: seq<Op>) {
    forall op :: op in ops && !op.Load? ==> exists ip: IpAddr :: op.key == PingKey(ip)
  }

  ghost predicate KeysStored(c: Lru) {
    forall k :: k in c.held ==> PingKey(k) == k
  }

  lemma {:induction false} PingKeyStable(ip: IpAddr)
    ensures PingKey(PingKey(ip)) == PingKey(ip)
  {
  }

  lemma {:induction false} StoredKeeps(c: Lru, op: Op)
    requires Coherent(c) && KeysStored(c) && (op.Load? || PingKey(op.key) == op.key)
    ensures Coherent(Stored(c, op)) && KeysStored(Stored(c, op))
  {
    hide AfterGet, AfterUpsert, Coherent, PingKey;
    var looked := AfterGet(c, op.key, op.nowMs);
    LookupKeeps(c, op.key, op.nowMs);
    match op
    case Load(_, _) =>
    case StoreFailure(k, now) => UpsertKeeps(looked, k, Entry(Failure, 0, ExpireAt(now)));
    case StoreSuccess(k, latency, now) => UpsertKeeps(looked, k, Entry(Success, latency, ExpireAt(now)));
  }

  lemma {:induction false} MeanwhileKeeps(c: Lru, ops: seq<Op>)
    requires Coherent(c) && KeysStored(c) && FromPings(ops)
    ensures Coherent(Meanwhile(c, ops)) && KeysStored(Meanwhile(c, ops))
    decreases |ops|
  {
    hide Coherent, KeysStored, PingKey, Stored;
    if |ops| > 0 {
      var last := ops[|ops| - 1];
      MeanwhileKeeps(c, ops[..|ops| - 1]);
      assert last in ops;
      if !last.Load? {
        var ip: IpAddr :| last.key == PingKey(ip);
        PingKeyStable(ip);
      }
      StoredKeeps(Meanwhile(c, ops[..|ops| - 1]), last);
    }
  }

  /**
    After any run of pings and lookups from an empty cache, a ping's result is found again under
    the address that was pinged if and only if that address has no IPv4 form.
   */
  lemma {:induction false} PingFoundIff(maxSize: nat, ops: seq<Op>, ip: IpAddr, success: bool, latency: uint32,
      now: nat)
    requires FromPings(ops) && now < U64_MAX
    ensures var c := Meanwhile(Lru(if maxSize > 1 then maxSize else 1, [], map[]), ops);
            GetResult(Stored(c, PingOp(ip, success, latency, now)), ip, now).Some? <==> PingKey(ip) == ip
  {
    hide Meanwhile, AfterGet, AfterUpsert, Coherent, PingKey;
    var empty := Lru(if maxSize > 1 then maxSize else 1, [], map[]);
    EmptyKeeps(empty);
    MeanwhileKeeps(empty, ops);
    var c := Meanwhile(empty, ops);
    var key := PingKey(ip);
    PingKeyStable(ip);
    StoredKeeps(c, PingOp(ip, success, latency, now));
    var looked := AfterGet(c, key, now);
    LookupKeeps(c, key, now);
    UpsertKeeps(looked, key, Entry(Failure, 0, ExpireAt(now)));
    UpsertKeeps(looked, key, Entry(Success, latency, ExpireAt(now)));
  }

  lemma {:induction false} EmptyKeeps(c: Lru)
    requires c.max >= 1 && c.order == [] && c.held == map[]
    ensures Coherent(c) && KeysStored(c)
  {
  }

  /** Such an address is never found, at any time after any run: every lookup of it leads to pings. */
  lemma {:induction false} MappedNeverFound(maxSize: nat, ops: seq<Op>, ip: IpAddr, now: nat)
    requires FromPings(ops) && PingKey(ip) != ip
    ensures GetResult(Meanwhile(Lru(if maxSize > 1 then maxSize else 1, [], map[]), ops), ip, now).None?
  {
    hide Meanwhile, Coherent, PingKey;
    var empty := Lru(if maxSize > 1 then maxSize else 1, [], map[]);
    EmptyKeeps(empty);
    MeanwhileKeeps(empty, ops);
  }

  // ---------------------------------------------------------------- the reply that is returned

  predicate Contains(rrs: seq<Record>, ip: IpAddr) {
    exists i :: 0 <= i < |rrs| && Selects(rrs[i].rrType, rrs[i].rrClass, |rrs[i].rdata|, ip)
        && rrs[i].rdata == ip.Octets()
  }

  /** Testing for an address and listing the addresses are two passes over the answers; they agree. */
  lemma {:induction false} ContainsIffListed(rrs: seq<Record>, ip: IpAddr)
    ensures Contains(rrs, ip) <==> ip in AnswerIps(rrs)
    decreases |rrs|
  {
    if rrs != [] {
      ContainsIffListed(rrs[1..], ip);
      var here := Selects(rrs[0].rrType, rrs[0].rrClass, |rrs[0].rdata|, ip) && rrs[0].rdata == ip.Octets();
      assert Contains(rrs, ip) <==> here || Contains(rrs[1..], ip) by {
        if Contains(rrs[1..], ip) {
          var i :| 0 <= i < |rrs[1..]| && Selects(rrs[1..][i].rrType, rrs[1..][i].rrClass, |rrs[1..][i].rdata|, ip)
                   && rrs[1..][i].rdata == ip.Octets();
          assert rrs[i + 1] == rrs[1..][i];
        }
        if Contains(rrs, ip) && !here {
          var i :| 0 <= i < |rrs| && Selects(rrs[i].rrType, rrs[i].rrClass, |rrs[i].rdata|, ip)
              && rrs[i].rdata == ip.Octets();
          assert rrs[1..][i - 1] == rrs[i];
        }
      }
    }
  }

  predicate ReplyContains(p: Bytes, ip: IpAddr) {
    Unpack(p).Ok? && Contains(Unpack(p).value.answers, ip)
  }

  /** The first reply with the address, rewritten; the first reply as it is when none has it or rewriting fails. */
  ghost function Answered(replies: seq<Bytes>, ip: IpAddr, first: Bytes): Bytes {
    if |replies| == 0 then first
    else if ReplyContains(replies[0], ip) then
      if RewriteOutcome(replies[0]).Ok? then RewriteBytes(replies[0], ip) else first
    else Answered(replies[1..], ip, first)
  }

  method AnswerWith(replies: seq<Bytes>, ip: IpAddr) returns (packet: Bytes)
    requires |replies| > 0
    ensures packet == Answered(replies, ip, replies[0])
  {
    hide RewriteOutcome, RewriteBytes, ReplyContains;
    for i := 0 to |replies|
      invariant Answered(replies, ip, replies[0]) == Answered(replies[i..], ip, replies[0])
    {
      assert replies[i..][1..] == replies[i + 1..];
      if ReplyContains(replies[i], ip) {
        var buffer := new byte[|replies[i]|](k requires 0 <= k < |replies[i]| => replies[i][k]);
        assert buffer[..] == replies[i];
        var rewritten := RewriteAnswerIpsInPacket(buffer, ip);
        return if rewritten.Ok? then buffer[..] else replies[0];
      }
    }
    return replies[0];
  }

  lemma {:induction false} AnsweredIs(replies: seq<Bytes>, ip: IpAddr, first: Bytes) returns (i: nat)
    requires exists k :: 0 <= k < |replies| && ip in ReplyIps(replies[k])
    ensures i < |replies| && ReplyContains(replies[i], ip)
        && Answered(replies, ip, first) == RewriteBytes(replies[i], ip)
    ensures forall k :: 0 <= k < i ==> !ReplyContains(replies[k], ip)
    decreases |replies|
  {
    hide RewriteOutcome, RewriteBytes, ReplyContains, ReplyIps;
    if ReplyContains(replies[0], ip) {
      i := 0;
      AcceptedRewrites(replies[0], ip);
    } else {
      var k :| 0 <= k < |replies| && ip in ReplyIps(replies[k]);
      ListedIsContained(replies[0], ip);
      assert replies[1..][k - 1] == replies[k];
      i := AnsweredIs(replies[1..], ip, first);
      i := i + 1;
    }
  }

  lemma {:induction false} AcceptedRewrites(p: Bytes, ip: IpAddr)
    requires ReplyContains(p, ip)
    ensures RewriteOutcome(p).Ok?
  {
    AcceptedWalk(p);
  }

  lemma {:induction false} ListedIsContained(p: Bytes, ip: IpAddr)
    ensures ip in ReplyIps(p) <==> ReplyContains(p, ip)
  {
    hide Contains, AnswerIps;
    if Unpack(p).Ok? {
      ContainsIffListed(Unpack(p).value.answers, ip);
    }
  }

  lemma {:induction false} IpsRewrittenIff(p: Bytes, ip: IpAddr)
    requires ip in ReplyIps(p)
    ensures ReplyIps(RewriteBytes(p, ip)) == Substituted(ReplyIps(p), ip) <==> Unpack(RewriteBytes(p, ip)).Ok?
  {
    hide Unpack, AnswerIps, RewriteBytes;
    if Unpack(RewriteBytes(p, ip)).Ok? {
      RewrittenIps(p, ip);
    }
  }

  /**
    For every address collected from the replies, the answer is the first reply that has it,
    rewritten: neither fallback to the first packet is ever taken.  Its answer addresses are those
    of the reply with every one of that family replaced, if and only if it still decodes; it does
    whenever no name of the reply reads an address that is replaced.
   */
  lemma {:induction false} AnswerCarriesFastest(replies: seq<Bytes>, ip: IpAddr) returns (i: nat)
    requires Candidate(replies, ip)
    ensures i < |replies| && ip in ReplyIps(replies[i])
    ensures Answered(replies, ip, replies[0]) == RewriteBytes(replies[i], ip)
    ensures forall k :: 0 <= k < i ==> ip !in ReplyIps(replies[k])
    ensures ReplyIps(Answered(replies, ip, replies[0])) == Substituted(ReplyIps(replies[i]), ip)
       <==> Unpack(Answered(replies, ip, replies[0])).Ok?
    ensures Unpack(replies[i]).Ok?
    ensures NamesAvoid(replies[i], ChosenData(replies[i], ip)) ==>
              ReplyIps(Answered(replies, ip, replies[0])) == Substituted(ReplyIps(replies[i]), ip)
  {
    hide RewriteOutcome, RewriteBytes, ReplyContains, Unpack, AnswerIps, NamesAvoid, ChosenData;
    i := AnsweredIs(replies, ip, replies[0]);
    forall k | 0 <= k <= i
      ensures ip in ReplyIps(replies[k]) <==> ReplyContains(replies[k], ip)
    {
      ListedIsContained(replies[k], ip);
    }
    IpsRewrittenIff(replies[i], ip);
    if NamesAvoid(replies[i], ChosenData(replies[i], ip)) {
      RewriteRefinesClear(replies[i], ip);
    }
  }

  /** When no reply has the address the first reply is returned as it is. */
  lemma {:induction false} AnswerOtherwise(replies: seq<Bytes>, ip: IpAddr, first: Bytes)
    requires forall i :: 0 <= i < |replies| ==> ip !in ReplyIps(replies[i])
    ensures Answered(replies, ip, first) == first
    decreases |replies|
  {
    hide ReplyContains, ReplyIps, RewriteBytes, RewriteOutcome;
    if |replies| > 0 {
      ListedIsContained(replies[0], ip);
      assert forall i :: 0 <= i < |replies| - 1 ==> replies[1..][i] == replies[i + 1];
      AnswerOtherwise(replies[1..], ip, first);
    }
  }
}
