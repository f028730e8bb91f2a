/** Weighted load balancing with failover, as in upstream/load_balance.rs; weights are real numbers. */
module LoadBalance {
  import opened Wire

  // ---------------------------------------------------------------- weights

  datatype RttStats = RttStats(rttSumUs: real, reqNum: real)

  const NoStats := RttStats(0.0, 0.0)

  /** The inverse of the mean round trip, or 1 for an upstream without measurements. */
  function Weight(stat: Option<RttStats>): (w: real)
    ensures w > 0.0
  {
    var s := if stat.Some? then stat.value else NoStats;
    if s.rttSumUs <= 0.0 || s.reqNum <= 0.0 then 1.0
    else
      assert s.rttSumUs / s.reqNum > 0.0;
      1.0 / (s.rttSumUs / s.reqNum)
  }

  /** A measured upstream weighs the inverse of its mean round trip, any other weighs 1. */
  lemma {:induction false} WeightOfMean(s: RttStats)
    ensures s.rttSumUs > 0.0 && s.reqNum > 0.0 ==> Weight(Some(s)) * (s.rttSumUs / s.reqNum) == 1.0
    ensures s.rttSumUs <= 0.0 || s.reqNum <= 0.0 ==> Weight(Some(s)) == 1.0
    ensures Weight(None) == 1.0
  {
    if s.rttSumUs > 0.0 && s.reqNum > 0.0 {
      Inverse(s.rttSumUs / s.reqNum);
    }
  }

  lemma {:induction false} Inverse(x: real)
    requires x > 0.0
    ensures 1.0 / x * x == 1.0
  {
  }

  lemma {:induction false} InverseOrder(v: real, x: real, w: real, y: real)
    requires v * x == 1.0 && w * y == 1.0 && 0.0 < x < y && v > 0.0 && w > 0.0
    ensures v > w
  {
    var u := v * w;
    assert v == v * (w * y) == u * y;
    assert w == w * (v * x) == u * x;
    assert u > 0.0;
    assert u * (y - x) > 0.0;
  }

  /** Of two measured upstreams the faster on average weighs more. */
  lemma {:induction false} FasterWeighsMore(a: RttStats, b: RttStats)
    requires a.rttSumUs > 0.0 && a.reqNum > 0.0 && b.rttSumUs > 0.0 && b.reqNum > 0.0
    requires a.rttSumUs / a.reqNum < b.rttSumUs / b.reqNum
    ensures Weight(Some(a)) > Weight(Some(b))
  {
    WeightOfMean(a);
    WeightOfMean(b);
    assert a.rttSumUs / a.reqNum > 0.0;
    InverseOrder(Weight(Some(a)), a.rttSumUs / a.reqNum, Weight(Some(b)), b.rttSumUs / b.reqNum);
  }

  method CalcWeights(stats: seq<Option<RttStats>>) returns (weights: seq<real>)
    ensures |weights| == |stats|
    ensures forall i :: 0 <= i < |stats| ==> weights[i] == Weight(stats[i]) && weights[i] > 0.0
  {
    weights := [];
    for i := 0 to |stats|
      invariant |weights| == i
      invariant forall k :: 0 <= k < i ==> weights[k] == Weight(stats[k]) && weights[k] > 0.0
    {
      weights := weights + [Weight(stats[i])];
    }
  }

  // ---------------------------------------------------------------- sampling

  ghost predicate InRange(remaining: seq<nat>, n: nat) {
    forall k :: 0 <= k < |remaining| ==> remaining[k] < n
  }

  function Share(weights: seq<real>, idx: nat): real
    requires idx < |weights|
  {
    if weights[idx] > 0.0 then weights[idx] else 0.0
  }

  function Total(remaining: seq<nat>, weights: seq<real>): (t: real)
    requires InRange(remaining, |weights|)
    ensures t >= 0.0
  {
    if |remaining| == 0 then 0.0
    else Total(remaining[..|remaining| - 1], weights) + Share(weights, remaining[|remaining| - 1])
  }

  /** The total is the sum of the positive weights. */
  lemma {:induction false} TotalSums(a: seq<nat>, b: seq<nat>, weights: seq<real>)
    requires InRange(a, |weights|) && InRange(b, |weights|)
    ensures InRange(a + b, |weights|) && Total(a + b, weights) == Total(a, weights) + Total(b, weights)
    ensures |a| == 1 ==> Total(a, weights) == if weights[a[0]] > 0.0 then weights[a[0]] else 0.0
    decreases |b|
  {
    if |b| == 0 {
      assert a + b == a;
    } else {
      var n := |b| - 1;
      TotalSums(a, b[..n], weights);
      assert (a + b)[..|a + b| - 1] == a + b[..n];
    }
    if |a| == 1 {
      assert a[..0] == [];
    }
  }

  /** The cursor falls in the interval of this position, intervals being laid end to end from zero. */
  ghost predicate Hits(remaining: seq<nat>, weights: seq<real>, cursor: real, pos: nat)
    requires InRange(remaining, |weights|)
  {
    && pos < |remaining|
    && weights[remaining[pos]] > 0.0
    && (Total(remaining[..pos], weights) == 0.0 || Total(remaining[..pos], weights) < cursor)
    && cursor <= Total(remaining[..pos + 1], weights)
  }

  /** The first position from `pos` on whose interval reaches the cursor, 0 when there is none. */
  function Reaches(remaining: seq<nat>, weights: seq<real>, cursor: real, pos: nat): nat
    requires InRange(remaining, |weights|) && pos <= |remaining|
    decreases |remaining| - pos
  {
    if pos == |remaining| then 0
    else if weights[remaining[pos]] > 0.0 && cursor <= Total(remaining[..pos + 1], weights) then pos
    else Reaches(remaining, weights, cursor, pos + 1)
  }

  /** Where on the line of intervals a draw from [0, 1) falls. */
  function Cursor(draw: real, total: real): real {
    draw * total
  }

  function Picked(remaining: seq<nat>, weights: seq<real>, draw: real): nat
    requires InRange(remaining, |weights|)
  {
    var total := Total(remaining, weights);
    if total <= 0.0 then 0 else Reaches(remaining, weights, Cursor(draw, total), 0)
  }

  lemma {:induction false} CursorIs(draw: real, total: real)
    ensures Cursor(draw, total) == draw * total
  {
  }

  lemma {:induction false} CursorWithin(draw: real, total: real)
    requires 0.0 <= draw < 1.0 && total > 0.0
    ensures 0.0 <= Cursor(draw, total) <= total
  {
  }

  lemma {:induction false} TotalSnoc(remaining: seq<nat>, weights: seq<real>, pos: nat)
    requires InRange(remaining, |weights|) && pos < |remaining|
    ensures Total(remaining[..pos + 1], weights) == Total(remaining[..pos], weights) + Share(weights, remaining[pos])
  {
    assert remaining[..pos + 1][..pos] == remaining[..pos];
  }

  /** `draw` is the random number of the source, uniform over [0, 1). */
  method SampleWeightedIndex(remaining: seq<nat>, weights: seq<real>, draw: real) returns (picked: nat)
    requires InRange(remaining, |weights|)
    ensures picked == Picked(remaining, weights, draw)
  {
    hide Cursor;
    var total := 0.0;
    for i := 0 to |remaining|
      invariant total == Total(remaining[..i], weights)
    {
      TotalSnoc(remaining, weights, i);
      var w := weights[remaining[i]];
      if w > 0.0 {
        total := total + w;
      }
    }
    assert remaining[..|remaining|] == remaining;
    if total <= 0.0 {
      return 0;
    }
    var cursor := Cursor(draw, total);
    for pos := 0 to |remaining|
      invariant cursor == Cursor(draw, total) - Total(remaining[..pos], weights)
      invariant Picked(remaining, weights, draw) == Reaches(remaining, weights, Cursor(draw, total), pos)
    {
      TotalSnoc(remaining, weights, pos);
      var w := weights[remaining[pos]];
      if w > 0.0 {
        if cursor <= w {
          return pos;
        }
        cursor := cursor - w;
      }
    }
    return 0;
  }

  lemma {:induction false} TotalGrows(remaining: seq<nat>, weights: seq<real>, i: nat, j: nat)
    requires InRange(remaining, |weights|) && i <= j <= |remaining|
    ensures Total(remaining[..i], weights) <= Total(remaining[..j], weights)
    decreases j - i
  {
    if i < j {
      TotalSnoc(remaining, weights, i);
      TotalGrows(remaining, weights, i + 1, j);
    }
  }

  lemma {:induction false} ReachesHits(remaining: seq<nat>, weights: seq<real>, cursor: real, pos: nat)
    requires InRange(remaining, |weights|) && pos <= |remaining|
    requires cursor <= Total(remaining, weights) && 0.0 < Total(remaining, weights)
    requires Total(remaining[..pos], weights) == 0.0 || Total(remaining[..pos], weights) < cursor
    ensures Hits(remaining, weights, cursor, Reaches(remaining, weights, cursor, pos))
    decreases |remaining| - pos
  {
    assert remaining[..|remaining|] == remaining;
    if pos < |remaining| {
      TotalSnoc(remaining, weights, pos);
      if !(weights[remaining[pos]] > 0.0 && cursor <= Total(remaining[..pos + 1], weights)) {
        ReachesHits(remaining, weights, cursor, pos + 1);
      }
    }
  }

  lemma {:induction false} HitsOnce(remaining: seq<nat>, weights: seq<real>, cursor: real, i: nat, j: nat)
    requires InRange(remaining, |weights|)
    requires Hits(remaining, weights, cursor, i) && Hits(remaining, weights, cursor, j)
    ensures i == j
  {
    var a, b := if i < j then i else j, if i < j then j else i;
    if a < b {
      TotalSnoc(remaining, weights, a);
      TotalGrows(remaining, weights, a + 1, b);
    }
  }

  /**
    The pick is in range; and when some remaining upstream has a positive weight, a position is
    picked exactly for the draws of its own interval, whose length is its share of the total weight.
   */
  lemma {:induction false} PickedIffHit(remaining: seq<nat>, weights: seq<real>, draw: real, pos: nat)
    requires InRange(remaining, |weights|) && |remaining| > 0 && 0.0 <= draw < 1.0
    ensures Picked(remaining, weights, draw) < |remaining|
    ensures var total := Total(remaining, weights);
            total > 0.0 ==> (Picked(remaining, weights, draw) == pos <==>
                Hits(remaining, weights, Cursor(draw, total), pos))
  {
    hide Cursor;
    var total := Total(remaining, weights);
    if total > 0.0 {
      CursorWithin(draw, total);
      assert remaining[..0] == [];
      ReachesHits(remaining, weights, Cursor(draw, total), 0);
      if Hits(remaining, weights, Cursor(draw, total), pos) {
        HitsOnce(remaining, weights, Cursor(draw, total), pos, Picked(remaining, weights, draw));
      }
    }
  }

  lemma {:induction false} PickedIffCursor(remaining: seq<nat>, weights: seq<real>, draw: real, pos: nat, cursor: real)
    requires InRange(remaining, |weights|) && pos < |remaining| && 0.0 <= draw < 1.0 && weights[remaining[pos]] > 0.0
    requires cursor == Cursor(draw, Total(remaining, weights))
    ensures var total, below := Total(remaining, weights), Total(remaining[..pos], weights);
            && total >= below + weights[remaining[pos]]
            && (Picked(remaining, weights, draw) == pos <==>
                  (below == 0.0 || below < cursor) && cursor <= below + weights[remaining[pos]])
  {
    hide Cursor, Picked;
    TotalSnoc(remaining, weights, pos);
    TotalGrows(remaining, weights, pos + 1, |remaining|);
    assert remaining[..|remaining|] == remaining;
    PickedIffHit(remaining, weights, draw, pos);
  }

  /** In numbers: a position is picked exactly for the draws whose part of the total falls in its interval. */
  lemma {:induction false} PickedIffDrawn(remaining: seq<nat>, weights: seq<real>, draw: real, pos: nat)
    requires InRange(remaining, |weights|) && pos < |remaining| && 0.0 <= draw < 1.0 && weights[remaining[pos]] > 0.0
    ensures var total, below := Total(remaining, weights), Total(remaining[..pos], weights);
            && total >= below + weights[remaining[pos]]
            && (Picked(remaining, weights, draw) == pos <==>
                  (below == 0.0 || below < draw * total) && draw * total <= below + weights[remaining[pos]])
  {
    hide Cursor, Picked, Total;
    CursorIs(draw, Total(remaining, weights));
    PickedIffCursor(remaining, weights, draw, pos, draw * Total(remaining, weights));
  }

  /** The picked upstream has a positive weight whenever any remaining one has. */
  lemma {:induction false} PickedHasWeight(remaining: seq<nat>, weights: seq<real>, draw: real, some: nat)
    requires InRange(remaining, |weights|) && 0.0 <= draw < 1.0
    requires some < |remaining| && weights[remaining[some]] > 0.0
    ensures var pos := Picked(remaining, weights, draw); pos < |remaining| && weights[remaining[pos]] > 0.0
  {
    hide Cursor;
    TotalSnoc(remaining, weights, some);
    TotalGrows(remaining, weights, some + 1, |remaining|);
    assert remaining[..|remaining|] == remaining;
    PickedIffHit(remaining, weights, draw, Picked(remaining, weights, draw));
  }

  // ---------------------------------------------------------------- the order of attempts

  /** Removal by swapping in the last element. */
  function SwapRemove(s: seq<nat>, i: nat): (r: seq<nat>)
    requires i < |s|
    ensures |r| == |s| - 1
    ensures forall k :: 0 <= k < |r| ==> r[k] == if k == i then s[|s| - 1] else s[k]
  {
    s[i := s[|s| - 1]][..|s| - 1]
  }

  ghost predicate Draws(draws: seq<real>, count: nat) {
    |draws| == count && forall k :: 0 <= k < |draws| ==> 0.0 <= draws[k] < 1.0
  }

  /** The order in which upstreams would be tried if none ever answered. */
  ghost function Order(remaining: seq<nat>, weights: seq<real>, draws: seq<real>): (order: seq<nat>)
    requires InRange(remaining, |weights|) && Draws(draws, |remaining|)
    ensures |order| == |remaining|
    decreases |remaining|
  {
    if |remaining| == 0 then []
    else
      var pos := Picked(remaining, weights, draws[0]);
      PickedIffHit(remaining, weights, draws[0], 0);
      [remaining[pos]] + Order(SwapRemove(remaining, pos), weights, draws[1..])
  }

  ghost predicate Distinct(s: seq<nat>) {
    forall i, j :: 0 <= i < j < |s| ==> s[i] != s[j]
  }

  lemma {:induction false} SwapRemoveKeeps(s: seq<nat>, i: nat)
    requires i < |s|
    ensures multiset(s) == multiset(SwapRemove(s, i)) + multiset{s[i]}
    ensures Distinct(s) ==> Distinct(SwapRemove(s, i))
  {
    hide Distinct, SwapRemove;
    SwapRemoveDistinct(s, i);
    var n := |s| - 1;
    var rest := SwapRemove(s, i);
    assert s == s[..n] + [s[n]];
    if i < n {
      assert s[..n] == s[..i] + [s[i]] + s[i + 1..n];
      assert rest == s[..i] + [s[n]] + s[i + 1..n];
    } else {
      assert rest == s[..n];
    }
  }

  lemma {:induction false} SwapRemoveDistinct(s: seq<nat>, i: nat)
    requires i < |s|
    ensures Distinct(s) ==> Distinct(SwapRemove(s, i))
  {
    hide SwapRemove;
  }

  /** Every remaining upstream comes up exactly once, whatever the draws. */
  lemma {:induction false} OrderPermutes(remaining: seq<nat>, weights: seq<real>, draws: seq<real>)
    requires InRange(remaining, |weights|) && Draws(draws, |remaining|)
    ensures multiset(Order(remaining, weights, draws)) == multiset(remaining)
    ensures Distinct(remaining) ==> Distinct(Order(remaining, weights, draws))
    decreases |remaining|
  {
    hide Picked, Total, Distinct, SwapRemove;
    if |remaining| > 0 {
      var pos := Picked(remaining, weights, draws[0]);
      PickedIffHit(remaining, weights, draws[0], 0);
      var rest := SwapRemove(remaining, pos);
      SwapRemoveKeeps(remaining, pos);
      OrderPermutes(rest, weights, draws[1..]);
      DistinctCons(remaining, pos, Order(rest, weights, draws[1..]));
    }
  }

  lemma {:induction false} DistinctCons(s: seq<nat>, pos: nat, order: seq<nat>)
    requires pos < |s| && multiset(order) == multiset(SwapRemove(s, pos))
    requires Distinct(s) ==> Distinct(order)
    ensures Distinct(s) ==> Distinct([s[pos]] + order)
  {
    if Distinct(s) {
      var rest := SwapRemove(s, pos);
      assert s[pos] !in rest;
      assert s[pos] !in multiset(order);
      forall k | 0 <= k < |order|
        ensures order[k] != s[pos]
      {
        assert order[k] in multiset(order);
      }
    }
  }

  // ---------------------------------------------------------------- the failover loop

  datatype UpstreamStatistics = UpstreamStatistics(upstream: nat, error: Option<string>)

  datatype AttemptError = AttemptError(upstream: nat, message: string)

  datatype ExchangeError = UpstreamIssue | Direct(message: string) | Joined(attempts: seq<AttemptError>)

  datatype ExchangeOutcome = ExchangeOutcome(packet: Result<Bytes, ExchangeError>, stats: seq<UpstreamStatistics>)

  /** What upstream i would answer if it were asked, the validity check of its packet included. */
  type Replies = seq<Result<Bytes, string>>

  function FromUpstreamAttempts(failures: seq<AttemptError>): ExchangeError {
    if |failures| == 0 then UpstreamIssue else Joined(failures)
  }

  function Success(i: nat): UpstreamStatistics {
    UpstreamStatistics(i, None)
  }

  function Failure(i: nat, message: string): UpstreamStatistics {
    UpstreamStatistics(i, Some(message))
  }

  function Iota(n: nat): (s: seq<nat>)
    ensures |s| == n && forall i :: 0 <= i < n ==> s[i] == i
  {
    seq(n, i => i)
  }

  method FlattenStats(attempts: seq<Option<UpstreamStatistics>>) returns (stats: seq<UpstreamStatistics>)
    ensures (forall i :: 0 <= i < |attempts| ==> attempts[i].Some?) ==>
              |stats| == |attempts| && forall i :: 0 <= i < |attempts| ==> stats[i] == attempts[i].value
  {
    stats := [];
    for i := 0 to |attempts|
      invariant (forall k :: 0 <= k < i ==> attempts[k].Some?) ==>
                  |stats| == i && forall k :: 0 <= k < i ==> stats[k] == attempts[k].value
    {
      if attempts[i].Some? {
        stats := stats + [attempts[i].value];
      }
    }
  }

  /** The loop's record of the failed attempts, in the order tried and by upstream. */
  ghost predicate Recorded(
    tried: seq<nat>, replies: Replies, failures: seq<AttemptError>, attempts: seq<Option<UpstreamStatistics>>)
  {
    && InRange(tried, |replies|) && |failures| == |tried| && |attempts| == |replies|
    && (forall k :: 0 <= k < |tried| ==>
        replies[tried[k]].Err?
        && failures[k] == AttemptError(tried[k], replies[tried[k]].error))
    && (forall k :: 0 <= k < |tried| ==> attempts[tried[k]] == Some(Failure(tried[k], replies[tried[k]].error)))
  }

  lemma {:induction false} RecordedSnoc(
    tried: seq<nat>, replies: Replies, failures: seq<AttemptError>, attempts: seq<Option<UpstreamStatistics>>, idx: nat)
    requires Recorded(tried, replies, failures, attempts) && idx < |replies| && replies[idx].Err?
    ensures var e := replies[idx].error;
            Recorded(tried + [idx], replies, failures + [AttemptError(idx, e)], attempts[idx := Some(Failure(idx, e))])
  {
  }

  /**
    `draws` are the random numbers the attempts use, in order.  Upstreams are tried in the sampled
    order until one answers with a valid packet.
   */
  method ExchangeLoadBalance(replies: Replies, stats: seq<Option<RttStats>>, draws: seq<real>)
    returns (outcome: ExchangeOutcome, weights: seq<real>, ghost tried: seq<nat>)
    requires |stats| == |replies| && Draws(draws, |replies|)
    ensures |weights| == |replies| && forall i :: 0 <= i < |stats| ==> weights[i] == Weight(stats[i])
    ensures |replies| == 1 ==> tried == [0]
    ensures |replies| != 1 ==> tried <= Order(Iota(|replies|), weights, draws)
    ensures InRange(tried, |replies|) && forall k :: 0 <= k < |tried| - 1 ==> replies[tried[k]].Err?
    ensures outcome.packet.Err? <==> forall i :: 0 <= i < |replies| ==> replies[i].Err?
    ensures outcome.packet.Ok? ==>
              && |tried| > 0
              && replies[tried[|tried| - 1]] == Ok(outcome.packet.value)
              && outcome.stats == [Success(tried[|tried| - 1])]
    ensures outcome.packet.Err? ==>
              && |tried| == |replies| == |outcome.stats|
              && forall i :: 0 <= i < |replies| ==> outcome.stats[i] == Failure(i, replies[i].error)
    ensures outcome.packet.Err? && |replies| == 0 ==> outcome.packet.error == UpstreamIssue
    ensures outcome.packet.Err? && |replies| == 1 ==> outcome.packet.error == Direct(replies[0].error)
    ensures outcome.packet.Err? && |replies| >= 2 ==>
              && outcome.packet.error.Joined?
              && |outcome.packet.error.attempts| == |tried|
              && forall k :: 0 <= k < |tried| ==>
                   outcome.packet.error.attempts[k] == AttemptError(tried[k], replies[tried[k]].error)
  {
    hide Order, Picked, Total, Weight, SwapRemove;
    weights := CalcWeights(stats);
    if |replies| == 1 {
      tried := [0];
      match replies[0]
      case Ok(packet) => return ExchangeOutcome(Ok(packet), [Success(0)]), weights, tried;
      case Err(message) => return ExchangeOutcome(Err(Direct(message)), [Failure(0, message)]), weights, tried;
    }
    var remaining := Iota(|replies|);
    var failures: seq<AttemptError> := [];
    var attempts: seq<Option<UpstreamStatistics>> := seq(|replies|, _ => None);
    tried := [];
    while |remaining| > 0
      invariant |tried| + |remaining| == |replies|
      invariant InRange(remaining, |weights|)
      invariant Order(Iota(|replies|), weights, draws) == tried + Order(remaining, weights, draws[|tried|..])
      invariant Recorded(tried, replies, failures, attempts)
    {
      var pickPos := SampleWeightedIndex(remaining, weights, draws[|failures|]);
      PickedIffHit(remaining, weights, draws[|tried|], 0);
      var idx := remaining[pickPos];
      OrderStep(tried, remaining, weights, draws);
      remaining := SwapRemove(remaining, pickPos);
      match replies[idx]
      case Ok(packet) =>
        tried := tried + [idx];
        return ExchangeOutcome(Ok(packet), [Success(idx)]), weights, tried;
      case Err(message) =>
        RecordedSnoc(tried, replies, failures, attempts, idx);
        failures := failures + [AttemptError(idx, message)];
        attempts := attempts[idx := Some(Failure(idx, message))];
        tried := tried + [idx];
    }
    AllTried(tried, replies, failures, attempts, weights, draws);
    var main := FlattenStats(attempts);
    outcome := ExchangeOutcome(Err(FromUpstreamAttempts(failures)), main);
  }

  lemma {:induction false} OrderStep(tried: seq<nat>, remaining: seq<nat>, weights: seq<real>, draws: seq<real>)
    requires InRange(remaining, |weights|) && |remaining| > 0 && Draws(draws, |tried| + |remaining|)
    ensures var pos := Picked(remaining, weights, draws[|tried|]);
            && pos < |remaining|
            && var rest, after := SwapRemove(remaining, pos), tried + [remaining[pos]];
            && InRange(rest, |weights|)
            && tried + Order(remaining, weights, draws[|tried|..]) == after + Order(rest, weights, draws[|after|..])
  {
    hide Picked, Total, SwapRemove;
    var later := draws[|tried|..];
    PickedIffHit(remaining, weights, later[0], 0);
    var pos := Picked(remaining, weights, later[0]);
    assert later[1..] == draws[|tried| + 1..];
    ConcatAssoc(tried, [remaining[pos]], Order(SwapRemove(remaining, pos), weights, later[1..]));
  }

  lemma {:induction false} AllTried(
    tried: seq<nat>, replies: Replies, failures: seq<AttemptError>, attempts: seq<Option<UpstreamStatistics>>,
    weights: seq<real>, draws: seq<real>)
    requires Recorded(tried, replies, failures, attempts) && |weights| == |replies| && Draws(draws, |replies|)
    requires tried == Order(Iota(|replies|), weights, draws)
    ensures forall i :: 0 <= i < |replies| ==> replies[i].Err? && attempts[i] == Some(Failure(i, replies[i].error))
  {
    hide Order;
    var all := Iota(|replies|);
    OrderPermutes(all, weights, draws);
    forall i | 0 <= i < |replies|
      ensures replies[i].Err? && attempts[i] == Some(Failure(i, replies[i].error))
    {
      assert all[i] in multiset(all);
      assert i in multiset(tried);
    }
  }

  // ---------------------------------------------------------------- main results

  /** No upstream is tried twice, and a loop that ends without an answer has tried each exactly once. */
  lemma {:induction false} AttemptsAreDistinct(n: nat, weights: seq<real>, draws: seq<real>, tried: seq<nat>)
    requires |weights| == n && Draws(draws, n) && tried <= Order(Iota(n), weights, draws)
    ensures Distinct(tried) && InRange(tried, n)
    ensures |tried| == n ==> multiset(tried) == multiset(Iota(n))
  {
    hide Order, Picked;
    var order := Order(Iota(n), weights, draws);
    OrderPermutes(Iota(n), weights, draws);
    forall k | 0 <= k < |tried|
      ensures tried[k] < n
    {
      assert order[k] in multiset(order);
      assert tried[k] in multiset(Iota(n));
    }
    assert |tried| == n ==> tried == order;
  }

  /**
    The upstream tried at place `k` is the one that draw `k` picks among exactly those not tried
    before; with PickedIffDrawn, by its share of their total weight.
   */
  lemma {:induction false} EachAttemptIsSampled(n: nat, weights: seq<real>, draws: seq<real>, k: nat)
    returns (remaining: seq<nat>, pos: nat)
    requires |weights| == n && Draws(draws, n) && k < n
    ensures var order := Order(Iota(n), weights, draws);
            && multiset(remaining) + multiset(order[..k]) == multiset(Iota(n)) && InRange(remaining, n)
            && pos < |remaining| && order[k] == remaining[pos]
            && var total := Total(remaining, weights);
            pos == Picked(remaining, weights, draws[k]) && (total <= 0.0 ==> pos == 0)
  {
    hide Order, Picked;
    remaining, pos := SampledFrom(Iota(n), weights, draws, k);
    var order := Order(Iota(n), weights, draws);
    assert order[..k] + order[k..] == order;
  }

  lemma {:induction false} SampledFrom(start: seq<nat>, weights: seq<real>, draws: seq<real>, k: nat)
    returns (remaining: seq<nat>, pos: nat)
    requires InRange(start, |weights|) && Draws(draws, |start|) && k < |start|
    ensures var order := Order(start, weights, draws);
            && multiset(remaining) + multiset(order[..k]) == multiset(start) && InRange(remaining, |weights|)
            && pos < |remaining| && order[k] == remaining[pos]
            && var total := Total(remaining, weights);
            pos == Picked(remaining, weights, draws[k]) && (total <= 0.0 ==> pos == 0)
    decreases k
  {
    hide Total, Hits, SwapRemove, Picked;
    var first := Picked(start, weights, draws[0]);
    PickedIffHit(start, weights, draws[0], first);
    PickedNone(start, weights, draws[0]);
    var order := Order(start, weights, draws);
    if k == 0 {
      remaining, pos := start, first;
      assert order[..0] == [];
    } else {
      var rest := SwapRemove(start, first);
      SwapRemoveKeeps(start, first);
      remaining, pos := SampledFrom(rest, weights, draws[1..], k - 1);
      assert order[..k] == [start[first]] + Order(rest, weights, draws[1..])[..k - 1];
    }
  }

  lemma {:induction false} PickedNone(remaining: seq<nat>, weights: seq<real>, draw: real)
    requires InRange(remaining, |weights|)
    ensures Total(remaining, weights) <= 0.0 ==> Picked(remaining, weights, draw) == 0
  {
  }
}
