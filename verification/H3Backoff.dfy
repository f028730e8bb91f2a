/** The protocol hint, the HTTP/3 failure window and the backoff of one upstream, as in lib.rs. */
module H3Backoff {
  import opened Wire

  const FAILURE_THRESHOLD := 3
  const FAILURE_WINDOW_MS := 60_000
  const BACKOFF_MS := 30_000
  const U64_MAX := 0xFFFF_FFFF_FFFF_FFFF

  datatype Protocol = Unknown | H2 | H3

  /** How an HTTP/3 exchange, retries included, ends; the request's own timeout may cut it short. */
  datatype PostOutcome = Answered | Failed(retryable: bool) | CutShort

  /** What the probes decide; the timeout may cut them short too. */
  datatype Probe = ResolveFails | Settles(h3: bool) | ProbeCutShort

  /**
    Everything one request meets: the clock readings its code takes, in order, what the probes and
    the HTTP/3 exchange answer, and whether the timeout falls in the HTTP/2 exchange.
   */
  datatype Request = Request(
    cachedAt: nat, selectAt: nat, probe: Probe, storeAt: nat,
    postAt: nat, outcome: PostOutcome, failedAt: nat, h2CutShort: bool)

  datatype Event = H3Post(at: nat) | Succeeded | Retryable(at: nat, armed: bool) | Final | H2Post | TimedOut

  datatype Upstream = Upstream(hint: Protocol, failures: nat, lastFailure: nat, backoffUntil: nat)

  function SaturatingAdd(a: nat, b: nat): nat {
    if a + b > U64_MAX then U64_MAX else a + b
  }

  function SaturatingSub(a: nat, b: nat): nat {
    if a < b then 0 else a - b
  }

  // ---------------------------------------------------------------- specification of the operations

  predicate InBackoff(u: Upstream, now: nat) {
    u.backoffUntil > now
  }

  function Count(u: Upstream, now: nat): nat {
    if u.lastFailure == 0 || SaturatingSub(now, u.lastFailure) > FAILURE_WINDOW_MS then 1 else u.failures + 1
  }

  function Recorded(u: Upstream, now: nat): Upstream {
    var counted := u.(failures := Count(u, now), lastFailure := now);
    if Count(u, now) >= FAILURE_THRESHOLD
    then counted.(failures := 0, backoffUntil := SaturatingAdd(now, BACKOFF_MS))
    else counted
  }

  function Cleared(u: Upstream): Upstream {
    u.(failures := 0, lastFailure := 0, backoffUntil := 0)
  }

  function CounterReset(u: Upstream): Upstream {
    u.(failures := 0, lastFailure := 0)
  }

  function Selected(u: Upstream, r: Request): Option<Protocol> {
    if InBackoff(u, r.selectAt) then Some(H2)
    else match r.probe
      case ResolveFails => Some(H2)
      case Settles(h3) => Some(if h3 then H3 else H2)
      case ProbeCutShort => None
  }

  /** The upstream and the events of a request from the point where it has settled on a protocol. */
  datatype Turn = Turn(upstream: Upstream, events: seq<Event>)

  function FallBack(u: Upstream, r: Request, before: seq<Event>): Turn {
    if r.h2CutShort then Turn(u.(hint := Unknown), before + [TimedOut]) else Turn(u, before + [H2Post])
  }

  function Posted(u: Upstream, r: Request): Turn {
    var post := H3Post(r.postAt);
    match r.outcome
    case CutShort => Turn(u.(hint := Unknown), [post, TimedOut])
    case Answered => Turn(Cleared(u), [post, Succeeded])
    case Failed(true) =>
      FallBack(Recorded(u, r.failedAt).(hint := Unknown), r,
               [post, Retryable(r.failedAt, Count(u, r.failedAt) >= FAILURE_THRESHOLD)])
    case Failed(false) => FallBack(CounterReset(u).(hint := H2), r, [post, Final])
  }

  function Served(u: Upstream, r: Request): Turn {
    var cached := if u.hint.H3? && InBackoff(u, r.cachedAt) then H2 else u.hint;
    if cached.Unknown? then
      match Selected(u, r)
      case None => Turn(u.(hint := Unknown), [TimedOut])
      case Some(p) =>
        var stored := if p.H2? && InBackoff(u, r.storeAt) then u else u.(hint := p);
        if p.H3? then Posted(stored, r) else FallBack(stored, r, [])
    else if cached.H3? then Posted(u, r) else FallBack(u, r, [])
  }

  // ---------------------------------------------------------------- the operations

  class DohUpstream {
    var hint: Protocol
    var failures: nat
    var lastFailure: nat
    var backoffUntil: nat

    function State(): Upstream
      reads this
    {
      Upstream(hint, failures, lastFailure, backoffUntil)
    }

    constructor ()
      ensures State() == Upstream(Unknown, 0, 0, 0)
    {
      hint, failures, lastFailure, backoffUntil := Unknown, 0, 0, 0;
    }

    method BackoffActive(now: nat) returns (active: bool)
      ensures active == InBackoff(State(), now)
    {
      active := backoffUntil > now;
    }

    method ClearH3Failures()
      modifies this
      ensures State() == Cleared(old(State()))
    {
      failures := 0;
      lastFailure := 0;
      backoffUntil := 0;
    }

    method ResetH3FailureCounter()
      modifies this
      ensures State() == CounterReset(old(State()))
    {
      failures := 0;
      lastFailure := 0;
    }

    method RecordH3Failure(now: nat) returns (armed: bool)
      modifies this
      ensures State() == Recorded(old(State()), now)
      ensures armed == (Count(old(State()), now) >= FAILURE_THRESHOLD)
    {
      var last := lastFailure;
      var count;
      if last == 0 || SaturatingSub(now, last) > FAILURE_WINDOW_MS {
        failures := 1;
        count := 1;
      } else {
        failures := failures + 1;
        count := failures;
      }
      lastFailure := now;
      if count >= FAILURE_THRESHOLD {
        failures := 0;
        backoffUntil := SaturatingAdd(now, BACKOFF_MS);
        return true;
      }
      return false;
    }

    method SelectDohProtocol(r: Request) returns (protocol: Option<Protocol>)
      ensures protocol == Selected(State(), r)
    {
      var active := BackoffActive(r.selectAt);
      if active {
        return Some(H2);
      }
      match r.probe
      case ResolveFails => return Some(H2);
      case Settles(h3) => return Some(if h3 then H3 else H2);
      case ProbeCutShort => return None;
    }

    method TimeOut()
      modifies this
      ensures State() == old(State()).(hint := Unknown)
    {
      hint := Unknown;
    }

    method ProxyDoh(r: Request) returns (events: seq<Event>)
      modifies this
      ensures Turn(State(), events) == Served(old(State()), r)
    {
      var protocol := hint;
      if protocol.H3? {
        var active := BackoffActive(r.cachedAt);
        if active {
          protocol := H2;
        }
      }
      if protocol.Unknown? {
        var selected := SelectDohProtocol(r);
        if selected.None? {
          TimeOut();
          return [TimedOut];
        }
        protocol := selected.value;
        var active := false;
        if protocol.H2? {
          active := BackoffActive(r.storeAt);
        }
        if !active {
          hint := protocol;
        }
      }
      events := [];
      if protocol.H3? {
        events := [H3Post(r.postAt)];
        match r.outcome
        case CutShort =>
          TimeOut();
          return events + [TimedOut];
        case Answered =>
          ClearH3Failures();
          return events + [Succeeded];
        case Failed(retryable) =>
          if retryable {
            var armed := RecordH3Failure(r.failedAt);
            var resetHint := retryable || armed;
            if resetHint {
              hint := Unknown;
            }
            events := events + [Retryable(r.failedAt, armed)];
          } else {
            ResetH3FailureCounter();
            hint := H2;
            events := events + [Final];
          }
      }
      if r.h2CutShort {
        TimeOut();
        events := events + [TimedOut];
      } else {
        events := events + [H2Post];
      }
    }
  }

  // ---------------------------------------------------------------- runs

  /** The clock is positive and never steps back, within a request and from one request to the next. */
  predicate Timed(clock: nat, r: Request) {
    0 < clock <= r.cachedAt <= r.selectAt <= r.storeAt <= r.postAt <= r.failedAt
  }

  datatype World = World(upstream: Upstream, log: seq<Event>, clock: nat)

  const Fresh := Upstream(Unknown, 0, 0, 0)

  function LastReading(requests: seq<Request>): nat {
    if |requests| == 0 then 1 else requests[|requests| - 1].failedAt
  }

  predicate TimedRun(requests: seq<Request>) {
    |requests| > 0 ==>
      var earlier := requests[..|requests| - 1];
      TimedRun(earlier) && Timed(LastReading(earlier), requests[|requests| - 1])
  }

  /** Requests to one upstream, one after another. */
  function Run(requests: seq<Request>): World {
    if |requests| == 0 then World(Fresh, [], 1)
    else
      var w := Run(requests[..|requests| - 1]);
      var r := requests[|requests| - 1];
      var turn := Served(w.upstream, r);
      World(turn.upstream, w.log + turn.events, r.failedAt)
  }

  // ---------------------------------------------------------------- what a log means

  function ChainNext(chain: seq<nat>, e: Event): seq<nat> {
    match e
    case Retryable(at, _) =>
      if |chain| > 0 && at <= chain[|chain| - 1] + 60_000 then chain + [at] else [at]
    case Succeeded => []
    case Final => []
    case H3Post(_) => chain
    case H2Post => chain
    case TimedOut => chain
  }

  /** The current chain of retryable failures: each at most the window after the one before. */
  function Chain(log: seq<Event>): seq<nat> {
    if |log| == 0 then [] else ChainNext(Chain(log[..|log| - 1]), log[|log| - 1])
  }

  /** The failure at this place of the log is every third of its chain. */
  ghost predicate Third(log: seq<Event>, i: nat) {
    i < |log| && log[i].Retryable? && |Chain(log[..i + 1])| % 3 == 0
  }

  ghost predicate Arms(log: seq<Event>, i: nat) {
    i < |log| && log[i].Retryable? && log[i].armed
  }

  ghost predicate ArmsEachThird(log: seq<Event>) {
    forall i :: 0 <= i < |log| ==> (Arms(log, i) <==> Third(log, i))
  }

  ghost predicate QuietAfterArming(log: seq<Event>) {
    forall i, j :: 0 <= i < j < |log| && Arms(log, i) && log[j].H3Post? ==>
      log[j].at >= SaturatingAdd(log[i].at, BACKOFF_MS)
  }

  /** A non-retryable failure that no timeout has followed yet. */
  function Pinned(log: seq<Event>): bool {
    |log| > 0 &&
    match log[|log| - 1]
    case Final => true
    case TimedOut => false
    case _ => Pinned(log[..|log| - 1])
  }

  ghost predicate Tally(u: Upstream, log: seq<Event>) {
    var chain := Chain(log);
    && u.failures == |chain| % FAILURE_THRESHOLD
    && u.lastFailure == (if |chain| == 0 then 0 else chain[|chain| - 1])
  }

  ghost predicate Past(log: seq<Event>, clock: nat) {
    forall i :: 0 <= i < |log| && log[i].Retryable? ==> 0 < log[i].at <= clock
  }

  /** Every backoff armed so far is over, or still stands. */
  ghost predicate Remembers(log: seq<Event>, until: nat) {
    forall i :: 0 <= i < |log| && Arms(log, i) ==> SaturatingAdd(log[i].at, BACKOFF_MS) <= until
  }

  function Later(a: nat, b: nat): nat {
    if a < b then b else a
  }

  ghost predicate Inv(w: World) {
    && w.clock > 0
    && w.upstream.lastFailure <= w.clock
    && Tally(w.upstream, w.log)
    && Past(w.log, w.clock)
    && Remembers(w.log, Later(w.clock, w.upstream.backoffUntil))
    && ArmsEachThird(w.log)
    && QuietAfterArming(w.log)
    && (Pinned(w.log) ==> w.upstream.hint.H2?)
  }

  // ---------------------------------------------------------------- every event keeps the invariant

  lemma {:induction false} ChainSnoc(log: seq<Event>, e: Event)
    ensures Chain(log + [e]) == ChainNext(Chain(log), e)
  {
    assert (log + [e])[..|log|] == log;
  }

  lemma {:induction false} PinnedSnoc(log: seq<Event>, e: Event)
    ensures Pinned(log + [e]) == (e.Final? || (!e.TimedOut? && Pinned(log)))
  {
    assert (log + [e])[..|log|] == log;
  }

  lemma {:induction false} PrefixFacts(log: seq<Event>, e: Event, i: nat)
    requires i < |log|
    ensures Arms(log + [e], i) == Arms(log, i) && Third(log + [e], i) == Third(log, i)
  {
    assert (log + [e])[..i + 1] == log[..i + 1];
  }

  lemma {:induction false} LastFacts(log: seq<Event>, e: Event)
    ensures Arms(log + [e], |log|) == (e.Retryable? && e.armed)
    ensures Third(log + [e], |log|) == (e.Retryable? && |ChainNext(Chain(log), e)| % FAILURE_THRESHOLD == 0)
  {
    assert (log + [e])[..|log| + 1] == log + [e];
    ChainSnoc(log, e);
  }

  /** Appending an event to the log, for the parts of the invariant that speak of the log alone. */
  lemma {:induction false} LogGrows(log: seq<Event>, e: Event, clock: nat, until: nat, later: nat, stands: nat)
    requires Past(log, clock) && Remembers(log, until) && ArmsEachThird(log) && QuietAfterArming(log)
    requires clock <= later && until <= stands
    requires e.H3Post? ==> until <= e.at
    requires e.Retryable? ==> 0 < e.at <= later
    requires e.Retryable? ==> (e.armed <==> |ChainNext(Chain(log), e)| % FAILURE_THRESHOLD == 0)
    requires e.Retryable? && e.armed ==> SaturatingAdd(e.at, BACKOFF_MS) <= stands
    ensures Past(log + [e], later) && Remembers(log + [e], stands)
    ensures ArmsEachThird(log + [e]) && QuietAfterArming(log + [e])
  {
    hide Arms, Third, Chain;
    forall i | 0 <= i < |log| + 1
      ensures Arms(log + [e], i) == (if i < |log| then Arms(log, i) else e.Retryable? && e.armed)
      ensures Arms(log + [e], i) <==> Third(log + [e], i)
    {
      if i < |log| {
        PrefixFacts(log, e, i);
      } else {
        LastFacts(log, e);
      }
    }
  }

  /** An HTTP/3 exchange may start only when no backoff stands. */
  lemma {:induction false} PostKeeps(w: World, at: nat)
    requires Inv(w) && w.clock <= at && !InBackoff(w.upstream, at) && !Pinned(w.log)
    ensures Inv(World(w.upstream, w.log + [H3Post(at)], at))
  {
    hide Chain, Pinned, Past, Remembers, ArmsEachThird, QuietAfterArming;
    var e := H3Post(at);
    ChainSnoc(w.log, e);
    PinnedSnoc(w.log, e);
    LogGrows(w.log, e, w.clock, Later(w.clock, w.upstream.backoffUntil), at, at);
  }

  lemma {:induction false} SuccessKeeps(w: World)
    requires Inv(w) && w.upstream.backoffUntil <= w.clock && !Pinned(w.log)
    ensures Inv(World(Cleared(w.upstream), w.log + [Succeeded], w.clock))
  {
    hide Chain, Pinned, Past, Remembers, ArmsEachThird, QuietAfterArming;
    ChainSnoc(w.log, Succeeded);
    PinnedSnoc(w.log, Succeeded);
    LogGrows(w.log, Succeeded, w.clock, w.clock, w.clock, w.clock);
  }

  lemma {:induction false} FinalKeeps(w: World)
    requires Inv(w)
    ensures Inv(World(CounterReset(w.upstream).(hint := H2), w.log + [Final], w.clock))
  {
    hide Chain, Pinned, Past, Remembers, ArmsEachThird, QuietAfterArming;
    ChainSnoc(w.log, Final);
    var until := Later(w.clock, w.upstream.backoffUntil);
    LogGrows(w.log, Final, w.clock, until, w.clock, until);
  }

  lemma {:induction false} RetryableKeeps(w: World, at: nat)
    requires Inv(w) && w.clock <= at && w.upstream.backoffUntil <= at && !Pinned(w.log)
    ensures var armed := Count(w.upstream, at) >= FAILURE_THRESHOLD;
            Inv(World(Recorded(w.upstream, at).(hint := Unknown), w.log + [Retryable(at, armed)], at))
  {
    hide Chain, Pinned, Past, Remembers, ArmsEachThird, QuietAfterArming;
    var armed := Count(w.upstream, at) >= FAILURE_THRESHOLD;
    var e := Retryable(at, armed);
    ChainSnoc(w.log, e);
    PinnedSnoc(w.log, e);
    CountIsChain(w, at, armed);
    var after := Recorded(w.upstream, at);
    LogGrows(w.log, e, w.clock, Later(w.clock, w.upstream.backoffUntil), at, Later(at, after.backoffUntil));
  }

  /** The counter, taken with this failure, is where the chain stands in its group of three. */
  lemma {:induction false} CountIsChain(w: World, at: nat, armed: bool)
    requires Tally(w.upstream, w.log) && w.upstream.lastFailure <= w.clock <= at && Past(w.log, w.clock) && w.clock > 0
    ensures var chain := ChainNext(Chain(w.log), Retryable(at, armed));
            var count := Count(w.upstream, at);
            && |chain| > 0 && chain[|chain| - 1] == at && 1 <= count <= FAILURE_THRESHOLD
            && |chain| % FAILURE_THRESHOLD == count % FAILURE_THRESHOLD
  {
    hide Chain, Past;
    ChainPositive(w.log, w.clock);
  }

  lemma {:induction false} ChainPositive(log: seq<Event>, clock: nat)
    requires Past(log, clock)
    ensures forall i :: 0 <= i < |Chain(log)| ==> 0 < Chain(log)[i]
  {
    if |log| > 0 {
      ChainPositive(log[..|log| - 1], clock);
    }
  }

  /** Events that only conclude a request: an HTTP/2 exchange, or the timeout that forgets the hint. */
  lemma {:induction false} ConclusionKeeps(w: World, e: Event)
    requires Inv(w) && (e.H2Post? || e.TimedOut?)
    ensures Inv(World(if e.TimedOut? then w.upstream.(hint := Unknown) else w.upstream, w.log + [e], w.clock))
  {
    hide Chain, Pinned, Past, Remembers, ArmsEachThird, QuietAfterArming;
    ChainSnoc(w.log, e);
    PinnedSnoc(w.log, e);
    var until := Later(w.clock, w.upstream.backoffUntil);
    LogGrows(w.log, e, w.clock, until, w.clock, until);
  }

  lemma {:induction false} TickKeeps(w: World, clock: nat, hint: Protocol)
    requires Inv(w) && w.clock <= clock && (Pinned(w.log) ==> hint.H2?)
    ensures Inv(World(w.upstream.(hint := hint), w.log, clock))
  {
    hide Chain, Pinned, ArmsEachThird, QuietAfterArming;
  }

  lemma {:induction false} FallBackKeeps(w: World, r: Request, prior: seq<Event>, before: seq<Event>)
    requires Inv(w) && w.log == prior + before
    ensures var turn := FallBack(w.upstream, r, before);
            Inv(World(turn.upstream, prior + turn.events, w.clock))
  {
    hide Inv;
    var e := if r.h2CutShort then TimedOut else H2Post;
    assert prior + (before + [e]) == w.log + [e];
    ConclusionKeeps(w, e);
  }

  lemma {:induction false} PostedKeeps(w: World, r: Request)
    requires Inv(w) && w.clock <= r.postAt <= r.failedAt && !InBackoff(w.upstream, r.postAt) && !Pinned(w.log)
    ensures var turn := Posted(w.upstream, r);
            Inv(World(turn.upstream, w.log + turn.events, r.failedAt))
  {
    hide Tally, Past, Remembers, ArmsEachThird, QuietAfterArming, Pinned;
    var u, post := w.upstream, H3Post(r.postAt);
    var posted := World(u, w.log + [post], r.postAt);
    PostKeeps(w, r.postAt);
    PinnedSnoc(w.log, post);
    TickKeeps(posted, r.failedAt, u.hint);
    var waited := posted.(clock := r.failedAt);
    assert waited == World(u.(hint := u.hint), posted.log, r.failedAt);
    match r.outcome
    case CutShort =>
      ConclusionKeeps(waited, TimedOut);
      assert w.log + [post, TimedOut] == waited.log + [TimedOut];
    case Answered =>
      SuccessKeeps(waited);
      assert w.log + [post, Succeeded] == waited.log + [Succeeded];
    case Failed(true) =>
      var e := Retryable(r.failedAt, Count(u, r.failedAt) >= FAILURE_THRESHOLD);
      RetryableKeeps(waited, r.failedAt);
      assert w.log + [post, e] == waited.log + [e];
      FallBackKeeps(World(Recorded(u, r.failedAt).(hint := Unknown), waited.log + [e], r.failedAt), r, w.log,
          [post, e]);
    case Failed(false) =>
      FinalKeeps(waited);
      assert w.log + [post, Final] == waited.log + [Final];
      FallBackKeeps(World(CounterReset(u).(hint := H2), waited.log + [Final], r.failedAt), r, w.log, [post, Final]);
  }

  lemma {:induction false} ServedKeeps(w: World, r: Request)
    requires Inv(w) && Timed(w.clock, r)
    ensures var turn := Served(w.upstream, r);
            Inv(World(turn.upstream, w.log + turn.events, r.failedAt))
  {
    hide Tally, Past, Remembers, ArmsEachThird, QuietAfterArming, Pinned, Posted, FallBack;
    var u := w.upstream;
    var cached := if u.hint.H3? && InBackoff(u, r.cachedAt) then H2 else u.hint;
    var protocol := if cached.Unknown? then Selected(u, r) else Some(cached);
    if protocol.None? {
      TickKeeps(w, r.failedAt, Unknown);
      var forgotten := World(u.(hint := Unknown), w.log, r.failedAt);
      ConclusionKeeps(forgotten, TimedOut);
    } else {
      var p := protocol.value;
      var kept := !cached.Unknown? || (p.H2? && InBackoff(u, r.storeAt));
      var hint := if kept then u.hint else p;
      var stored := u.(hint := hint);
      if p.H3? {
        TickKeeps(w, w.clock, hint);
        PostedKeeps(World(stored, w.log, w.clock), r);
      } else {
        TickKeeps(w, r.failedAt, hint);
        assert w.log == w.log + [];
        FallBackKeeps(World(stored, w.log, r.failedAt), r, w.log, []);
      }
    }
  }

  lemma {:induction false} RunKeeps(requests: seq<Request>)
    requires TimedRun(requests)
    ensures Inv(Run(requests))
    ensures Run(requests).clock == LastReading(requests)
    decreases |requests|
  {
    hide Served, Inv;
    if |requests| == 0 {
      FreshInv();
    } else {
      var n := |requests| - 1;
      RunKeeps(requests[..n]);
      ServedKeeps(Run(requests[..n]), requests[n]);
    }
  }

  lemma {:induction false} FreshInv()
    ensures Inv(World(Fresh, [], 1))
  {
  }

  // ---------------------------------------------------------------- main results

  /**
    Over every run, the stored counter is the length of the current chain of retryable failures
    modulo three, and the stored time is that of the chain's last failure, zero when there is none.
   */
  lemma {:induction false} CounterIsChainModThree(requests: seq<Request>)
    requires TimedRun(requests)
    ensures var w := Run(requests); var chain := Chain(w.log);
            && w.upstream.failures == |chain| % 3
            && w.upstream.lastFailure == (if chain == [] then 0 else chain[|chain| - 1])
  {
    hide Run;
    RunKeeps(requests);
  }

  /** Backoff is armed by exactly the failures that complete a group of three in their chain. */
  lemma {:induction false} ArmedExactlyAtEachThird(requests: seq<Request>, i: nat)
    requires TimedRun(requests) && i < |Run(requests).log|
    ensures var log := Run(requests).log;
            (log[i].Retryable? && log[i].armed) <==> (log[i].Retryable? && |Chain(log[..i + 1])| % 3 == 0)
  {
    hide Run;
    RunKeeps(requests);
    var log := Run(requests).log;
    assert Arms(log, i) <==> Third(log, i);
  }

  /** By neither route does an HTTP/3 exchange start within thirty seconds of an arming. */
  lemma {:induction false} NoPostDuringBackoff(requests: seq<Request>, i: nat, j: nat)
    requires TimedRun(requests) && i < j < |Run(requests).log|
    requires var log := Run(requests).log; Third(log, i) && log[j].H3Post?
    ensures var log := Run(requests).log;
            log[j].at >= log[i].at + 30_000 || log[j].at >= U64_MAX
  {
    hide Run;
    RunKeeps(requests);
    var log := Run(requests).log;
    assert Arms(log, i);
  }

  /** After a failure that is not retryable, only a timeout lets HTTP/3 be tried again. */
  lemma {:induction false} FinalFailurePins(requests: seq<Request>, i: nat, j: nat)
    requires TimedRun(requests) && i < j < |Run(requests).log|
    requires var log := Run(requests).log; log[i].Final? && log[j].H3Post?
    ensures exists k :: i < k < j && Run(requests).log[k].TimedOut?
  {
    RunNeverPostsPinned(requests);
    var log := Run(requests).log;
    if forall k :: i < k < j ==> !log[k].TimedOut? {
      StaysPinned(log, i, j);
    }
  }

  lemma {:induction false} StaysPinned(log: seq<Event>, i: nat, j: nat)
    requires i < j <= |log| && log[i].Final? && forall k :: i < k < j ==> !log[k].TimedOut?
    ensures Pinned(log[..j])
    decreases j
  {
    assert log[..j][..j - 1] == log[..j - 1];
    if i < j - 1 {
      StaysPinned(log, i, j - 1);
    }
  }

  ghost predicate NeverPostsPinned(log: seq<Event>) {
    forall j :: 0 <= j < |log| && log[j].H3Post? ==> !Pinned(log[..j])
  }

  lemma {:induction false} ServedOpens(u: Upstream, r: Request)
    ensures var events := Served(u, r).events;
            forall k :: 0 <= k < |events| && events[k].H3Post? ==> k == 0 && !u.hint.H2?
  {
  }

  lemma {:induction false} RunNeverPostsPinned(requests: seq<Request>)
    requires TimedRun(requests)
    ensures NeverPostsPinned(Run(requests).log)
    decreases |requests|
  {
    hide Served, Pinned;
    if |requests| > 0 {
      var n := |requests| - 1;
      var w := Run(requests[..n]);
      RunNeverPostsPinned(requests[..n]);
      RunKeeps(requests[..n]);
      ServedOpens(w.upstream, requests[n]);
      var log := Run(requests).log;
      forall j | 0 <= j < |log| && log[j].H3Post?
        ensures !Pinned(log[..j])
      {
        var events := Served(w.upstream, requests[n]).events;
        assert log[..j] == if j < |w.log| then w.log[..j] else w.log + events[..j - |w.log|];
      }
    }
  }

  // ---------------------------------------------------------------- when an exchange does start

  /** Of the events that settle what is known about HTTP/3, the last is a success. */
  predicate Warm(log: seq<Event>) {
    |log| > 0 &&
    match log[|log| - 1]
    case Succeeded => true
    case Retryable(_, _) => false
    case Final => false
    case TimedOut => false
    case H3Post(_) => Warm(log[..|log| - 1])
    case H2Post => Warm(log[..|log| - 1])
  }

  /** Nothing is known: at the start, after a timeout, and after a retryable failure with its HTTP/2 answer. */
  predicate Undecided(log: seq<Event>) {
    || |log| == 0 || log[|log| - 1].TimedOut?
    || (|log| >= 2 && log[|log| - 1].H2Post? && log[|log| - 2].Retryable?)
  }

  /** A backoff that stands was armed by some failure of the log. */
  ghost predicate ArmedBy(log: seq<Event>, until: nat) {
    until == 0 || exists i :: 0 <= i < |log| && Arms(log, i) && until == SaturatingAdd(log[i].at, 30_000)
  }

  ghost predicate Knows(u: Upstream, log: seq<Event>) {
    && (u.hint.H3? <==> Warm(log)) && (Warm(log) ==> u.backoffUntil == 0) && (Undecided(log) ==> u.hint.Unknown?)
    && ArmedBy(log, u.backoffUntil)
  }

  lemma {:induction false} WarmSnoc(log: seq<Event>, e: Event)
    ensures Warm(log + [e]) == (e.Succeeded? || ((e.H3Post? || e.H2Post?) && Warm(log)))
  {
    assert (log + [e])[..|log|] == log;
  }

  lemma {:induction false} ArmedByMore(log: seq<Event>, more: seq<Event>, until: nat)
    requires ArmedBy(log, until)
    ensures ArmedBy(log + more, until)
  {
    if until != 0 {
      var i :| 0 <= i < |log| && Arms(log, i) && until == SaturatingAdd(log[i].at, 30_000);
      assert (log + more)[i] == log[i];
      assert Arms(log + more, i);
    }
  }

  lemma {:induction false} ArmedHere(log: seq<Event>, i: nat)
    requires i < |log| && log[i].Retryable? && log[i].armed
    ensures ArmedBy(log, SaturatingAdd(log[i].at, 30_000))
  {
    assert Arms(log, i);
  }

  /** A turn whose events end in one of the four that settle, or in an HTTP/2 exchange after a failure. */
  lemma {:induction false} WarmTurn(log: seq<Event>, events: seq<Event>)
    requires |events| >= 2 && events[0].H3Post?
    requires |events| == 2 || (|events| == 3 && (events[1].Retryable? || events[1].Final?))
    ensures Warm(log + events) == (|events| == 2 && (events[1].Succeeded? || (Warm(log) && events[1].H2Post?)))
        || events[|events| - 1].H3Post? || events[1].H3Post? || (|events| == 3 && events[2].Succeeded?)
  {
    WarmSnoc(log, events[0]);
    WarmSnoc(log + [events[0]], events[1]);
    if |events| == 2 {
      assert log + events == log + [events[0]] + [events[1]];
    } else {
      WarmSnoc(log + [events[0]] + [events[1]], events[2]);
      assert log + events == log + [events[0]] + [events[1]] + [events[2]];
    }
  }

  lemma {:induction false} UndecidedTurn(log: seq<Event>, events: seq<Event>)
    requires |events| >= 2
    ensures Undecided(log + events) == (events[|events| - 1].TimedOut?
              || (events[|events| - 1].H2Post? && events[|events| - 2].Retryable?))
  {
  }

  lemma {:induction false} PostedKnows(u: Upstream, r: Request, log: seq<Event>)
    requires u.hint.H3? && ArmedBy(log, u.backoffUntil)
    ensures Knows(Posted(u, r).upstream, log + Posted(u, r).events)
  {
    hide Warm, Undecided, ArmedBy, Arms, Count;
    var turn := Posted(u, r);
    WarmTurn(log, turn.events);
    UndecidedTurn(log, turn.events);
    ArmedByMore(log, turn.events, u.backoffUntil);
    NeverArmed(log + turn.events);
    if r.outcome == Failed(true) && Count(u, r.failedAt) >= FAILURE_THRESHOLD {
      assert (log + turn.events)[|log| + 1] == turn.events[1];
      ArmedHere(log + turn.events, |log| + 1);
    }
  }

  lemma {:induction false} NeverArmed(log: seq<Event>)
    ensures ArmedBy(log, 0)
  {
  }

  lemma {:induction false} FallBackKnows(u: Upstream, r: Request, log: seq<Event>)
    requires !u.hint.H3? || Warm(log)
    requires ArmedBy(log, u.backoffUntil) && (Warm(log) ==> u.hint.H3? && u.backoffUntil == 0)
    ensures Knows(FallBack(u, r, []).upstream, log + FallBack(u, r, []).events)
        || (|log| > 0 && log[|log| - 1].Retryable? && !r.h2CutShort)
  {
    hide Warm, ArmedBy;
    var turn := FallBack(u, r, []);
    assert turn.events == [if r.h2CutShort then TimedOut else H2Post];
    WarmSnoc(log, turn.events[0]);
    ArmedByMore(log, turn.events, u.backoffUntil);
  }

  /** Between requests the log never ends in a retryable failure: its HTTP/2 exchange or the timeout follows. */
  ghost predicate Concluded(log: seq<Event>) {
    |log| > 0 ==> !log[|log| - 1].Retryable?
  }

  lemma {:induction false} ServedKnows(u: Upstream, r: Request, log: seq<Event>)
    requires Knows(u, log) && Concluded(log)
    ensures var turn := Served(u, r);
            Knows(turn.upstream, log + turn.events) && Concluded(log + turn.events) && |turn.events| > 0
  {
    hide Warm, Undecided, ArmedBy, Posted, FallBack;
    var turn := Served(u, r);
    var cached := if u.hint.H3? && InBackoff(u, r.cachedAt) then H2 else u.hint;
    var protocol := if cached.Unknown? then Selected(u, r) else Some(cached);
    TurnConcludes(u, r, log);
    if protocol.None? {
      TimedOutKnows(u, log);
    } else {
      var p := protocol.value;
      var kept := !cached.Unknown? || (p.H2? && InBackoff(u, r.storeAt));
      var stored := u.(hint := if kept then u.hint else p);
      if p.H3? {
        PostedKnows(stored, r, log);
      } else {
        FallBackKnows(stored, r, log);
      }
    }
  }

  lemma {:induction false} TurnConcludes(u: Upstream, r: Request, log: seq<Event>)
    ensures var events := Served(u, r).events; |events| > 0 && Concluded(log + events)
  {
  }

  lemma {:induction false} TimedOutKnows(u: Upstream, log: seq<Event>)
    requires Knows(u, log)
    ensures Knows(u.(hint := Unknown), log + [TimedOut])
  {
    hide Warm, ArmedBy;
    WarmSnoc(log, TimedOut);
    ArmedByMore(log, [TimedOut], u.backoffUntil);
  }

  lemma {:induction false} RunKnows(requests: seq<Request>)
    ensures Knows(Run(requests).upstream, Run(requests).log) && Concluded(Run(requests).log)
    decreases |requests|
  {
    hide Served, Knows, Concluded;
    if |requests| == 0 {
      FreshKnows();
    } else {
      var n := |requests| - 1;
      RunKnows(requests[..n]);
      ServedKnows(Run(requests[..n]).upstream, requests[n], Run(requests[..n]).log);
    }
  }

  lemma {:induction false} FreshKnows()
    ensures Knows(Fresh, []) && Concluded([])
  {
  }

  /** Every failure that armed a backoff is thirty seconds ago. */
  ghost predicate QuietBy(log: seq<Event>, now: nat) {
    forall i :: 0 <= i < |log| && log[i].Retryable? && log[i].armed ==> log[i].at + 30_000 <= now
  }

  /** What a request does from its first exchange on: an HTTP/3 failure is followed by HTTP/2, a timeout ends it. */
  lemma {:induction false} TurnShape(u: Upstream, r: Request)
    ensures var events := Served(u, r).events;
            var last := if r.h2CutShort then TimedOut else H2Post;
            && |events| > 0
            && if events[0].H3Post? then
                 match r.outcome
                 case CutShort => events == [H3Post(r.postAt), TimedOut]
                 case Answered => events == [H3Post(r.postAt), Succeeded]
                 case Failed(false) => events == [H3Post(r.postAt), Final, last]
                 case Failed(true) =>
                   |events| == 3 && events[0].at == r.postAt && events[1].Retryable? && events[1].at == r.failedAt
                   && events[2] == last
               else events == [last] || (events == [TimedOut] && r.probe.ProbeCutShort?)
  {
    hide Count;
  }

  /**
    The next request starts an HTTP/3 exchange at once when the last thing learnt was a success, and
    when nothing is known, its probe finds HTTP/3 and every arming is thirty seconds ago.  It
    starts one only in the first case or on the word of its probe.
   */
  lemma {:induction false} ExchangeStarts(requests: seq<Request>, r: Request)
    ensures var log := Run(requests).log;
            var events := Served(Run(requests).upstream, r).events;
            && Run(requests + [r]).log == log + events && |events| > 0
            && (Warm(log) ==> events[0] == H3Post(r.postAt))
            && (Undecided(log) && QuietBy(log, r.selectAt) && r.probe == Settles(true) ==>
                  events[0] == H3Post(r.postAt))
            && (events[0].H3Post? ==> Warm(log) || r.probe == Settles(true))
  {
    hide Warm, Undecided, Run;
    RunSnoc(requests, r);
    RunKnows(requests);
    var u, log := Run(requests).upstream, Run(requests).log;
    TurnConcludes(u, r, log);
    if QuietBy(log, r.selectAt) {
      BackoffOver(u.backoffUntil, log, r.selectAt);
    }
  }

  lemma {:induction false} RunSnoc(requests: seq<Request>, r: Request)
    ensures Run(requests + [r]).log == Run(requests).log + Served(Run(requests).upstream, r).events
  {
    hide Served;
    assert (requests + [r])[..|requests|] == requests;
  }

  lemma {:induction false} BackoffOver(until: nat, log: seq<Event>, now: nat)
    requires ArmedBy(log, until) && QuietBy(log, now)
    ensures until <= now
  {
    if until != 0 {
      var i :| 0 <= i < |log| && Arms(log, i) && until == SaturatingAdd(log[i].at, 30_000);
    }
  }
}
