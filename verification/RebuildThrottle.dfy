/** The compare-and-swap rebuild throttle of lib.rs, under any interleaving of threads. */
module RebuildThrottle {
  const MIN_REBUILD_INTERVAL_MS := 1000

  type Thread = nat

  /** Where a call of can_rebuild stands; its clock reading is taken once, at the start. */
  datatype Call = Looping(now: nat) | Loaded(now: nat, prev: nat) | Returned(granted: bool)

  datatype World = World(cell: nat, calls: map<Thread, Call>, granted: seq<nat>)

  datatype Event = Begin(thread: Thread, now: nat) | Load(thread: Thread) | CompareExchange(thread: Thread)

  predicate TooSoon(now: nat, prev: nat) {
    prev != 0 && (if now >= prev then now - prev else 0) < MIN_REBUILD_INTERVAL_MS
  }

  /** Every clock reading is positive. */
  predicate Enabled(w: World, e: Event) {
    match e
    case Begin(t, now) => t !in w.calls && now > 0
    case Load(t) => t in w.calls && w.calls[t].Looping?
    case CompareExchange(t) => t in w.calls && w.calls[t].Loaded?
  }

  /** Atomic steps: a load that may refuse at once, and a compare-exchange that grants or loops. */
  function Apply(w: World, e: Event): World
    requires Enabled(w, e)
  {
    match e
    case Begin(t, now) => w.(calls := w.calls[t := Looping(now)])
    case Load(t) =>
      var now := w.calls[t].now;
      w.(calls := w.calls[t := if TooSoon(now, w.cell) then Returned(false) else Loaded(now, w.cell)])
    case CompareExchange(t) =>
      var Loaded(now, prev) := w.calls[t];
      if w.cell == prev then World(now, w.calls[t := Returned(true)], w.granted + [now])
      else w.(calls := w.calls[t := Looping(now)])
  }

  /** The states reached from a cell that was never written. */
  ghost predicate Reachable(w: World, steps: nat)
    decreases steps
  {
    if steps == 0 then w == World(0, map[], [])
    else exists v: World, e: Event :: Reachable(v, steps - 1) && Enabled(v, e) && Apply(v, e) == w
  }

  ghost predicate Spaced(granted: seq<nat>) {
    forall i :: 0 <= i < |granted| - 1 ==> granted[i] + MIN_REBUILD_INTERVAL_MS <= granted[i + 1]
  }

  ghost predicate Inv(w: World) {
    && Spaced(w.granted) && (forall i :: 0 <= i < |w.granted| ==> w.granted[i] > 0)
    && w.cell == (if |w.granted| == 0 then 0 else w.granted[|w.granted| - 1])
    && (forall t :: t in w.calls && w.calls[t].Looping? ==> w.calls[t].now > 0)
    && (forall t :: t in w.calls && w.calls[t].Loaded? ==>
        w.calls[t].now > 0
        && !TooSoon(w.calls[t].now, w.calls[t].prev))
  }

  lemma {:induction false} ApplyInv(w: World, e: Event)
    requires Inv(w) && Enabled(w, e)
    ensures Inv(Apply(w, e))
  {
  }

  lemma {:induction false} ReachableInv(w: World, steps: nat)
    requires Reachable(w, steps)
    ensures Inv(w)
    decreases steps
  {
    if steps > 0 {
      var v: World, e: Event :| Reachable(v, steps - 1) && Enabled(v, e) && Apply(v, e) == w;
      ReachableInv(v, steps - 1);
      ApplyInv(v, e);
    }
  }

  lemma {:induction false} SpacedApart(granted: seq<nat>, i: nat, j: nat)
    requires Spaced(granted) && i < j < |granted|
    ensures granted[i] + MIN_REBUILD_INTERVAL_MS * (j - i) <= granted[j]
    decreases j - i
  {
    if i + 1 < j {
      SpacedApart(granted, i + 1, j);
    }
  }

  /**
    However threads interleave and however stale the clock a thread captured, any two granted
    rebuilds are recorded in order, at least one interval apart for every grant between them.
   */
  lemma {:induction false} GrantsAreSpaced(w: World, steps: nat, i: nat, j: nat)
    requires Reachable(w, steps) && i < j < |w.granted|
    ensures w.granted[i] < w.granted[j] && w.granted[i] + 1000 * (j - i) <= w.granted[j]
  {
    ReachableInv(w, steps);
    SpacedApart(w.granted, i, j);
  }

  /** The state after a thread's whole call with nobody else at the cell. */
  function Undisturbed(w: World, t: Thread, now: nat): World
    requires t !in w.calls && now > 0
  {
    var loaded := Apply(Apply(w, Begin(t, now)), Load(t));
    if loaded.calls[t].Loaded? then Apply(loaded, CompareExchange(t)) else loaded
  }

  /** Such a call is granted exactly when nothing was granted yet or a second has passed since the last grant. */
  lemma {:induction false} UndisturbedGranted(w: World, steps: nat, t: Thread, now: nat)
    requires Reachable(w, steps) && t !in w.calls && now > 0
    ensures var v := Undisturbed(w, t, now);
            var due := |w.granted| == 0 || now >= w.granted[|w.granted| - 1] + 1000;
            && v.calls == w.calls[t := Returned(due)]
            && v.granted == if due then w.granted + [now] else w.granted
  {
    ReachableInv(w, steps);
  }
}
