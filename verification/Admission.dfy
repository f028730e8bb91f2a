/**
  The client admission counter of globals.rs and its two users: the plain accept path of lib.rs
  and the TLS one of tls.rs.
 */
module Admission {
  import opened Wire

  type ClientId = nat

  // ---------------------------------------------------------------- the counter's atomic operations

  class ClientsCount {
    var count: nat

    constructor ()
      ensures count == 0
    {
      count := 0;
    }

    method Increment() returns (previous: nat)
      modifies this
      ensures previous == old(count) && count == previous + 1
    {
      previous := count;
      count := previous + 1;
    }

    method CompareExchange(expected: nat, replacement: nat) returns (exchanged: bool)
      modifies this
      ensures exchanged == (old(count) == expected)
      ensures count == if exchanged then replacement else old(count)
    {
      exchanged := count == expected;
      if exchanged {
        count := replacement;
      }
    }

    /** With nobody else at the counter the loop runs once; it leaves a zero counter alone. */
    method Decrement() returns (seen: nat)
      modifies this
      ensures seen == old(count)
      ensures count == if seen > 0 then seen - 1 else 0
    {
      var done := false;
      seen := count;
      while !done
        invariant seen == old(count)
        invariant count == if done && seen > 0 then seen - 1 else old(count)
        decreases !done
      {
        seen := count;
        if seen > 0 {
          var exchanged := CompareExchange(seen, seen - 1);
          done := exchanged;
        } else {
          done := true;
        }
      }
    }
  }

  // ---------------------------------------------------------------- the protocol

  /**
    Where a connection stands.  A connection gives its place back in a decrement, entered by a
    rejected connection at once and by an admitted one when its handshake fails or its service ends;
    between the load and the compare-exchange of that loop it holds the value it read.
   */
  datatype Stage =
    | Handshaking
    | Serving
    | Decrementing(rejected: bool)
    | Exchanging(rejected: bool, seen: nat)
    | Gone(rejected: bool)

  datatype World = World(counter: nat, clients: map<ClientId, Stage>)

  datatype Event =
    | Accept(id: ClientId, tls: bool)
    | HandshakeDone(id: ClientId, ok: bool)
    | ServiceOver(id: ClientId)
    | Load(id: ClientId)
    | CompareExchange(id: ClientId)

  predicate Enabled(w: World, e: Event) {
    match e
    case Accept(id, _) => id !in w.clients
    case HandshakeDone(id, _) => id in w.clients && w.clients[id].Handshaking?
    case ServiceOver(id) => id in w.clients && w.clients[id].Serving?
    case Load(id) => id in w.clients && w.clients[id].Decrementing?
    case CompareExchange(id) => id in w.clients && w.clients[id].Exchanging?
  }

  /** One atomic step of one connection; every interleaving of such steps is a run. */
  function Apply(w: World, e: Event, maxClients: nat): World
    requires Enabled(w, e)
  {
    match e
    case Accept(id, tls) =>
      World(w.counter + 1, w.clients[id :=
        if w.counter >= maxClients then Decrementing(true) else if tls then Handshaking else Serving])
    case HandshakeDone(id, ok) => w.(clients := w.clients[id := if ok then Serving else Decrementing(false)])
    case ServiceOver(id) => w.(clients := w.clients[id := Decrementing(false)])
    case Load(id) =>
      var rejected := w.clients[id].rejected;
      w.(clients := w.clients[id := if w.counter > 0 then Exchanging(rejected, w.counter) else Gone(rejected)])
    case CompareExchange(id) =>
      var Exchanging(rejected, seen) := w.clients[id];
      if w.counter == seen && seen > 0 then World(seen - 1, w.clients[id := Gone(rejected)])
      else w.(clients := w.clients[id := Decrementing(rejected)])
  }

  ghost predicate Reachable(w: World, maxClients: nat, steps: nat)
    decreases steps
  {
    if steps == 0 then w == World(0, map[])
    else exists v: World, e: Event ::
        Reachable(v, maxClients, steps - 1) && Enabled(v, e)
        && Apply(v, e, maxClients) == w
  }

  // ---------------------------------------------------------------- invariant

  predicate IsAdmitted(stage: Stage) {
    match stage
    case Handshaking => true
    case Serving => true
    case Decrementing(rejected) => !rejected
    case Exchanging(rejected, _) => !rejected
    case Gone(_) => false
  }

  predicate IsUndoing(stage: Stage) {
    (stage.Decrementing? || stage.Exchanging?) && stage.rejected
  }

  /** Connections let in whose place is not given back yet. */
  function Admitted(clients: map<ClientId, Stage>): set<ClientId> {
    set id | id in clients && IsAdmitted(clients[id])
  }

  /** Rejections whose increment is not undone yet. */
  function Undoing(clients: map<ClientId, Stage>): set<ClientId> {
    set id | id in clients && IsUndoing(clients[id])
  }

  ghost predicate Inv(w: World, maxClients: nat) {
    && w.counter == |Admitted(w.clients)| + |Undoing(w.clients)|
    && |Admitted(w.clients)| <= maxClients
    && (forall id :: id in w.clients && w.clients[id].Exchanging? ==> w.clients[id].seen > 0)
  }

  function One(b: bool): nat {
    if b then 1 else 0
  }

  lemma {:induction false} Swapped(before: set<ClientId>, after: set<ClientId>, id: ClientId)
    requires before - {id} == after - {id}
    ensures |after| == |before| - One(id in before) + One(id in after)
  {
    assert |before - {id}| == |before| - One(id in before);
    assert |after - {id}| == |after| - One(id in after);
  }

  /** How one connection's move changes the two numbers. */
  lemma {:induction false} Moved(clients: map<ClientId, Stage>, id: ClientId, stage: Stage)
    ensures var after := clients[id := stage];
            && |Admitted(after)|
               == |Admitted(clients)| - One(id in clients && IsAdmitted(clients[id])) + One(IsAdmitted(stage))
            && |Undoing(after)|
               == |Undoing(clients)| - One(id in clients && IsUndoing(clients[id])) + One(IsUndoing(stage))
  {
    var after := clients[id := stage];
    Swapped(Admitted(clients), Admitted(after), id);
    Swapped(Undoing(clients), Undoing(after), id);
  }

  /** A connection that is not gone holds one unit of the counter. */
  lemma {:induction false} HolderCounts(w: World, id: ClientId)
    requires w.counter == |Admitted(w.clients)| + |Undoing(w.clients)| && id in w.clients && !w.clients[id].Gone?
    ensures w.counter > 0
  {
    assert id in Admitted(w.clients) || id in Undoing(w.clients);
  }

  lemma {:induction false} ApplyInv(w: World, e: Event, maxClients: nat)
    requires Inv(w, maxClients) && Enabled(w, e)
    ensures Inv(Apply(w, e, maxClients), maxClients)
  {
    hide Admitted, Undoing;
    Moved(w.clients, e.id, Apply(w, e, maxClients).clients[e.id]);
    if e.Load? {
      HolderCounts(w, e.id);
    }
  }

  lemma {:induction false} ReachableInv(w: World, maxClients: nat, steps: nat)
    requires Reachable(w, maxClients, steps)
    ensures Inv(w, maxClients)
    decreases steps
  {
    if steps > 0 {
      var v: World, e: Event :| Reachable(v, maxClients, steps - 1) && Enabled(v, e) && Apply(v, e, maxClients) == w;
      ReachableInv(v, maxClients, steps - 1);
      ApplyInv(v, e, maxClients);
    }
  }

  // ---------------------------------------------------------------- main results

  /**
    Whatever the interleaving, the counter is the number of admitted connections plus the rejections
    not undone yet, and no more than max_clients connections are admitted.
   */
  lemma {:induction false} CounterIsHolders(w: World, maxClients: nat, steps: nat)
    requires Reachable(w, maxClients, steps)
    ensures w.counter == |Admitted(w.clients)| + |Undoing(w.clients)|
    ensures |Admitted(w.clients)| <= maxClients
  {
    ReachableInv(w, maxClients, steps);
  }

  /** The zero that the decrement loop guards against is never met, by its load or by its exchange. */
  lemma {:induction false} DecrementNeverMeetsZero(w: World, maxClients: nat, steps: nat, id: ClientId)
    requires Reachable(w, maxClients, steps) && id in w.clients
    requires w.clients[id].Decrementing? || w.clients[id].Exchanging?
    ensures w.counter > 0
    ensures w.clients[id].Exchanging? ==> w.clients[id].seen > 0
  {
    ReachableInv(w, maxClients, steps);
    HolderCounts(w, id);
  }

  /** Once every connection is gone the counter is back to zero. */
  lemma {:induction false} ZeroAtQuiescence(w: World, maxClients: nat, steps: nat)
    requires Reachable(w, maxClients, steps)
    ensures w.counter == 0 <==> (forall id :: id in w.clients ==> w.clients[id].Gone?)
  {
    ReachableInv(w, maxClients, steps);
    if forall id :: id in w.clients ==> w.clients[id].Gone? {
      assert Admitted(w.clients) == {} && Undoing(w.clients) == {};
    } else {
      var id :| id in w.clients && !w.clients[id].Gone?;
      HolderCounts(w, id);
    }
  }

  /** A connection is rejected exactly when admitted ones and unfinished rejections fill the limit. */
  lemma {:induction false} RejectedIffFull(w: World, maxClients: nat, steps: nat, id: ClientId, tls: bool)
    requires Reachable(w, maxClients, steps) && id !in w.clients
    ensures Apply(w, Accept(id, tls), maxClients).clients[id] == Decrementing(true)
            <==> |Admitted(w.clients)| + |Undoing(w.clients)| >= maxClients
  {
    ReachableInv(w, maxClients, steps);
  }

  /** So a rejection in progress can turn away a connection while nobody is being served. */
  lemma {:induction false} SpuriousRejection() returns (w: World, steps: nat)
    ensures Reachable(w, 1, steps) && Admitted(w.clients) == {} && 2 !in w.clients
    ensures Apply(w, Accept(2, false), 1).clients[2] == Decrementing(true)
  {
    hide Reachable;
    w, steps := Start();
    w, steps := Step(w, Accept(0, false), 1, steps);
    w, steps := Step(w, Accept(1, false), 1, steps);
    w, steps := Step(w, ServiceOver(0), 1, steps);
    w, steps := Step(w, Load(0), 1, steps);
    w, steps := Step(w, CompareExchange(0), 1, steps);
    assert w == World(1, map[0 := Gone(false), 1 := Decrementing(true)]);
  }

  lemma {:induction false} Start() returns (w: World, steps: nat)
    ensures w == World(0, map[]) && Reachable(w, 1, steps)
  {
    w, steps := World(0, map[]), 0;
  }

  lemma {:induction false} Step(v: World, e: Event, maxClients: nat, steps: nat) returns (w: World, more: nat)
    requires Reachable(v, maxClients, steps) && Enabled(v, e)
    ensures w == Apply(v, e, maxClients) && Reachable(w, maxClients, more)
  {
    w, more := Apply(v, e, maxClients), steps + 1;
  }

  // ---------------------------------------------------------------- who is served

  /** The state after these events, if each was enabled in its turn. */
  function After(events: seq<Event>, maxClients: nat): Option<World> {
    if |events| == 0 then Some(World(0, map[]))
    else
      match After(events[..|events| - 1], maxClients)
      case None => None
      case Some(w) =>
        var e := events[|events| - 1];
        if Enabled(w, e) then Some(Apply(w, e, maxClients)) else None
  }

  /** The connection was accepted without TLS while there was room. */
  ghost predicate LetIn(events: seq<Event>, maxClients: nat, id: ClientId) {
    exists i :: 0 <= i < |events| && events[i] == Accept(id, false)
                && After(events[..i], maxClients).Some? && After(events[..i], maxClients).value.counter < maxClients
  }

  /** Why `id` may be served: let in without TLS, or its handshake was completed. */
  ghost predicate Entitled(events: seq<Event>, maxClients: nat, id: ClientId) {
    LetIn(events, maxClients, id) || HandshakeDone(id, true) in events
  }

  lemma {:induction false} LetInSnoc(events: seq<Event>, e: Event, maxClients: nat, id: ClientId)
    requires After(events, maxClients).Some?
    ensures LetIn(events + [e], maxClients, id) <==>
              || LetIn(events, maxClients, id)
              || (e == Accept(id, false) && After(events, maxClients).value.counter < maxClients)
  {
    hide After;
    var more := events + [e];
    assert forall i :: 0 <= i <= |events| ==> more[..i] == events[..i];
    assert events[..|events|] == events;
    if LetIn(events, maxClients, id) {
      var i :| 0 <= i < |events| && events[i] == Accept(id, false)
          && After(events[..i], maxClients).Some? && After(events[..i], maxClients).value.counter < maxClients;
      assert more[i] == Accept(id, false);
    }
    if e == Accept(id, false) {
      assert more[|events|] == e;
    }
  }

  /**
    Over every run: a connection is being served exactly when it was let in without TLS or completed
    its handshake, and its service is not over.
   */
  lemma {:induction false} ServedIff(events: seq<Event>, maxClients: nat, id: ClientId)
    requires After(events, maxClients).Some?
    ensures var w := After(events, maxClients).value;
            && (id in w.clients && w.clients[id].Serving? <==>
                  Entitled(events, maxClients, id) && ServiceOver(id) !in events)
            && (id !in w.clients || w.clients[id].Handshaking? ==>
                  !Entitled(events, maxClients, id) && ServiceOver(id) !in events)
    decreases |events|
  {
    hide LetIn, After;
    if |events| == 0 {
      Nobody(maxClients, id);
    } else {
      var n := |events| - 1;
      var e := events[n];
      assert events == events[..n] + [e];
      AfterSnoc(events[..n], e, maxClients);
      ServedIff(events[..n], maxClients, id);
      LetInSnoc(events[..n], e, maxClients, id);
    }
  }

  lemma {:induction false} Nobody(maxClients: nat, id: ClientId)
    ensures After([], maxClients) == Some(World(0, map[])) && !LetIn([], maxClients, id)
  {
  }

  lemma {:induction false} AfterSnoc(events: seq<Event>, e: Event, maxClients: nat)
    requires After(events + [e], maxClients).Some?
    ensures After(events, maxClients).Some? && Enabled(After(events, maxClients).value, e)
    ensures After(events + [e], maxClients).value == Apply(After(events, maxClients).value, e, maxClients)
  {
    hide Apply, Enabled;
    assert (events + [e])[..|events|] == events;
  }

  /** So nobody is served over TLS before completing the handshake, and an accepted TLS connection waits for it. */
  lemma {:induction false} TlsNeedsHandshake(events: seq<Event>, maxClients: nat, id: ClientId)
    requires After(events, maxClients).Some? && Accept(id, false) !in events
    requires var w := After(events, maxClients).value; id in w.clients && w.clients[id].Serving?
    ensures HandshakeDone(id, true) in events
  {
    ServedIff(events, maxClients, id);
  }
}
