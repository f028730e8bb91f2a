/** The HTTP/3 request and stream correlation table of lib.rs, with its cancellation guard. */
module H3Pending {
  import opened Wire

  type RequestId = nat
  type StreamId = nat

  /** What a waiting request is told: the outcome read from a stream, or that the connection failed. */
  datatype Delivery =
    | FromStream(stream: StreamId, body: Option<Bytes>, retryable: bool)
    | ConnectionFailed(retryable: bool)

  // ---------------------------------------------------------------- the two maps

  /** `byRequest` holds the one-shot sender of each waiting request, here named by its request. */
  datatype Tables = Tables(byRequest: map<RequestId, RequestId>, byStream: map<StreamId, RequestId>)

  function Registered(t: Tables, id: RequestId): Tables {
    t.(byRequest := t.byRequest[id := id])
  }

  function Opened(t: Tables, stream: StreamId, id: RequestId): Tables {
    if id in t.byRequest then t.(byStream := t.byStream[stream := id]) else t
  }

  function Completed(t: Tables, stream: StreamId): Tables {
    if stream in t.byStream
    then Tables(t.byRequest - {t.byStream[stream]}, t.byStream - {stream})
    else t
  }

  /** The request whose sender a completion uses, if any. */
  function CompletionTarget(t: Tables, stream: StreamId): Option<RequestId> {
    if stream in t.byStream && t.byStream[stream] in t.byRequest then Some(t.byRequest[t.byStream[stream]]) else None
  }

  function Cleared(t: Tables, id: RequestId): Tables {
    Tables(t.byRequest - {id}, map s | s in t.byStream && t.byStream[s] != id :: t.byStream[s])
  }

  class DohH3Pending {
    var byRequest: map<RequestId, RequestId>
    var byStream: map<StreamId, RequestId>

    function State(): Tables
      reads this
    {
      Tables(byRequest, byStream)
    }

    constructor ()
      ensures State() == Tables(map[], map[])
    {
      byRequest := map[];
      byStream := map[];
    }

    method Register(id: RequestId)
      modifies this
      ensures State() == Registered(old(State()), id)
    {
      byRequest := byRequest[id := id];
    }

    method NewOutboundRequest(stream: StreamId, id: RequestId)
      modifies this
      ensures State() == Opened(old(State()), stream, id)
    {
      if id in byRequest {
        byStream := byStream[stream := id];
      }
    }

    method CompleteStream(stream: StreamId) returns (sender: Option<RequestId>)
      modifies this
      ensures State() == Completed(old(State()), stream)
      ensures sender == CompletionTarget(old(State()), stream)
    {
      if stream !in byStream {
        return None;
      }
      var id := byStream[stream];
      byStream := byStream - {stream};
      sender := if id in byRequest then Some(byRequest[id]) else None;
      byRequest := byRequest - {id};
    }

    method ClearRequest(id: RequestId)
      modifies this
      ensures State() == Cleared(old(State()), id)
    {
      byRequest := byRequest - {id};
      byStream := map s | s in byStream && byStream[s] != id :: byStream[s];
    }

    method FailAll() returns (senders: set<RequestId>)
      modifies this
      ensures State() == Tables(map[], map[])
      ensures senders == old(byRequest.Values)
    {
      byStream := map[];
      senders := byRequest.Values;
      byRequest := map[];
    }
  }

  // ---------------------------------------------------------------- the protocol

  /**
    One step of some task.  `Disarm` is the requester's own: it has received from its one-shot
    channel, so its sender was used.  `Clear` is the cleanup a dropped guard spawns.
   */
  datatype Event =
    | Register(id: RequestId)
    | Open(stream: StreamId, id: RequestId)
    | Complete(stream: StreamId, body: Option<Bytes>, retryable: bool)
    | Disarm(id: RequestId)
    | Clear(id: RequestId)
    | FailAll(retryable: bool)

  /** The tables and what has happened: ids given out, the stream opened for each, deliveries, finished guards. */
  datatype World = World(
    tables: Tables, issued: set<RequestId>, streams: map<RequestId, StreamId>,
    sent: map<RequestId, Delivery>, finished: set<RequestId>)

  const Initial := World(Tables(map[], map[]), {}, map[], map[], {})

  /** Request ids are never reused, a request gets at most one stream and a stream serves one request. */
  predicate Enabled(w: World, e: Event) {
    match e
    case Register(id) => id !in w.issued
    case Open(stream, id) => id !in w.streams && stream !in w.streams.Values
    case Complete(_, _, _) => true
    case Disarm(id) => id in w.sent
    case Clear(id) => id in w.issued
    case FailAll(_) => true
  }

  function Apply(w: World, e: Event): World {
    match e
    case Register(id) => w.(tables := Registered(w.tables, id), issued := w.issued + {id})
    case Open(stream, id) => w.(tables := Opened(w.tables, stream, id), streams := w.streams[id := stream])
    case Complete(stream, body, retryable) =>
      var told := match CompletionTarget(w.tables, stream)
                  case Some(id) => w.sent[id := FromStream(stream, body, retryable)]
                  case None => w.sent;
      w.(tables := Completed(w.tables, stream), sent := told)
    case Disarm(id) => w.(finished := w.finished + {id})
    case Clear(id) => w.(tables := Cleared(w.tables, id), finished := w.finished + {id})
    case FailAll(retryable) =>
      var senders := w.tables.byRequest.Values;
      w.(tables := Tables(map[], map[]), sent := w.sent + map id | id in senders :: ConnectionFailed(retryable))
  }

  ghost predicate Run(events: seq<Event>)
    decreases |events|
  {
    |events| == 0
    || (Run(events[..|events| - 1]) && Enabled(After(events[..|events| - 1]), events[|events| - 1]))
  }

  function After(events: seq<Event>): World
    decreases |events|
  {
    if |events| == 0 then Initial else Apply(After(events[..|events| - 1]), events[|events| - 1])
  }

  /** Streams in the table name distinct waiting requests, each the one its stream was opened for. */
  ghost predicate TablesOk(w: World) {
    var t := w.tables;
    && (forall id :: id in t.byRequest ==> t.byRequest[id] == id && id in w.issued)
    && (forall s :: s in t.byStream ==>
          t.byStream[s] in t.byRequest && t.byStream[s] in w.streams && w.streams[t.byStream[s]] == s)
  }

  /** Nobody told or finished is still waiting, and what came from a stream came from the request's own. */
  ghost predicate HistoryOk(w: World) {
    && (forall id :: id in w.sent ==> id in w.issued && id !in w.tables.byRequest)
    && (forall id :: id in w.finished ==> id in w.issued && id !in w.tables.byRequest)
    && (forall id :: id in w.sent && w.sent[id].FromStream? ==> id in w.streams && w.streams[id] == w.sent[id].stream)
    && (forall a, b :: a in w.streams && b in w.streams && a != b ==> w.streams[a] != w.streams[b])
  }

  lemma {:induction false} ApplyTables(w: World, e: Event)
    requires TablesOk(w) && HistoryOk(w) && Enabled(w, e)
    ensures TablesOk(Apply(w, e))
  {
  }

  lemma {:induction false} ApplyHistory(w: World, e: Event)
    requires TablesOk(w) && HistoryOk(w) && Enabled(w, e)
    ensures HistoryOk(Apply(w, e))
  {
    match e
    case Open(stream, id) =>
      assert forall a :: a in w.streams ==> w.streams[a] in w.streams.Values;
    case _ =>
  }

  lemma {:induction false} RunOk(events: seq<Event>)
    requires Run(events)
    ensures TablesOk(After(events)) && HistoryOk(After(events))
    decreases |events|
  {
    if |events| > 0 {
      var w := After(events[..|events| - 1]);
      RunOk(events[..|events| - 1]);
      ApplyTables(w, events[|events| - 1]);
      ApplyHistory(w, events[|events| - 1]);
    }
  }

  /** by_stream is always injective, and its values are waiting requests. */
  lemma {:induction false} StreamsInjective(events: seq<Event>)
    requires Run(events)
    ensures var t := After(events).tables;
            && t.byStream.Values <= t.byRequest.Keys
            && forall a, b :: a in t.byStream && b in t.byStream && a != b ==> t.byStream[a] != t.byStream[b]
  {
    RunOk(events);
  }

  /** The requests a step delivers to. */
  function Delivers(w: World, e: Event): set<RequestId> {
    match e
    case Complete(stream, _, _) => (match CompletionTarget(w.tables, stream) case Some(id) => {id} case None => {})
    case FailAll(_) => w.tables.byRequest.Values
    case _ => {}
  }

  /**
    A request is told at most once: no step delivers to one already told.  A completion reaches
    only the request its stream was opened for, and only while its guard is still armed.
   */
  lemma {:induction false} DeliversOnce(events: seq<Event>, e: Event)
    requires Run(events) && Enabled(After(events), e)
    ensures var w := After(events);
            && Delivers(w, e) !! w.sent.Keys && Delivers(w, e) !! w.finished && Delivers(w, e) <= w.issued
            && Apply(w, e).sent.Keys == w.sent.Keys + Delivers(w, e)
            && (forall id :: id in w.sent ==> Apply(w, e).sent[id] == w.sent[id])
            && (e.Complete? ==> forall id :: id in Delivers(w, e) ==> id in w.streams && w.streams[id] == e.stream)
  {
    RunOk(events);
    var w := After(events);
    assert forall id :: id in w.tables.byRequest.Values ==> id in w.tables.byRequest;
  }

  /** A connection failure tells every waiting request and empties both maps. */
  lemma {:induction false} FailAllTellsEveryone(events: seq<Event>, retryable: bool)
    requires Run(events)
    ensures var w := After(events);
            var w' := Apply(w, FailAll(retryable));
            && w'.tables == Tables(map[], map[])
            && (forall id :: id in w.tables.byRequest ==> id in w'.sent && w'.sent[id] == ConnectionFailed(retryable))
  {
    RunOk(events);
    var t := After(events).tables;
    assert forall id :: id in t.byRequest ==> t.byRequest[id] in t.byRequest.Values;
  }

  /**
    Once a request's guard is disarmed or its cleanup has run, neither map mentions it, in this
    state and in every later one.
   */
  lemma {:induction false} FinishedLeavesNoTrace(events: seq<Event>, later: seq<Event>, id: RequestId)
    requires Run(events + later) && id in After(events).finished
    ensures var t := After(events + later).tables; id !in t.byRequest && id !in t.byStream.Values
    decreases |later|
  {
    RunOk(events + later);
    FinishedStays(events, later, id);
  }

  lemma {:induction false} FinishedStays(events: seq<Event>, later: seq<Event>, id: RequestId)
    requires id in After(events).finished
    ensures id in After(events + later).finished
    decreases |later|
  {
    if |later| == 0 {
      assert events + later == events;
    } else {
      var shorter := later[..|later| - 1];
      FinishedStays(events, shorter, id);
      assert (events + later)[..|events + later| - 1] == events + shorter;
    }
  }

  // ---------------------------------------------------------------- nobody is forgotten

  /** None of these events gives up waiting for `id`: its cleanup, or a failure of the connection. */
  predicate Undisturbed(events: seq<Event>, id: RequestId) {
    forall e :: e in events ==> e != Event.Clear(id) && !e.FailAll?
  }

  predicate NoCompletion(events: seq<Event>, stream: StreamId) {
    forall e :: e in events && e.Complete? ==> e.stream != stream
  }

  /** `id` waits; once a stream was opened for it, the table has that stream. */
  ghost predicate Waits(w: World, id: RequestId, stream: Option<StreamId>) {
    && id in w.tables.byRequest && w.tables.byRequest[id] == id && id in w.issued
    && match stream
       case None => id !in w.streams
       case Some(s) => id in w.streams && w.streams[id] == s && s in w.tables.byStream && w.tables.byStream[s] == id
  }

  lemma {:induction false} AfterSnoc(events: seq<Event>, e: Event)
    ensures After(events + [e]) == Apply(After(events), e)
    ensures Run(events + [e]) <==> Run(events) && Enabled(After(events), e)
  {
    hide Apply;
    assert (events + [e])[..|events|] == events;
  }

  lemma {:induction false} RunPrefix(events: seq<Event>, later: seq<Event>)
    requires Run(events + later)
    ensures Run(events)
    decreases |later|
  {
    hide Run;
    if |later| == 0 {
      assert events + later == events;
    } else {
      var n := |later| - 1;
      assert events + later == events + later[..n] + [later[n]];
      AfterSnoc(events + later[..n], later[n]);
      RunPrefix(events, later[..n]);
    }
  }

  lemma {:induction false} StepWaits(w: World, e: Event, id: RequestId, stream: Option<StreamId>)
    requires TablesOk(w) && HistoryOk(w) && Enabled(w, e) && Waits(w, id, stream)
    requires e != Event.Clear(id) && !e.FailAll? && (e.Open? ==> e.id != id)
    requires stream.Some? && e.Complete? ==> e.stream != stream.value
    ensures Waits(Apply(w, e), id, stream)
  {
  }

  lemma {:induction false} StreamsGrow(events: seq<Event>, later: seq<Event>, id: RequestId)
    requires id in After(events).streams
    ensures id in After(events + later).streams
    decreases |later|
  {
    if |later| == 0 {
      assert events + later == events;
    } else {
      var n := |later| - 1;
      assert events + later == events + later[..n] + [later[n]];
      AfterSnoc(events + later[..n], later[n]);
      StreamsGrow(events, later[..n], id);
    }
  }

  /** While it is undisturbed, its stream is not completed and none is opened for it, a waiting request waits on. */
  lemma {:induction false} KeepsWaiting(events: seq<Event>, later: seq<Event>, id: RequestId, stream: Option<StreamId>)
    requires Run(events + later) && Waits(After(events), id, stream) && Undisturbed(later, id)
    requires stream.Some? ==> NoCompletion(later, stream.value)
    requires stream.None? ==> id !in After(events + later).streams
    ensures Waits(After(events + later), id, stream)
    decreases |later|
  {
    hide Waits, After, Run, Apply;
    if |later| == 0 {
      assert events + later == events;
    } else {
      var n := |later| - 1;
      var e := later[n];
      var w := After(events + later[..n]);
      assert events + later == events + later[..n] + [e];
      AfterSnoc(events + later[..n], e);
      RunOk(events + later[..n]);
      assert e in later;
      if stream.None? && id in w.streams {
        StreamsGrow(events + later[..n], [e], id);
      }
      KeepsWaiting(events, later[..n], id, stream);
      OpensOnce(w, e, id, stream);
      StepWaits(w, e, id, stream);
    }
  }

  lemma {:induction false} OpensOnce(w: World, e: Event, id: RequestId, stream: Option<StreamId>)
    requires Enabled(w, e) && Waits(w, id, stream) && (stream.None? ==> id !in Apply(w, e).streams)
    ensures e.Open? ==> e.id != id
  {
  }

  /** A request that was registered, and if opened still has its stream uncompleted, is waiting. */
  lemma {:induction false} RegisteredWaits(before: seq<Event>, id: RequestId, later: seq<Event>)
    requires Run(before + [Event.Register(id)] + later) && Undisturbed(later, id)
    requires id !in After(before + [Event.Register(id)] + later).streams
    ensures Waits(After(before + [Event.Register(id)] + later), id, None)
  {
    hide Waits, After, Run;
    var start := before + [Event.Register(id)];
    RunPrefix(start, later);
    AfterSnoc(before, Event.Register(id));
    NotYetOpened(start, later, id);
    JustRegistered(After(before), id);
    KeepsWaiting(start, later, id, None);
  }

  lemma {:induction false} NotYetOpened(events: seq<Event>, later: seq<Event>, id: RequestId)
    requires id !in After(events + later).streams
    ensures id !in After(events).streams
  {
    if id in After(events).streams {
      StreamsGrow(events, later, id);
    }
  }

  lemma {:induction false} JustRegistered(w: World, id: RequestId)
    requires id !in Apply(w, Event.Register(id)).streams
    ensures Waits(Apply(w, Event.Register(id)), id, None)
  {
  }

  lemma {:induction false} OpenedWaits(before: seq<Event>, id: RequestId, middle: seq<Event>, stream: StreamId,
                                       later: seq<Event>)
    requires Run(before + [Event.Register(id)] + middle + [Open(stream, id)] + later)
    requires Undisturbed(middle, id) && Undisturbed(later, id) && NoCompletion(later, stream)
    ensures Waits(After(before + [Event.Register(id)] + middle + [Open(stream, id)] + later), id, Some(stream))
  {
    hide Waits, After, Run;
    var first := before + [Event.Register(id)] + middle;
    var started := first + [Open(stream, id)];
    RunPrefix(started, later);
    AfterSnoc(first, Open(stream, id));
    RegisteredWaits(before, id, middle);
    JustOpened(After(first), id, stream);
    KeepsWaiting(started, later, id, Some(stream));
  }

  lemma {:induction false} JustOpened(w: World, id: RequestId, stream: StreamId)
    requires Waits(w, id, None)
    ensures Waits(Apply(w, Open(stream, id)), id, Some(stream))
  {
  }

  /**
    Over every run: a request that was registered and then got a stream, and was neither cleaned up
    nor hit by a connection failure since, is told what the first completion of that stream brings,
    whatever happened to other requests in between.
   */
  lemma {:induction false} CompletionReaches(before: seq<Event>, id: RequestId, middle: seq<Event>, stream: StreamId,
                                             later: seq<Event>, body: Option<Bytes>, retryable: bool)
    requires Run(before + [Event.Register(id)] + middle + [Open(stream, id)] + later)
    requires Undisturbed(middle, id) && Undisturbed(later, id) && NoCompletion(later, stream)
    ensures var events := before + [Event.Register(id)] + middle + [Open(stream, id)] + later;
            var w := After(events + [Complete(stream, body, retryable)]);
            && id !in After(events).sent && id in w.sent && w.sent[id] == FromStream(stream, body, retryable)
            && id !in w.tables.byRequest && stream !in w.tables.byStream
  {
    hide After, Run;
    var events := before + [Event.Register(id)] + middle + [Open(stream, id)] + later;
    OpenedWaits(before, id, middle, stream, later);
    AfterSnoc(events, Complete(stream, body, retryable));
    RunOk(events);
  }

  /** Such a request is told when the connection fails, before a stream was opened for it or after. */
  lemma {:induction false} FailureReaches(before: seq<Event>, id: RequestId, later: seq<Event>, retryable: bool)
    requires Run(before + [Event.Register(id)] + later) && Undisturbed(later, id)
    requires id !in After(before + [Event.Register(id)] + later).streams
    ensures var events := before + [Event.Register(id)] + later;
            var w := After(events + [Event.FailAll(retryable)]);
            id !in After(events).sent && id in w.sent && w.sent[id] == ConnectionFailed(retryable)
  {
    hide After, Run;
    var events := before + [Event.Register(id)] + later;
    RegisteredWaits(before, id, later);
    FailureTells(events, id, None, retryable);
  }

  lemma {:induction false} OpenedFailureReaches(before: seq<Event>, id: RequestId, middle: seq<Event>, stream: StreamId,
                                                later: seq<Event>, retryable: bool)
    requires Run(before + [Event.Register(id)] + middle + [Open(stream, id)] + later)
    requires Undisturbed(middle, id) && Undisturbed(later, id) && NoCompletion(later, stream)
    ensures var events := before + [Event.Register(id)] + middle + [Open(stream, id)] + later;
            var w := After(events + [Event.FailAll(retryable)]);
            id !in After(events).sent && id in w.sent && w.sent[id] == ConnectionFailed(retryable)
  {
    OpenedWaits(before, id, middle, stream, later);
    FailureTells(before + [Event.Register(id)] + middle + [Open(stream, id)] + later, id, Some(stream), retryable);
  }

  lemma {:induction false} FailureTells(events: seq<Event>, id: RequestId, stream: Option<StreamId>, retryable: bool)
    requires Run(events) && Waits(After(events), id, stream)
    ensures var w := After(events + [Event.FailAll(retryable)]);
            id !in After(events).sent && id in w.sent && w.sent[id] == ConnectionFailed(retryable)
  {
    hide After, Run;
    AfterSnoc(events, Event.FailAll(retryable));
    RunOk(events);
    assert After(events).tables.byRequest[id] in After(events).tables.byRequest.Values;
  }
}
