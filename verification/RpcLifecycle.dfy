/** The asynchronous server of programs/saas-services/bb-monitor-ingestion-srv: call objects that spawn their
    successor, carry one request or stream each, and delete themselves, driven by the events of one completion
    queue (HandleRpcs in main.cpp; put_metrics_call_data.h and put_metrics2_call_data.h). */
module RpcLifecycle {
  import opened Labels
  import opened Wrappers

  // ----- metrics

  /** Doubles are only passed on, never computed with. */
  datatype Sample = Unset | Long(l: int) | Double(d: real) | LatLon(lat: real, lon: real)

  datatype Metric = Metric(ns: string, name: string, labels: seq<Label>, timestamp: int, sample: Sample)

  /** What is put into a sink's queue: the Kafka key and the avro record. */
  datatype Pushed = Pushed(sink: nat, key: string, metric: Metric)

  /** One metric of one request. */
  datatype Received = Received(call: nat, sink: nat, metric: Metric)

  /** The records a sequence of received metrics leads to: those with a measurement, under ns ++ name. */
  function PushesOf(log: seq<Received>): seq<Pushed>
  {
    if log == [] then []
    else
      var r := log[|log| - 1];
      PushesOf(log[..|log| - 1])
        + if r.metric.sample.Unset? then [] else [Pushed(r.sink, r.metric.ns + r.metric.name, r.metric)]
  }

  function CountOf(log: seq<Received>, call: nat): nat
  {
    if log == [] then 0
    else CountOf(log[..|log| - 1], call) + if log[|log| - 1].call == call then 1 else 0
  }

  // ----- the server

  datatype Kind = Unary | Streaming

  datatype Status = START | READING | READING_FAILED | WRITING | FINISH

  datatype Call = Call(method_: nat, status: Status, sink: Option<nat>, msgCount: nat)

  datatype Reply = Unauthenticated | Count(count: nat)

  datatype State = State(
    calls: map<nat, Call>,        // the live call objects by address
    tags: multiset<nat>,          // operations handed to gRPC and not completed yet
    next: nat,                    // addresses are never reused
    gauge: map<nat, int>,         // active sessions of each sink
    pushed: seq<Pushed>,          // everything put into sink queues
    // history
    openings: map<nat, Option<nat>>,  // the sink that the credentials of each call opened, if any
    log: seq<Received>,
    replies: map<nat, Reply>,
    finished: multiset<nat>,
    deleted: multiset<nat>)

  /** One event of the completion queue; sink and bundle are what the environment supplies when the call
      asks for them: the sink its credentials open, and the request or the stream message. */
  datatype Event = Event(tag: nat, ok: bool, sink: Option<nat>, bundle: seq<Metric>)

  function Gauge(s: State, k: nat): int { if k in s.gauge then s.gauge[k] else 0 }

  function Spawn(s: State, method_: nat): State
  {
    s.(calls := s.calls[s.next := Call(method_, START, None, 0)], tags := s.tags + multiset{s.next}, next := s.next + 1)
  }

  /** The call has asked for its sink. */
  function Open(s: State, tag: nat, sink: Option<nat>): State { s.(openings := s.openings[tag := sink]) }

  /** The entries a bundle adds to the log. */
  function Entries(call: nat, sink: nat, bundle: seq<Metric>): seq<Received>
  {
    seq(|bundle|, i requires 0 <= i < |bundle| => Received(call, sink, bundle[i]))
  }

  function Accept(s: State, call: nat, sink: nat, bundle: seq<Metric>): State
  {
    var log := s.log + Entries(call, sink, bundle);
    s.(log := log, pushed := s.pushed + PushesOf(Entries(call, sink, bundle)))
  }

  /** Hand the call's tag to gRPC once more, with the call in a new condition. */
  function Continue(s: State, tag: nat, c: Call): State
  {
    s.(calls := s.calls[tag := c], tags := s.tags + multiset{tag})
  }

  function Finish(s: State, tag: nat, c: Call, reply: Reply): State
  {
    var s' := Continue(s, tag, c.(status := FINISH));
    s'.(replies := s.replies[tag := reply], finished := s.finished + multiset{tag})
  }

  function Delete(s: State, tag: nat, c: Call): State
  {
    s.(calls := s.calls - {tag}, deleted := s.deleted + multiset{tag},
       gauge := if c.sink.Some? then s.gauge[c.sink.value := Gauge(s, c.sink.value) - 1] else s.gauge)
  }

  /** process_state of the unary call. */
  function ProcessUnary(s: State, tag: nat, c: Call, e: Event): State
  {
    match c.status
    case START =>
      var s1 := Open(Spawn(s, c.method_), tag, e.sink);
      if e.sink.None? then Finish(s1, tag, c, Unauthenticated)
      else
        var n := c.msgCount + |e.bundle|;
        Finish(Accept(s1, tag, e.sink.value, e.bundle), tag, c.(msgCount := n), Count(n))
    case READING_FAILED => Finish(s, tag, c, Count(0))
    case _ => Delete(s, tag, c)
  }

  /** process_state of the streaming call. */
  function ProcessStreaming(s: State, tag: nat, c: Call, e: Event): State
  {
    match c.status
    case START =>
      var s1 := Open(Spawn(s, c.method_), tag, e.sink);
      if e.sink.None? then Finish(s1, tag, c, Unauthenticated)
      else
        var k := e.sink.value;
        Continue(s1.(gauge := s1.gauge[k := Gauge(s1, k) + 1]), tag, c.(status := READING, sink := Some(k)))
    case READING =>
      if c.sink.None? then s
      else Continue(Accept(s, tag, c.sink.value, e.bundle), tag, c.(msgCount := c.msgCount + |e.bundle|))
    case READING_FAILED => Finish(s, tag, c, Count(c.msgCount))
    case _ => Delete(s, tag, c)
  }

  /** One pass through the loop of HandleRpcs; gRPC only ever returns tags that are outstanding. */
  function Handle(kinds: seq<Kind>, s: State, e: Event): State
  {
    if e.tag !in s.tags || e.tag !in s.calls then s
    else
      var c := s.calls[e.tag];
      var c' := if !e.ok && c.status == READING then c.(status := READING_FAILED) else c;
      var s' := s.(tags := s.tags - multiset{e.tag});
      if c.method_ < |kinds| && kinds[c.method_] == Streaming then ProcessStreaming(s', e.tag, c', e)
      else ProcessUnary(s', e.tag, c', e)
  }

  /** Before the loop: one new object for each registered method. */
  function Initial(kinds: seq<Kind>): State
  {
    var calls := map m: nat | m < |kinds| :: Call(m, START, None, 0);
    State(calls, multiset(calls.Keys), |kinds|, map[], [], map[], [], map[], multiset{}, multiset{})
  }

  function Run(kinds: seq<Kind>, events: seq<Event>): State
  {
    if events == [] then Initial(kinds)
    else Handle(kinds, Run(kinds, events[..|events| - 1]), events[|events| - 1])
  }

  lemma RunAppend(kinds: seq<Kind>, events: seq<Event>, e: Event)
    ensures Run(kinds, events + [e]) == Handle(kinds, Run(kinds, events), e)
  {
    hide Handle;
    assert (events + [e])[..|events|] == events;
  }

  // ----- invariants at the loop head

  ghost predicate OneTagEach(calls: map<nat, Call>, tags: multiset<nat>, next: nat)
  {
    && tags == multiset(calls.Keys)
    && forall id :: id in calls ==> id < next
  }

  /** The waiting object of a method. */
  predicate Waits(calls: map<nat, Call>, id: nat, m: nat)
  {
    id in calls && calls[id].status == START && calls[id].method_ == m
  }

  ghost predicate SomeWaits(calls: map<nat, Call>, m: nat) { exists id :: Waits(calls, id, m) }

  ghost predicate OneWaiting(kinds: seq<Kind>, calls: map<nat, Call>)
  {
    && (forall id :: id in calls ==> calls[id].method_ < |kinds|)
    && (forall m: nat :: m < |kinds| ==> SomeWaits(calls, m))
    && (forall m: nat, id, id' :: Waits(calls, id, m) && Waits(calls, id', m) ==> id == id')
  }

  /** A unary call is waiting or finished; a stream is waiting, reading, or finished. */
  predicate StageOk(kind: Kind, c: Call)
  {
    match c.status
    case START => c.sink.None? && c.msgCount == 0
    case READING => kind == Streaming && c.sink.Some?
    case FINISH => kind == Unary ==> c.sink.None?
    case _ => false
  }

  ghost predicate Stages(kinds: seq<Kind>, calls: map<nat, Call>)
  {
    forall id :: id in calls ==> calls[id].method_ < |kinds| && StageOk(kinds[calls[id].method_], calls[id])
  }

  /** Every object finishes once and is deleted once after that. */
  ghost predicate FinishedOnce(calls: map<nat, Call>, next: nat, deleted: multiset<nat>, finished: multiset<nat>)
  {
    && (forall id: nat :: deleted[id] == if id < next && id !in calls then 1 else 0)
    && (forall id: nat :: finished[id] ==
         if (id in calls && calls[id].status == FINISH) || (id < next && id !in calls) then 1 else 0)
  }

  function OnSink(calls: map<nat, Call>, k: nat): set<nat>
  {
    set id | id in calls && calls[id].sink == Some(k)
  }

  /** The gauge of a sink is the number of live authenticated streams on it. */
  ghost predicate GaugesExact(s: State)
  {
    forall k: nat :: Gauge(s, k) == |OnSink(s.calls, k)|
  }

  /** A live call has counted what it received; an address not in use yet has received nothing. */
  ghost predicate CallsCounted(calls: map<nat, Call>, next: nat, log: seq<Received>)
  {
    && (forall id :: id in calls ==> calls[id].msgCount == CountOf(log, id))
    && (forall id: nat :: id >= next ==> CountOf(log, id) == 0)
  }

  /** A reply reports the number of metrics received, or a refusal before any was. */
  predicate CorrectReply(reply: Reply, n: nat)
  {
    reply == Count(n) || (reply == Unauthenticated && n == 0)
  }

  /** Exactly the finished calls have a reply. */
  ghost predicate RepliesExact(replies: map<nat, Reply>, finished: multiset<nat>, log: seq<Received>)
  {
    && (forall id: nat :: id in replies <==> finished[id] > 0)
    && (forall id :: id in replies ==> CorrectReply(replies[id], CountOf(log, id)))
  }

  /** Counts and replies report what was received; the sinks got its records in the order received. */
  ghost predicate CountsExact(s: State)
  {
    && s.pushed == PushesOf(s.log)
    && CallsCounted(s.calls, s.next, s.log)
    && RepliesExact(s.replies, s.finished, s.log)
  }

  /** A call has asked for its sink exactly if it is past START, and a stream reads for the sink it opened. */
  ghost predicate OpenedCalls(calls: map<nat, Call>, next: nat, openings: map<nat, Option<nat>>)
  {
    && (forall id: nat :: id in openings <==> id < next && !(id in calls && calls[id].status == START))
    && (forall id :: id in calls && calls[id].status == READING ==> id in openings && openings[id] == calls[id].sink)
  }

  /** What a call receives goes to the sink it opened. */
  ghost predicate OpenedLog(openings: map<nat, Option<nat>>, log: seq<Received>)
  {
    forall r :: r in log ==> r.call in openings && openings[r.call] == Some(r.sink)
  }

  /** A call is refused exactly if it opened no sink. */
  ghost predicate OpenedReplies(openings: map<nat, Option<nat>>, replies: map<nat, Reply>)
  {
    forall id :: id in replies ==> id in openings && (replies[id] == Unauthenticated <==> openings[id].None?)
  }

  ghost predicate OpeningsExact(s: State)
  {
    OpenedCalls(s.calls, s.next, s.openings) && OpenedLog(s.openings, s.log) && OpenedReplies(s.openings, s.replies)
  }

  ghost predicate Sound(kinds: seq<Kind>, s: State)
  {
    OneTagEach(s.calls, s.tags, s.next) && OneWaiting(kinds, s.calls) && Stages(kinds, s.calls)
  }

  ghost predicate Inv(kinds: seq<Kind>, s: State)
  {
    && Sound(kinds, s) && FinishedOnce(s.calls, s.next, s.deleted, s.finished)
    && GaugesExact(s) && CountsExact(s) && OpeningsExact(s)
  }

  // ----- the log

  lemma {:induction false} LogAppend(log: seq<Received>, more: seq<Received>)
    ensures PushesOf(log + more) == PushesOf(log) + PushesOf(more)
    ensures forall id: nat :: CountOf(log + more, id) == CountOf(log, id) + CountOf(more, id)
  {
    if more == [] {
      assert log + more == log;
    } else {
      var n := |more| - 1;
      LogAppend(log, more[..n]);
      assert (log + more)[..|log + more| - 1] == log + more[..n];
    }
  }

  /** What becomes of one metric: an unset one is only counted, any other goes to the sink under its full name. */
  lemma PushOfEach(call: nat, sink: nat, m: Metric)
    ensures PushesOf([Received(call, sink, m.(sample := Unset))]) == []
    ensures forall l: int :: var n := m.(sample := Long(l));
      PushesOf([Received(call, sink, n)]) == [Pushed(sink, m.ns + m.name, n)]
    ensures forall d: real :: var n := m.(sample := Double(d));
      PushesOf([Received(call, sink, n)]) == [Pushed(sink, m.ns + m.name, n)]
    ensures forall x: real, y: real :: var n := m.(sample := LatLon(x, y));
      PushesOf([Received(call, sink, n)]) == [Pushed(sink, m.ns + m.name, n)]
  {
    assert forall r: Received :: [r][..0] == [];
  }

  lemma {:induction false} CountEntries(call: nat, sink: nat, bundle: seq<Metric>)
    ensures forall id: nat :: CountOf(Entries(call, sink, bundle), id) == if id == call then |bundle| else 0
  {
    if bundle != [] {
      var n := |bundle| - 1;
      CountEntries(call, sink, bundle[..n]);
      assert Entries(call, sink, bundle)[..n] == Entries(call, sink, bundle[..n]);
    }
  }

  // ----- what one event does to the object it is for

  datatype Outcome =
    | Began(c: Call)  // spawned its successor
    | Went(c: Call)
    | Left

  function OutcomeOf(kinds: seq<Kind>, c: Call, e: Event): Outcome
    requires c.method_ < |kinds|
  {
    match c.status
    case START =>
      if e.sink.None? then Began(c.(status := FINISH))
      else if kinds[c.method_] == Unary then Began(c.(status := FINISH, msgCount := c.msgCount + |e.bundle|))
      else Began(c.(status := READING, sink := e.sink))
    case READING => Went(if e.ok then c.(msgCount := c.msgCount + |e.bundle|) else c.(status := FINISH))
    case _ => Left
  }

  predicate Handles(s: State, e: Event) { e.tag in s.tags && e.tag in s.calls }

  function CallsAfter(calls: map<nat, Call>, next: nat, tag: nat, o: Outcome): map<nat, Call>
  {
    match o
    case Began(c) => calls[next := Call(c.method_, START, None, 0)][tag := c]
    case Went(c) => calls[tag := c]
    case Left => calls - {tag}
  }

  predicate Finishes(c: Call, o: Outcome)
  {
    !o.Left? && o.c.status == FINISH && c.status != FINISH
  }

  lemma CallAt(kinds: seq<Kind>, s: State, tag: nat)
    requires Sound(kinds, s) && tag in s.calls
    ensures s.calls[tag].method_ < |kinds| && StageOk(kinds[s.calls[tag].method_], s.calls[tag])
    ensures tag < s.next && s.tags - multiset{tag} + multiset{tag} == s.tags
  {}

  lemma UnaryCalls(kinds: seq<Kind>, s: State, tag: nat, c: Call, e: Event)
    requires c.method_ < |kinds| && kinds[c.method_] == Unary && StageOk(Unary, c) && tag < s.next
    ensures
      var s', o := ProcessUnary(s, tag, c, e), OutcomeOf(kinds, c, e);
      s'.calls == CallsAfter(s.calls, s.next, tag, o) && s'.next == if o.Began? then s.next + 1 else s.next
  {
    if c.status == START {
      UnaryBegins(kinds, s, tag, c, e);
    } else {
      hide Accept, Spawn;
    }
  }

  lemma UnaryBegins(kinds: seq<Kind>, s: State, tag: nat, c: Call, e: Event)
    requires c.method_ < |kinds| && kinds[c.method_] == Unary && c.status == START && tag < s.next
    ensures
      var s', o := ProcessUnary(s, tag, c, e), OutcomeOf(kinds, c, e);
      s'.calls == CallsAfter(s.calls, s.next, tag, o) && s'.next == if o.Began? then s.next + 1 else s.next
  {
    hide Open, Spawn, Accept, Finish;
    var s1 := Open(Spawn(s, c.method_), tag, e.sink);
    SpawnAndOpen(s, c.method_, tag, e.sink);
    if e.sink.None? {
      FinishKeeps(s1, tag, c, Unauthenticated);
    } else {
      var n := c.msgCount + |e.bundle|;
      AcceptKeeps(s1, tag, e.sink.value, e.bundle);
      FinishKeeps(Accept(s1, tag, e.sink.value, e.bundle), tag, c.(msgCount := n), Count(n));
    }
  }

  lemma SpawnAndOpen(s: State, m: nat, tag: nat, sink: Option<nat>)
    ensures var s' := Open(Spawn(s, m), tag, sink);
      s'.calls == s.calls[s.next := Call(m, START, None, 0)] && s'.next == s.next + 1
  {}

  lemma FinishKeeps(s: State, tag: nat, c: Call, reply: Reply)
    ensures var s' := Finish(s, tag, c, reply); s'.calls == s.calls[tag := c.(status := FINISH)] && s'.next == s.next
  {}

  lemma AcceptKeeps(s: State, call: nat, sink: nat, bundle: seq<Metric>)
    ensures var s' := Accept(s, call, sink, bundle); s'.calls == s.calls && s'.next == s.next
  {}

  lemma StreamingCalls(kinds: seq<Kind>, s: State, tag: nat, c: Call, e: Event)
    requires c.method_ < |kinds| && kinds[c.method_] == Streaming && StageOk(Streaming, c) && tag < s.next
    ensures
      var c' := if !e.ok && c.status == READING then c.(status := READING_FAILED) else c;
      var s', o := ProcessStreaming(s, tag, c', e), OutcomeOf(kinds, c, e);
      s'.calls == CallsAfter(s.calls, s.next, tag, o) && s'.next == if o.Began? then s.next + 1 else s.next
  {
    if c.status == START {
      StreamBegins(kinds, s, tag, c, e);
    } else {
      hide Entries, PushesOf, Spawn;
    }
  }

  lemma StreamBegins(kinds: seq<Kind>, s: State, tag: nat, c: Call, e: Event)
    requires c.method_ < |kinds| && kinds[c.method_] == Streaming && c.status == START && tag < s.next
    ensures
      var s', o := ProcessStreaming(s, tag, c, e), OutcomeOf(kinds, c, e);
      s'.calls == CallsAfter(s.calls, s.next, tag, o) && s'.next == if o.Began? then s.next + 1 else s.next
  {
    hide Accept, Delete;
  }

  lemma HandleCalls(kinds: seq<Kind>, s: State, e: Event)
    requires Handles(s, e) && Sound(kinds, s)
    ensures s.calls[e.tag].method_ < |kinds|
    ensures
      var s', o := Handle(kinds, s, e), OutcomeOf(kinds, s.calls[e.tag], e);
      s'.calls == CallsAfter(s.calls, s.next, e.tag, o) && s'.next == if o.Began? then s.next + 1 else s.next
  {
    CallAt(kinds, s, e.tag);
    hide Sound, OutcomeOf, ProcessUnary, ProcessStreaming, CallsAfter;
    var s0 := s.(tags := s.tags - multiset{e.tag});
    if kinds[s.calls[e.tag].method_] == Unary {
      UnaryCalls(kinds, s0, e.tag, s.calls[e.tag], e);
    } else {
      StreamingCalls(kinds, s0, e.tag, s.calls[e.tag], e);
    }
  }

  lemma HandleTags(kinds: seq<Kind>, s: State, e: Event)
    requires Handles(s, e) && Sound(kinds, s)
    ensures s.calls[e.tag].method_ < |kinds|
    ensures
      var s', o := Handle(kinds, s, e), OutcomeOf(kinds, s.calls[e.tag], e);
      s'.tags == if o.Began? then s.tags + multiset{s.next} else if o.Left? then s.tags - multiset{e.tag} else s.tags
  {
    CallAt(kinds, s, e.tag);
    hide Sound, Entries, PushesOf;
  }

  lemma HandleHistory(kinds: seq<Kind>, s: State, e: Event)
    requires Handles(s, e) && Sound(kinds, s)
    ensures s.calls[e.tag].method_ < |kinds|
    ensures
      var c, s' := s.calls[e.tag], Handle(kinds, s, e);
      var o := OutcomeOf(kinds, c, e);
      && s'.deleted == (if o.Left? then s.deleted + multiset{e.tag} else s.deleted)
      && s'.finished == (if Finishes(c, o) then s.finished + multiset{e.tag} else s.finished)
  {
    CallAt(kinds, s, e.tag);
    hide Sound, Entries, PushesOf;
  }

  lemma HandleGauge(kinds: seq<Kind>, s: State, e: Event, k: nat)
    requires Handles(s, e) && Sound(kinds, s)
    ensures s.calls[e.tag].method_ < |kinds|
    ensures
      var c := s.calls[e.tag];
      Gauge(Handle(kinds, s, e), k) == Gauge(s, k) + GaugeMove(c, OutcomeOf(kinds, c, e), k)
  {
    CallAt(kinds, s, e.tag);
    hide Sound, OutcomeOf, ProcessUnary, ProcessStreaming, GaugeMove;
    var s0 := s.(tags := s.tags - multiset{e.tag});
    if kinds[s.calls[e.tag].method_] == Unary {
      UnaryGauge(kinds, s0, e.tag, s.calls[e.tag], e, k);
    } else {
      StreamingGauge(kinds, s0, e.tag, s.calls[e.tag], e, k);
    }
  }

  /** By how much an outcome moves the gauge of sink k. */
  function GaugeMove(c: Call, o: Outcome, k: nat): int
  {
    if o.Left? then if c.sink == Some(k) then -1 else 0
    else if o.c.sink == Some(k) && c.sink != Some(k) then 1 else 0
  }

  lemma UnaryGauge(kinds: seq<Kind>, s: State, tag: nat, c: Call, e: Event, k: nat)
    requires c.method_ < |kinds| && kinds[c.method_] == Unary && StageOk(Unary, c)
    ensures Gauge(ProcessUnary(s, tag, c, e), k) == Gauge(s, k) + GaugeMove(c, OutcomeOf(kinds, c, e), k)
  {
    hide Entries, PushesOf;
  }

  lemma StreamingGauge(kinds: seq<Kind>, s: State, tag: nat, c: Call, e: Event, k: nat)
    requires c.method_ < |kinds| && kinds[c.method_] == Streaming && StageOk(Streaming, c)
    ensures
      var c' := if !e.ok && c.status == READING then c.(status := READING_FAILED) else c;
      Gauge(ProcessStreaming(s, tag, c', e), k) == Gauge(s, k) + GaugeMove(c, OutcomeOf(kinds, c, e), k)
  {
    hide Entries, PushesOf;
    match c.status {
      case START =>
        hide Finish;
        FinishGauge();
      case _ =>
    }
  }

  lemma FinishGauge()
    ensures forall s: State, tag: nat, c: Call, reply: Reply :: Finish(s, tag, c, reply).gauge == s.gauge
  {}

  /** Which sink, if any, the bundle of the event goes to. */
  function Feeds(kinds: seq<Kind>, c: Call, e: Event): Option<nat>
    requires c.method_ < |kinds|
  {
    if c.status == START && kinds[c.method_] == Unary then e.sink
    else if c.status == READING && e.ok then c.sink
    else None
  }

  function Fed(kinds: seq<Kind>, c: Call, e: Event): seq<Received>
    requires c.method_ < |kinds|
  {
    match Feeds(kinds, c, e)
    case Some(k) => Entries(e.tag, k, e.bundle)
    case None => []
  }

  lemma HandleLog(kinds: seq<Kind>, s: State, e: Event)
    requires Handles(s, e) && Sound(kinds, s)
    ensures s.calls[e.tag].method_ < |kinds|
    ensures
      var c, s' := s.calls[e.tag], Handle(kinds, s, e);
      s'.log == s.log + Fed(kinds, c, e) && s'.pushed == s.pushed + PushesOf(Fed(kinds, c, e))
  {
    CallAt(kinds, s, e.tag);
    hide Sound, ProcessUnary, ProcessStreaming, Fed, PushesOf;
    var s0 := s.(tags := s.tags - multiset{e.tag});
    if kinds[s.calls[e.tag].method_] == Unary {
      UnaryLog(kinds, s0, s.calls[e.tag], e);
    } else {
      StreamingLog(kinds, s0, s.calls[e.tag], e);
    }
  }

  lemma UnaryLog(kinds: seq<Kind>, s: State, c: Call, e: Event)
    requires c.method_ < |kinds| && kinds[c.method_] == Unary && StageOk(Unary, c)
    ensures
      var s' := ProcessUnary(s, e.tag, c, e);
      s'.log == s.log + Fed(kinds, c, e) && s'.pushed == s.pushed + PushesOf(Fed(kinds, c, e))
  {
    NoEntries();
    hide Entries, PushesOf;
  }

  lemma StreamingLog(kinds: seq<Kind>, s: State, c: Call, e: Event)
    requires c.method_ < |kinds| && kinds[c.method_] == Streaming && StageOk(Streaming, c)
    ensures
      var c' := if !e.ok && c.status == READING then c.(status := READING_FAILED) else c;
      var s' := ProcessStreaming(s, e.tag, c', e);
      s'.log == s.log + Fed(kinds, c, e) && s'.pushed == s.pushed + PushesOf(Fed(kinds, c, e))
  {
    NoEntries();
    hide Entries, PushesOf;
  }

  lemma HandleReplies(kinds: seq<Kind>, s: State, e: Event)
    requires Handles(s, e) && Sound(kinds, s)
    ensures s.calls[e.tag].method_ < |kinds|
    ensures
      var c, s' := s.calls[e.tag], Handle(kinds, s, e);
      var o := OutcomeOf(kinds, c, e);
      s'.replies == if Finishes(c, o) then s.replies[e.tag := ReplyOf(kinds, c, e)] else s.replies
  {
    CallAt(kinds, s, e.tag);
    hide Sound, OutcomeOf, ProcessUnary, ProcessStreaming, Finishes, ReplyOf;
    var s0 := s.(tags := s.tags - multiset{e.tag});
    if kinds[s.calls[e.tag].method_] == Unary {
      UnaryReplies(kinds, s0, e.tag, s.calls[e.tag], e);
    } else {
      StreamingReplies(kinds, s0, e.tag, s.calls[e.tag], e);
    }
  }

  lemma UnaryReplies(kinds: seq<Kind>, s: State, tag: nat, c: Call, e: Event)
    requires c.method_ < |kinds| && kinds[c.method_] == Unary && StageOk(Unary, c)
    ensures ProcessUnary(s, tag, c, e).replies
         == if Finishes(c, OutcomeOf(kinds, c, e)) then s.replies[tag := ReplyOf(kinds, c, e)] else s.replies
  {
    hide Entries, PushesOf;
  }

  lemma StreamingReplies(kinds: seq<Kind>, s: State, tag: nat, c: Call, e: Event)
    requires c.method_ < |kinds| && kinds[c.method_] == Streaming && StageOk(Streaming, c)
    ensures
      var c' := if !e.ok && c.status == READING then c.(status := READING_FAILED) else c;
      ProcessStreaming(s, tag, c', e).replies
        == if Finishes(c, OutcomeOf(kinds, c, e)) then s.replies[tag := ReplyOf(kinds, c, e)] else s.replies
  {
    hide Entries, PushesOf;
  }

  lemma HandleOpened(kinds: seq<Kind>, s: State, e: Event)
    requires Handles(s, e) && Sound(kinds, s)
    ensures Handle(kinds, s, e).openings == OpenedAfter(s.openings, s.calls[e.tag], e)
  {
    CallAt(kinds, s, e.tag);
    hide Sound, Entries, PushesOf;
  }

  function OpenedAfter(openings: map<nat, Option<nat>>, c: Call, e: Event): map<nat, Option<nat>>
  {
    if c.status == START then openings[e.tag := e.sink] else openings
  }

  lemma NoEntries()
    ensures PushesOf([]) == [] && forall id: nat :: CountOf([], id) == 0
  {}

  // ----- preservation

  lemma TagsAfter(calls: map<nat, Call>, tags: multiset<nat>, next: nat, tag: nat, o: Outcome)
    requires OneTagEach(calls, tags, next) && tag in calls
    ensures
      var tags' := if o.Began? then tags + multiset{next} else if o.Left? then tags - multiset{tag} else tags;
      OneTagEach(CallsAfter(calls, next, tag, o), tags', if o.Began? then next + 1 else next)
  {
    var calls' := CallsAfter(calls, next, tag, o);
    if o.Began? {
      assert calls'.Keys == calls.Keys + {next};
    } else if o.Left? {
      assert calls'.Keys == calls.Keys - {tag};
    } else {
      assert calls'.Keys == calls.Keys;
    }
  }

  lemma WaitingAfter(kinds: seq<Kind>, calls: map<nat, Call>, next: nat, e: Event)
    requires OneWaiting(kinds, calls) && Stages(kinds, calls) && e.tag in calls
    requires forall id :: id in calls ==> id < next
    ensures OneWaiting(kinds, CallsAfter(calls, next, e.tag, OutcomeOf(kinds, calls[e.tag], e)))
  {
    var c := calls[e.tag];
    assert StageOk(kinds[c.method_], c);
    hide Stages;
    var o := OutcomeOf(kinds, c, e);
    var calls' := CallsAfter(calls, next, e.tag, o);
    forall m: nat | m < |kinds| ensures SomeWaits(calls', m) {
      assert SomeWaits(calls, m);
      var id :| Waits(calls, id, m);
      if id != e.tag {
        assert Waits(calls', id, m);
      } else {
        assert Waits(calls', next, m);
      }
    }
    forall m: nat, id, id' | Waits(calls', id, m) && Waits(calls', id', m) ensures id == id' {
      if id != next {
        assert Waits(calls, id, m);
      } else {
        assert o.Began? && Waits(calls, e.tag, m);
      }
      if id' != next {
        assert Waits(calls, id', m);
      } else {
        assert o.Began? && Waits(calls, e.tag, m);
      }
    }
  }

  lemma StagesAfter(kinds: seq<Kind>, calls: map<nat, Call>, next: nat, e: Event)
    requires Stages(kinds, calls) && e.tag in calls
    ensures Stages(kinds, CallsAfter(calls, next, e.tag, OutcomeOf(kinds, calls[e.tag], e)))
  {
    assert StageOk(kinds[calls[e.tag].method_], calls[e.tag]);
  }

  lemma FinishedAfter(kinds: seq<Kind>, calls: map<nat, Call>, next: nat, deleted: multiset<nat>,
                      finished: multiset<nat>, e: Event)
    requires Stages(kinds, calls) && e.tag in calls && FinishedOnce(calls, next, deleted, finished)
    requires forall id :: id in calls ==> id < next
    ensures
      var c := calls[e.tag];
      var o := OutcomeOf(kinds, c, e);
      FinishedOnce(CallsAfter(calls, next, e.tag, o), if o.Began? then next + 1 else next,
        if o.Left? then deleted + multiset{e.tag} else deleted,
        if Finishes(c, o) then finished + multiset{e.tag} else finished)
  {
    var c := calls[e.tag];
    assert StageOk(kinds[c.method_], c);
    hide Stages;
  }

  lemma OnSinkAfter(calls: map<nat, Call>, next: nat, tag: nat, o: Outcome, k: nat)
    requires tag in calls && next !in calls
    requires o.Began? ==> calls[tag].sink.None?
    requires o.Went? ==> o.c.sink == calls[tag].sink
    ensures |OnSink(CallsAfter(calls, next, tag, o), k)| == |OnSink(calls, k)| + GaugeMove(calls[tag], o, k)
  {
    var calls' := CallsAfter(calls, next, tag, o);
    if o.Began? && o.c.sink == Some(k) {
      assert OnSink(calls', k) == OnSink(calls, k) + {tag};
    } else if o.Left? && calls[tag].sink == Some(k) {
      assert OnSink(calls', k) == OnSink(calls, k) - {tag};
    } else {
      assert OnSink(calls', k) == OnSink(calls, k);
    }
  }

  lemma GaugesStep(kinds: seq<Kind>, s: State, e: Event)
    requires Handles(s, e) && Inv(kinds, s)
    ensures GaugesExact(Handle(kinds, s, e))
  {
    CallAt(kinds, s, e.tag);
    HandleCalls(kinds, s, e);
    hide Handle, OneWaiting, Stages, FinishedOnce, CountsExact, Gauge, CallsAfter;
    forall k: nat ensures Gauge(Handle(kinds, s, e), k) == |OnSink(Handle(kinds, s, e).calls, k)| {
      HandleGauge(kinds, s, e, k);
      OnSinkAfter(s.calls, s.next, e.tag, OutcomeOf(kinds, s.calls[e.tag], e), k);
    }
  }

  lemma LogStep(kinds: seq<Kind>, s: State, e: Event)
    requires Handles(s, e) && Sound(kinds, s)
    ensures s.calls[e.tag].method_ < |kinds|
    ensures
      var s' := Handle(kinds, s, e);
      && (s.pushed == PushesOf(s.log) ==> s'.pushed == PushesOf(s'.log))
      && forall id: nat :: CountOf(s'.log, id) == CountOf(s.log, id)
           + if id == e.tag then Added(kinds, s.calls[e.tag], e) else 0
  {
    HandleLog(kinds, s, e);
    hide Handle, Sound, PushesOf, CountOf, Entries;
    var c := s.calls[e.tag];
    LogAppend(s.log, Fed(kinds, c, e));
    NoEntries();
    match Feeds(kinds, c, e) {
      case Some(k) => CountEntries(e.tag, k, e.bundle);
      case None =>
    }
  }

  /** How many metrics the event adds to the call's count. */
  function Added(kinds: seq<Kind>, c: Call, e: Event): nat
    requires c.method_ < |kinds|
  {
    if Feeds(kinds, c, e).Some? then |e.bundle| else 0
  }

  /** What the call will answer if this event finishes it. */
  function ReplyOf(kinds: seq<Kind>, c: Call, e: Event): Reply
    requires c.method_ < |kinds|
  {
    if c.status == START && e.sink.None? then Unauthenticated
    else Count(c.msgCount + Added(kinds, c, e))
  }

  lemma OutcomeCounts(kinds: seq<Kind>, c: Call, e: Event)
    requires c.method_ < |kinds| && StageOk(kinds[c.method_], c)
    ensures
      var o := OutcomeOf(kinds, c, e);
      && (o.Left? <==> c.status == FINISH)
      && (o.Began? ==> o.c.method_ == c.method_)
      && (!o.Left? ==> o.c.msgCount == c.msgCount + Added(kinds, c, e))
      && (o.Left? ==> Added(kinds, c, e) == 0)
      && (Finishes(c, o) ==> CorrectReply(ReplyOf(kinds, c, e), c.msgCount + Added(kinds, c, e)))
  {}

  lemma CallsCountedStep(kinds: seq<Kind>, s: State, e: Event)
    requires Handles(s, e) && Sound(kinds, s) && CallsCounted(s.calls, s.next, s.log)
    ensures var s' := Handle(kinds, s, e); CallsCounted(s'.calls, s'.next, s'.log)
  {
    hide Handle, Sound, PushesOf, CountOf, OutcomeOf, Added;
    CallAt(kinds, s, e.tag);
    HandleCalls(kinds, s, e);
    LogStep(kinds, s, e);
    OutcomeCounts(kinds, s.calls[e.tag], e);
  }

  lemma RepliesAfter(replies: map<nat, Reply>, finished: multiset<nat>, log: seq<Received>, log': seq<Received>,
                     tag: nat, added: nat, done: bool, reply: Reply)
    requires RepliesExact(replies, finished, log)
    requires forall id: nat :: CountOf(log', id) == CountOf(log, id) + if id == tag then added else 0
    requires finished[tag] > 0 ==> added == 0 && !done
    requires done ==> CorrectReply(reply, CountOf(log', tag))
    ensures RepliesExact(if done then replies[tag := reply] else replies,
                         if done then finished + multiset{tag} else finished, log')
  {
    hide CountOf, CorrectReply;
  }

  lemma FinishesOnce(c: Call, o: Outcome)
    ensures Finishes(c, o) ==> c.status != FINISH
  {}

  lemma FinishedSoFar(calls: map<nat, Call>, next: nat, deleted: multiset<nat>, finished: multiset<nat>, id: nat)
    requires FinishedOnce(calls, next, deleted, finished) && id in calls
    ensures finished[id] == if calls[id].status == FINISH then 1 else 0
  {}

  lemma CountedSoFar(calls: map<nat, Call>, next: nat, log: seq<Received>, id: nat)
    requires CallsCounted(calls, next, log) && id in calls
    ensures CountOf(log, id) == calls[id].msgCount
  {}

  /** A finished call receives nothing more; a call that finishes now replies with its count. */
  lemma ReplyFits(kinds: seq<Kind>, s: State, e: Event)
    requires Handles(s, e) && Sound(kinds, s) && FinishedOnce(s.calls, s.next, s.deleted, s.finished)
    requires CallsCounted(s.calls, s.next, s.log)
    ensures s.calls[e.tag].method_ < |kinds|
    ensures
      var c := s.calls[e.tag];
      var done, added := Finishes(c, OutcomeOf(kinds, c, e)), Added(kinds, c, e);
      && (s.finished[e.tag] > 0 ==> added == 0 && !done)
      && (done ==> CorrectReply(ReplyOf(kinds, c, e), CountOf(s.log, e.tag) + added))
  {
    hide Sound, CountOf, OutcomeOf, Added, Finishes, FinishedOnce, CallsCounted, CorrectReply, ReplyOf;
    CallAt(kinds, s, e.tag);
    var c := s.calls[e.tag];
    OutcomeCounts(kinds, c, e);
    FinishesOnce(c, OutcomeOf(kinds, c, e));
    CountedSoFar(s.calls, s.next, s.log, e.tag);
    FinishedSoFar(s.calls, s.next, s.deleted, s.finished, e.tag);
  }

  lemma RepliesStep(kinds: seq<Kind>, s: State, e: Event)
    requires Handles(s, e) && Sound(kinds, s) && FinishedOnce(s.calls, s.next, s.deleted, s.finished)
    requires CallsCounted(s.calls, s.next, s.log) && RepliesExact(s.replies, s.finished, s.log)
    ensures var s' := Handle(kinds, s, e); RepliesExact(s'.replies, s'.finished, s'.log)
  {
    hide Handle, Sound, PushesOf, CountOf, OutcomeOf, Added, Finishes, FinishedOnce, CallsCounted, RepliesExact,
         CorrectReply, ReplyOf;
    ReplyFits(kinds, s, e);
    HandleHistory(kinds, s, e);
    HandleReplies(kinds, s, e);
    LogStep(kinds, s, e);
    var c := s.calls[e.tag];
    RepliesAfter(s.replies, s.finished, s.log, Handle(kinds, s, e).log, e.tag, Added(kinds, c, e),
                 Finishes(c, OutcomeOf(kinds, c, e)), ReplyOf(kinds, c, e));
  }

  lemma CountsStep(kinds: seq<Kind>, s: State, e: Event)
    requires Handles(s, e) && Inv(kinds, s)
    ensures CountsExact(Handle(kinds, s, e))
  {
    hide Handle, Sound, FinishedOnce, CallsCounted, RepliesExact, CountOf, PushesOf;
    LogStep(kinds, s, e);
    CallsCountedStep(kinds, s, e);
    RepliesStep(kinds, s, e);
  }

  lemma OpenedCallsAfter(kinds: seq<Kind>, calls: map<nat, Call>, next: nat, openings: map<nat, Option<nat>>, e: Event)
    requires Stages(kinds, calls) && e.tag in calls && OpenedCalls(calls, next, openings)
    requires forall id :: id in calls ==> id < next
    ensures
      var o := OutcomeOf(kinds, calls[e.tag], e);
      OpenedCalls(CallsAfter(calls, next, e.tag, o), if o.Began? then next + 1 else next,
                  OpenedAfter(openings, calls[e.tag], e))
  {
    var c := calls[e.tag];
    assert StageOk(kinds[c.method_], c);
    hide Stages;
  }

  lemma OpenedLogAfter(kinds: seq<Kind>, calls: map<nat, Call>, next: nat, openings: map<nat, Option<nat>>,
                       log: seq<Received>, e: Event)
    requires e.tag in calls && calls[e.tag].method_ < |kinds|
    requires OpenedCalls(calls, next, openings) && OpenedLog(openings, log)
    ensures OpenedLog(OpenedAfter(openings, calls[e.tag], e), log + Fed(kinds, calls[e.tag], e))
  {
    var c := calls[e.tag];
    forall r | r in Fed(kinds, c, e) ensures r.call == e.tag && Feeds(kinds, c, e) == Some(r.sink) {}
    hide Entries;
  }

  lemma OpenedRepliesAfter(kinds: seq<Kind>, calls: map<nat, Call>, next: nat, openings: map<nat, Option<nat>>,
                           replies: map<nat, Reply>, e: Event)
    requires Stages(kinds, calls) && e.tag in calls
    requires OpenedCalls(calls, next, openings) && OpenedReplies(openings, replies)
    ensures
      var c := calls[e.tag];
      OpenedReplies(OpenedAfter(openings, c, e),
        if Finishes(c, OutcomeOf(kinds, c, e)) then replies[e.tag := ReplyOf(kinds, c, e)] else replies)
  {
    assert StageOk(kinds[calls[e.tag].method_], calls[e.tag]);
    hide Stages, Added;
  }

  lemma OpeningsStep(kinds: seq<Kind>, s: State, e: Event)
    requires Handles(s, e) && Sound(kinds, s) && OpeningsExact(s)
    ensures OpeningsExact(Handle(kinds, s, e))
  {
    hide Handle, OneWaiting, Stages, CallsAfter, OutcomeOf, OpenedAfter, OpenedCalls, OpenedLog, OpenedReplies, Fed,
         Finishes, ReplyOf, Entries, PushesOf;
    HandleCalls(kinds, s, e);
    HandleOpened(kinds, s, e);
    HandleLog(kinds, s, e);
    HandleReplies(kinds, s, e);
    OpenedCallsAfter(kinds, s.calls, s.next, s.openings, e);
    OpenedLogAfter(kinds, s.calls, s.next, s.openings, s.log, e);
    OpenedRepliesAfter(kinds, s.calls, s.next, s.openings, s.replies, e);
  }

  lemma InvStep(kinds: seq<Kind>, s: State, e: Event)
    requires Inv(kinds, s)
    ensures Inv(kinds, Handle(kinds, s, e))
  {
    hide Handle, OneWaiting, Stages, FinishedOnce, CountsExact, GaugesExact, OpeningsExact, CallsAfter, OutcomeOf,
         Finishes;
    if Handles(s, e) {
      HandleCalls(kinds, s, e);
      HandleTags(kinds, s, e);
      HandleHistory(kinds, s, e);
      TagsAfter(s.calls, s.tags, s.next, e.tag, OutcomeOf(kinds, s.calls[e.tag], e));
      WaitingAfter(kinds, s.calls, s.next, e);
      StagesAfter(kinds, s.calls, s.next, e);
      FinishedAfter(kinds, s.calls, s.next, s.deleted, s.finished, e);
      GaugesStep(kinds, s, e);
      CountsStep(kinds, s, e);
      OpeningsStep(kinds, s, e);
    } else {
      NotHandled(kinds, s, e);
    }
  }

  lemma NotHandled(kinds: seq<Kind>, s: State, e: Event)
    requires !Handles(s, e)
    ensures Handle(kinds, s, e) == s
  {}

  lemma InvInitial(kinds: seq<Kind>)
    ensures Inv(kinds, Initial(kinds))
  {
    var s := Initial(kinds);
    forall m: nat | m < |kinds| ensures SomeWaits(s.calls, m) {
      assert Waits(s.calls, m, m);
    }
    forall k: nat ensures Gauge(s, k) == |OnSink(s.calls, k)| {
      assert OnSink(s.calls, k) == {};
    }
  }

  lemma {:induction false} RunInv(kinds: seq<Kind>, events: seq<Event>)
    ensures Inv(kinds, Run(kinds, events))
  {
    hide Inv, Handle;
    if events == [] {
      InvInitial(kinds);
    } else {
      RunInv(kinds, events[..|events| - 1]);
      InvStep(kinds, Run(kinds, events[..|events| - 1]), events[|events| - 1]);
    }
  }

  // ----- at the head of the loop, after every sequence of completions

  /** Each live object has exactly one operation outstanding, and nothing else is outstanding. */
  lemma OneOutstandingTag(kinds: seq<Kind>, events: seq<Event>)
    ensures var s := Run(kinds, events);
      forall id: nat :: s.tags[id] == if id in s.calls then 1 else 0
  {
    RunInv(kinds, events);
    hide Run;
  }

  /** Each registered method has exactly one object waiting for its next client. */
  lemma OneWaitingObject(kinds: seq<Kind>, events: seq<Event>, m: nat)
    requires m < |kinds|
    ensures var s := Run(kinds, events);
      exists id :: Waits(s.calls, id, m) && forall id' :: Waits(s.calls, id', m) ==> id' == id
  {
    RunInv(kinds, events);
    hide Run, GaugesExact, CountsExact, FinishedOnce, Stages, OpeningsExact;
    assert SomeWaits(Run(kinds, events).calls, m);
  }

  /** Every object ever created is live, or was finished once and then deleted once. */
  lemma FinishedThenDeletedOnce(kinds: seq<Kind>, events: seq<Event>, id: nat)
    ensures
      var s := Run(kinds, events);
      if id in s.calls then s.deleted[id] == 0 && s.finished[id] == if s.calls[id].status == FINISH then 1 else 0
      else if id < s.next then s.deleted[id] == 1 && s.finished[id] == 1
      else s.deleted[id] == 0 && s.finished[id] == 0
  {
    RunInv(kinds, events);
    hide Run, GaugesExact, CountsExact, Stages, OpeningsExact;
  }

  /** Unary calls never read, so a failed completion never turns one into READING_FAILED; no call at all
      is in READING_FAILED or WRITING, so the assertion before the delete holds. */
  lemma StagesOfCalls(kinds: seq<Kind>, events: seq<Event>, id: nat)
    requires id in Run(kinds, events).calls
    ensures
      var c := Run(kinds, events).calls[id];
      && c.method_ < |kinds|
      && (kinds[c.method_] == Unary ==> c.status == START || c.status == FINISH)
      && (c.status == START || c.status == READING || c.status == FINISH)
  {
    RunInv(kinds, events);
    hide Run, GaugesExact, CountsExact, FinishedOnce, OneWaiting, OpeningsExact;
  }

  /** The session gauge of a sink is the number of live streams that authenticated for it. */
  lemma GaugeIsLiveStreams(kinds: seq<Kind>, events: seq<Event>, k: nat)
    ensures
      var s := Run(kinds, events);
      && (forall id :: id in s.calls ==> s.calls[id].method_ < |kinds|)
      && Gauge(s, k)
         == |set id | id in s.calls && kinds[s.calls[id].method_] == Streaming && s.calls[id].sink == Some(k)|
  {
    RunInv(kinds, events);
    var s := Run(kinds, events);
    hide Run, CountsExact, FinishedOnce, OpeningsExact;
    assert forall id :: id in s.calls ==> StageOk(kinds[s.calls[id].method_], s.calls[id]);
    assert OnSink(s.calls, k)
        == set id | id in s.calls && kinds[s.calls[id].method_] == Streaming && s.calls[id].sink == Some(k);
  }

  /** What one event does to the call it is for. A call that begins leaves a successor waiting. It is refused if its
      credentials open no sink; otherwise a unary call takes its request and answers with the number of metrics, and a
      stream starts to read for that sink. A message read is added to the count; when there is none left the stream
      answers with the count. A call that has answered is deleted. */
  ghost predicate Moves(kinds: seq<Kind>, s: State, e: Event, s': State)
    requires e.tag in s.calls && s.calls[e.tag].method_ < |kinds|
  {
    var c := s.calls[e.tag];
    if c.status == START then
      && s'.next == s.next + 1 && s'.openings == s.openings[e.tag := e.sink]
      && var (c', reply) :=
           if e.sink == None then (c.(status := FINISH), Some(Unauthenticated))
           else if kinds[c.method_] == Unary then (Call(c.method_, FINISH, None, |e.bundle|), Some(Count(|e.bundle|)))
           else (Call(c.method_, READING, e.sink, 0), None);
         && s'.calls == s.calls[s.next := Call(c.method_, START, None, 0)][e.tag := c']
         && s'.replies == if reply.Some? then s.replies[e.tag := reply.value] else s.replies
    else
      && s'.next == s.next && s'.openings == s.openings
      && if c.status == READING && e.ok then
           s'.calls == s.calls[e.tag := c.(msgCount := c.msgCount + |e.bundle|)] && s'.replies == s.replies
         else if c.status == READING then
           s'.calls == s.calls[e.tag := c.(status := FINISH)] && s'.replies == s.replies[e.tag := Count(c.msgCount)]
         else
           s'.calls == s.calls - {e.tag} && s'.replies == s.replies
  }

  lemma OutcomeMoves(kinds: seq<Kind>, s: State, e: Event, s': State)
    requires e.tag in s.calls && s.calls[e.tag].method_ < |kinds|
    requires StageOk(kinds[s.calls[e.tag].method_], s.calls[e.tag])
    requires
      var c := s.calls[e.tag];
      var o := OutcomeOf(kinds, c, e);
      && s'.calls == CallsAfter(s.calls, s.next, e.tag, o) && s'.next == (if o.Began? then s.next + 1 else s.next)
      && s'.replies == (if Finishes(c, o) then s.replies[e.tag := ReplyOf(kinds, c, e)] else s.replies)
      && s'.openings == OpenedAfter(s.openings, c, e)
    ensures Moves(kinds, s, e, s')
  {}

  /** Every completion of every run moves its call like that, and a completion that is not outstanding does nothing. */
  lemma EventMovesCall(kinds: seq<Kind>, events: seq<Event>, e: Event)
    ensures
      var s, s' := Run(kinds, events), Run(kinds, events + [e]);
      if e.tag in s.tags && e.tag in s.calls then
        s.calls[e.tag].method_ < |kinds| && s.next !in s.calls && Moves(kinds, s, e, s')
      else s' == s
  {
    RunInv(kinds, events);
    RunAppend(kinds, events, e);
    var s := Run(kinds, events);
    hide Run, Handle, CountsExact, GaugesExact, FinishedOnce, OpeningsExact, OneWaiting, Stages, OutcomeOf, CallsAfter,
         Finishes, ReplyOf, OpenedAfter, Moves;
    if Handles(s, e) {
      CallAt(kinds, s, e.tag);
      HandleCalls(kinds, s, e);
      HandleReplies(kinds, s, e);
      HandleOpened(kinds, s, e);
      OutcomeMoves(kinds, s, e, Handle(kinds, s, e));
    } else {
      NotHandled(kinds, s, e);
    }
  }

  /** The event carries metrics to the call it is for: the request of a unary call that begins and has a sink, or a
      message of a stream that is reading. */
  predicate Delivers(kinds: seq<Kind>, s: State, e: Event)
  {
    && e.tag in s.tags && e.tag in s.calls
    && var c := s.calls[e.tag];
    && c.method_ < |kinds|
    && if c.status == START then kinds[c.method_] == Unary && e.sink != None else c.status == READING && e.ok
  }

  /** Every metric of such an event is received, in order, for the sink that the call opened; no other event adds to
      what was received. */
  lemma BundleIsReceived(kinds: seq<Kind>, events: seq<Event>, e: Event)
    ensures
      var s, s' := Run(kinds, events), Run(kinds, events + [e]);
      if Delivers(kinds, s, e) then
        && e.tag in s'.openings && s'.openings[e.tag].Some?
        && |s'.log| == |s.log| + |e.bundle| && s.log <= s'.log
        && forall i :: 0 <= i < |e.bundle| ==>
             s'.log[|s.log| + i] == Received(e.tag, s'.openings[e.tag].value, e.bundle[i])
      else s'.log == s.log
  {
    hide Run, Handle, Inv, Delivers;
    RunInv(kinds, events);
    RunAppend(kinds, events, e);
    StepReceives(kinds, Run(kinds, events), e);
  }

  lemma StepReceives(kinds: seq<Kind>, s: State, e: Event)
    requires Inv(kinds, s)
    ensures
      var s' := Handle(kinds, s, e);
      if Delivers(kinds, s, e) then
        && e.tag in s'.openings && s'.openings[e.tag].Some?
        && |s'.log| == |s.log| + |e.bundle| && s.log <= s'.log
        && forall i :: 0 <= i < |e.bundle| ==>
             s'.log[|s.log| + i] == Received(e.tag, s'.openings[e.tag].value, e.bundle[i])
      else s'.log == s.log
  {
    hide Handle, CountsExact, GaugesExact, FinishedOnce, OneWaiting, OpenedLog, OpenedReplies, PushesOf;
    if Handles(s, e) {
      CallAt(kinds, s, e.tag);
      HandleLog(kinds, s, e);
      HandleOpened(kinds, s, e);
    } else {
      NotHandled(kinds, s, e);
    }
  }

  /** What was sent to a call: the bundles of its events, one after the other. */
  function Sent(kinds: seq<Kind>, events: seq<Event>, call: nat): seq<Metric>
  {
    if events == [] then []
    else
      var before, e := events[..|events| - 1], events[|events| - 1];
      Sent(kinds, before, call) + if Delivers(kinds, Run(kinds, before), e) && e.tag == call then e.bundle else []
  }

  /** The metrics that a call received. */
  function MetricsOf(log: seq<Received>, call: nat): seq<Metric>
  {
    if log == [] then []
    else
      var r := log[|log| - 1];
      MetricsOf(log[..|log| - 1], call) + if r.call == call then [r.metric] else []
  }

  lemma {:induction false} MetricsGrow(log: seq<Received>, call: nat, tag: nat, sink: nat, bundle: seq<Metric>)
    requires |log| >= |bundle|
    requires forall i :: 0 <= i < |bundle| ==> log[|log| - |bundle| + i] == Received(tag, sink, bundle[i])
    ensures MetricsOf(log, call)
         == MetricsOf(log[..|log| - |bundle|], call) + if tag == call then bundle else []
  {
    if bundle == [] {
      assert log[..|log|] == log;
    } else {
      var n, m := |log| - 1, |bundle| - 1;
      MetricsGrow(log[..n], call, tag, sink, bundle[..m]);
      assert log[..n][..n - m] == log[..|log| - |bundle|];
      assert bundle[..m] + [bundle[m]] == bundle;
    }
  }

  lemma {:induction false} CountIsLength(log: seq<Received>, call: nat)
    ensures CountOf(log, call) == |MetricsOf(log, call)|
  {
    if log != [] {
      CountIsLength(log[..|log| - 1], call);
    }
  }

  /** What a call received is what was sent to it: the bundles of its events, one after the other. */
  lemma {:induction false} ReceivedIsSent(kinds: seq<Kind>, events: seq<Event>, call: nat)
    ensures MetricsOf(Run(kinds, events).log, call) == Sent(kinds, events, call)
  {
    hide Run, Delivers, MetricsOf;
    NothingReceived(kinds, call);
    if events != [] {
      var before, e := events[..|events| - 1], events[|events| - 1];
      ReceivedIsSent(kinds, before, call);
      assert before + [e] == events;
      SentMore(kinds, before, e, call);
    }
  }

  lemma NothingReceived(kinds: seq<Kind>, call: nat)
    ensures MetricsOf(Run(kinds, []).log, call) == []
  {}

  lemma SentMore(kinds: seq<Kind>, events: seq<Event>, e: Event, call: nat)
    ensures
      var s, s' := Run(kinds, events), Run(kinds, events + [e]);
      MetricsOf(s'.log, call)
        == MetricsOf(s.log, call) + if Delivers(kinds, s, e) && e.tag == call then e.bundle else []
  {
    hide Run, Delivers, MetricsOf;
    BundleIsReceived(kinds, events, e);
    var s, s' := Run(kinds, events), Run(kinds, events + [e]);
    if Delivers(kinds, s, e) {
      assert s'.log[..|s.log|] == s.log;
      MetricsGrow(s'.log, call, e.tag, s'.openings[e.tag].value, e.bundle);
    }
  }

  /** A call is refused exactly if its credentials opened no sink; otherwise the reply counts all metrics sent
      to the call, measured or not. What a call receives goes to the sink it opened; the sinks got exactly the measured
      metrics, in the order received. */
  lemma RepliesAndPushes(kinds: seq<Kind>, events: seq<Event>)
    ensures
      var s := Run(kinds, events);
      && s.pushed == PushesOf(s.log)
      && (forall id :: id in s.replies ==>
           id in s.openings
           && s.replies[id] == if s.openings[id].None? then Unauthenticated else Count(|Sent(kinds, events, id)|))
      && (forall r :: r in s.log ==> r.call in s.openings && s.openings[r.call] == Some(r.sink))
      && (forall id: nat :: id in s.replies <==> s.finished[id] > 0)
      && (forall id: nat :: MetricsOf(s.log, id) == Sent(kinds, events, id))
  {
    RunInv(kinds, events);
    hide Run, GaugesExact, FinishedOnce, CallsCounted, Sound, OpenedCalls, Sent, MetricsOf;
    forall id: nat
      ensures var log, sent := Run(kinds, events).log, Sent(kinds, events, id);
        CountOf(log, id) == |sent| && MetricsOf(log, id) == sent
    {
      CountIsLength(Run(kinds, events).log, id);
      ReceivedIsSent(kinds, events, id);
    }
  }

  // ----- the server object

  lemma Handled(kinds: seq<Kind>, s: State, e: Event)
    requires Handles(s, e) && Inv(kinds, s)
    ensures var c := s.calls[e.tag];
      c.method_ < |kinds| && (c.status == READING ==> kinds[c.method_] == Streaming && c.sink.Some?)
    ensures
      var c := s.calls[e.tag];
      var c' := if !e.ok && c.status == READING then c.(status := READING_FAILED) else c;
      var s' := s.(tags := s.tags - multiset{e.tag});
      Handle(kinds, s, e) == if kinds[c.method_] == Streaming then ProcessStreaming(s', e.tag, c', e)
        else ProcessUnary(s', e.tag, c', e)
  {
    CallAt(kinds, s, e.tag);
    hide Inv, ProcessUnary, ProcessStreaming;
  }

  class Server {
    const kinds: seq<Kind>
    var calls: map<nat, Call>
    var tags: multiset<nat>
    var next: nat
    var gauge: map<nat, int>
    var pushed: seq<Pushed>
    ghost var log: seq<Received>
    ghost var openings: map<nat, Option<nat>>
    ghost var replies: map<nat, Reply>
    ghost var finished: multiset<nat>
    ghost var deleted: multiset<nat>

    ghost function S(): State
      reads this
    {
      State(calls, tags, next, gauge, pushed, openings, log, replies, finished, deleted)
    }

    /** Registering the methods: one object each. */
    constructor (kinds: seq<Kind>)
      ensures this.kinds == kinds && S() == Initial(kinds)
    {
      this.kinds := kinds;
      calls := map m: nat | m < |kinds| :: Call(m, START, None, 0);
      tags := multiset((map m: nat | m < |kinds| :: Call(m, START, None, 0)).Keys);
      next, gauge, pushed := |kinds|, map[], [];
      openings, log, replies, finished, deleted := map[], [], map[], multiset{}, multiset{};
    }

    method NewCall(m: nat)
      modifies this
      ensures S() == Spawn(old(S()), m)
    {
      calls := calls[next := Call(m, START, None, 0)];
      tags := tags + multiset{next};
      next := next + 1;
    }

    /** The loop over the metrics of a bundle: every metric is counted, those with a measurement are pushed. */
    method PushMetrics(call: nat, sink: nat, bundle: seq<Metric>) returns (count: nat)
      modifies this
      ensures S() == Accept(old(S()), call, sink, bundle) && count == |bundle|
      ensures |log| == |old(log)| + |bundle| && old(log) <= log
      ensures forall i :: 0 <= i < |bundle| ==> log[|old(log)| + i] == Received(call, sink, bundle[i])
    {
      count := 0;
      while count != |bundle|
        invariant count <= |bundle|
        invariant S() == Accept(old(S()), call, sink, bundle[..count])
      {
        var metric := bundle[count];
        match metric.sample {
          case Unset =>
          case Long(_) => pushed := pushed + [Pushed(sink, metric.ns + metric.name, metric)];
          case Double(_) => pushed := pushed + [Pushed(sink, metric.ns + metric.name, metric)];
          case LatLon(_, _) => pushed := pushed + [Pushed(sink, metric.ns + metric.name, metric)];
        }
        log := log + [Received(call, sink, metric)];
        assert Entries(call, sink, bundle[..count + 1])[..count] == Entries(call, sink, bundle[..count]);
        count := count + 1;
      }
      assert bundle[..count] == bundle;
    }

    /** stream_.Read: the call waits for the next message. */
    method Read(tag: nat, c: Call)
      modifies this
      ensures S() == Continue(old(S()), tag, c)
    {
      calls := calls[tag := c];
      tags := tags + multiset{tag};
    }

    method FinishCall(tag: nat, c: Call, ghost reply: Reply)
      modifies this
      ensures S() == Finish(old(S()), tag, c, reply)
    {
      calls := calls[tag := c.(status := FINISH)];
      tags := tags + multiset{tag};
      replies := replies[tag := reply];
      finished := finished + multiset{tag};
    }

    method DeleteCall(tag: nat, c: Call)
      modifies this
      ensures S() == Delete(old(S()), tag, c)
    {
      calls := calls - {tag};
      if c.sink.Some? {
        gauge := gauge[c.sink.value := (if c.sink.value in gauge then gauge[c.sink.value] else 0) - 1];
      }
      deleted := deleted + multiset{tag};
    }

    /** put_metrics2_call_data::process_state */
    method ProcessUnaryCall(tag: nat, c: Call, e: Event)
      modifies this
      ensures S() == ProcessUnary(old(S()), tag, c, e)
    {
      match c.status {
        case START =>
          NewCall(c.method_);
          openings := openings[tag := e.sink];
          if e.sink.None? {
            FinishCall(tag, c, Unauthenticated);
            return;
          }
          var count := PushMetrics(tag, e.sink.value, e.bundle);
          FinishCall(tag, c.(msgCount := c.msgCount + count), Count(c.msgCount + count));
        case READING_FAILED =>
          FinishCall(tag, c, Count(0));
        case _ =>
          DeleteCall(tag, c);
      }
    }

    /** put_metrics_call_data::process_state */
    method ProcessStreamingCall(tag: nat, c: Call, e: Event)
      requires c.status == READING ==> c.sink.Some?
      modifies this
      ensures S() == ProcessStreaming(old(S()), tag, c, e)
    {
      hide Entries, PushesOf, Continue, Finish, Delete, Spawn;
      match c.status {
        case START =>
          NewCall(c.method_);
          openings := openings[tag := e.sink];
          if e.sink.None? {
            FinishCall(tag, c, Unauthenticated);
            return;
          }
          gauge := gauge[e.sink.value := (if e.sink.value in gauge then gauge[e.sink.value] else 0) + 1];
          Read(tag, c.(status := READING, sink := e.sink));
        case READING =>
          var count := PushMetrics(tag, c.sink.value, e.bundle);
          Read(tag, c.(msgCount := c.msgCount + count));
        case READING_FAILED =>
          FinishCall(tag, c, Count(c.msgCount));
        case _ =>
          DeleteCall(tag, c);
      }
    }

    /** The loop of HandleRpcs over the completions that gRPC delivers. */
    method HandleRpcs(events: seq<Event>)
      requires S() == Initial(kinds)
      modifies this
      ensures S() == Run(kinds, events)
    {
      for i := 0 to |events|
        invariant S() == Run(kinds, events[..i])
      {
        RunInv(kinds, events[..i]);
        assert events[..i + 1][..i] == events[..i];
        Next(events[i]);
      }
      assert events[..|events|] == events;
    }

    method Next(e: Event)
      requires Inv(kinds, S())
      modifies this
      ensures S() == Handle(kinds, old(S()), e)
    {
      hide Inv, Handle, ProcessUnary, ProcessStreaming;
      if e.tag !in tags || e.tag !in calls {
        NotHandled(kinds, S(), e);
        return;
      }
      Handled(kinds, S(), e);
      var c := calls[e.tag];
      if !e.ok && c.status == READING {
        c := c.(status := READING_FAILED);
      }
      tags := tags - multiset{e.tag};
      if kinds[c.method_] == Streaming {
        ProcessStreamingCall(e.tag, c, e);
      } else {
        ProcessUnaryCall(e.tag, c, e);
      }
    }
  }
}
