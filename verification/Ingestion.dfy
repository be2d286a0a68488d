/** The metrics path of the ingestion server put together: the authorization history, the sink factory, the call
    objects and one Kafka hand-off for each sink, in any interleaving. */
module Ingestion {
  import A = Authorizer
  import K = KafkaSink
  import R = RpcLifecycle
  import opened Wrappers

  /** What does not change: the registered methods, the codecs with the text of a metric before encoding, and the
      number of partitions. */
  datatype Config = Config(kinds: seq<R.Kind>, codec: K.Codec, avro: R.Metric -> string, count: nat)

  datatype System = System(
    history: seq<A.Record>,      // the authorization records read so far
    topics: seq<string>,         // the physical topic of each sink, in the order they were created
    rpc: R.State,
    sinks: seq<K.State>,
    granted: map<nat, string>)   // history: the physical topic that each call's credentials were authorized for

  datatype Event =
    | Update(r: A.Record)
    | Completion(tag: nat, ok: bool, apiKey: string, secret: string, bundle: seq<R.Metric>)
    | Kafka(k: nat, e: K.Event)

  function Initial(c: Config): System { System([], [], R.Initial(c.kinds), [], map[]) }

  function IndexOf(topics: seq<string>, topic: string): (k: nat)
    requires topic in topics
    ensures k < |topics| && topics[k] == topic
  {
    if topics[0] == topic then 0 else 1 + IndexOf(topics[1..], topic)
  }

  /** get_metrics_sink: the sinks after the lookup, and the sink found or created. */
  function SinkFor(s: System, apiKey: string, secret: string): (seq<string>, Option<nat>)
  {
    var (topic, tenant) := A.Authorize(A.Load(s.history), A.Request(A.Write, apiKey, secret, "metrics"));
    if tenant == 0 then (s.topics, None)
    else if topic in s.topics then (s.topics, Some(IndexOf(s.topics, topic)))
    else (s.topics + [topic], Some(|s.topics|))
  }

  /** The records that are put into the queue of sink k. */
  function RecordsFor(c: Config, pushed: seq<R.Pushed>, k: nat): seq<K.Record>
  {
    if pushed == [] then []
    else
      var p := pushed[|pushed| - 1];
      RecordsFor(c, pushed[..|pushed| - 1], k) + if p.sink == k then [K.Record(p.key, Some(c.avro(p.metric)))] else []
  }

  function PushAll(c: Config, s: K.State, rs: seq<K.Record>): K.State
    requires c.count > 0
  {
    if rs == [] then s
    else K.Step(c.codec, c.count, PushAll(c, s, rs[..|rs| - 1]), K.Push(rs[|rs| - 1]))
  }

  /** Whether the completion lets a new call begin, which asks for its sink. */
  predicate Begins(s: System, tag: nat)
  {
    tag in s.rpc.tags && tag in s.rpc.calls && s.rpc.calls[tag].status == R.START
  }

  function Complete(c: Config, s: System, e: Event): System
    requires c.count > 0 && e.Completion?
  {
    var (topics, sink) := if Begins(s, e.tag) then SinkFor(s, e.apiKey, e.secret) else (s.topics, None);
    var rpc := R.Handle(c.kinds, s.rpc, R.Event(e.tag, e.ok, sink, e.bundle));
    var pushed := if |s.rpc.pushed| <= |rpc.pushed| then rpc.pushed[|s.rpc.pushed|..] else [];
    var sinks := s.sinks + if |topics| > |s.topics| then [K.INITIAL] else [];
    s.(topics := topics, rpc := rpc,
       sinks := seq(|sinks|, k requires 0 <= k < |sinks| => PushAll(c, sinks[k], RecordsFor(c, pushed, k))),
       granted := if sink.Some? && sink.value < |topics| then s.granted[e.tag := topics[sink.value]] else s.granted)
  }

  /** A failed delivery report ends the process. */
  predicate Dead(s: System) { exists k :: 0 <= k < |s.sinks| && s.sinks[k].aborted }

  function Step(c: Config, s: System, e: Event): System
    requires c.count > 0
  {
    if Dead(s) then s
    else match e
      case Update(r) => s.(history := s.history + [r])
      case Completion(_, _, _, _, _) => Complete(c, s, e)
      case Kafka(k, ke) =>
        if k >= |s.sinks| || ke.Push? then s
        else s.(sinks := s.sinks[k := K.Step(c.codec, c.count, s.sinks[k], ke)])
  }

  function Run(c: Config, run: seq<Event>): System
    requires c.count > 0
  {
    if run == [] then Initial(c) else Step(c, Run(c, run[..|run| - 1]), run[|run| - 1])
  }

  lemma RunAppend(c: Config, run: seq<Event>, e: Event)
    requires c.count > 0
    ensures Run(c, run + [e]) == Step(c, Run(c, run), e)
  {
    hide Step;
    assert (run + [e])[..|run|] == run;
  }

  // ----- records

  lemma {:induction false} RecordsForAppend(c: Config, a: seq<R.Pushed>, b: seq<R.Pushed>, k: nat)
    ensures RecordsFor(c, a + b, k) == RecordsFor(c, a, k) + RecordsFor(c, b, k)
  {
    if b == [] {
      assert a + b == a;
    } else {
      var n := |b| - 1;
      RecordsForAppend(c, a, b[..n], k);
      assert (a + b)[..|a + b| - 1] == a + b[..n];
    }
  }

  /** The measured metrics of a log that go to sink k under a key. */
  function Measured(c: Config, log: seq<R.Received>, k: nat, key: string): seq<K.Record>
  {
    if log == [] then []
    else
      var r := log[|log| - 1];
      Measured(c, log[..|log| - 1], k, key)
        + if r.sink == k && !r.metric.sample.Unset? && r.metric.ns + r.metric.name == key
          then [K.Record(key, Some(c.avro(r.metric)))] else []
  }

  lemma {:induction false} MeasuredArePushed(c: Config, log: seq<R.Received>, k: nat, key: string)
    ensures K.KeyRecords(RecordsFor(c, R.PushesOf(log), k), key) == Measured(c, log, k, key)
  {
    if log != [] {
      var n := |log| - 1;
      var before, r := log[..n], log[n];
      MeasuredArePushed(c, before, k, key);
      var more := if r.metric.sample.Unset? then [] else [R.Pushed(r.sink, r.metric.ns + r.metric.name, r.metric)];
      assert R.PushesOf(log) == R.PushesOf(before) + more;
      hide R.PushesOf;
      RecordsForAppend(c, R.PushesOf(before), more, k);
      K.KeyRecordsAppend(RecordsFor(c, R.PushesOf(before), k), RecordsFor(c, more, k), key);
      OneRecord(c, more, k, key);
    }
  }

  lemma OneRecord(c: Config, more: seq<R.Pushed>, k: nat, key: string)
    requires |more| <= 1
    ensures K.KeyRecords(RecordsFor(c, more, k), key)
         == if more != [] && more[0].sink == k && more[0].key == key
            then [K.Record(key, Some(c.avro(more[0].metric)))] else []
  {
    if more != [] {
      assert more[..0] == [];
      var r := K.Record(more[0].key, Some(c.avro(more[0].metric)));
      assert RecordsFor(c, more, k) == if more[0].sink == k then [r] else [];
      assert [r][..0] == [];
    }
  }

  // ----- invariants

  /** Each sink has been given exactly what the calls pushed to it. */
  ghost predicate SinksFed(c: Config, s: System)
    requires c.count > 0
  {
    && |s.sinks| == |s.topics|
    && forall k :: 0 <= k < |s.sinks| ==>
         K.Inv(c.codec, c.count, s.sinks[k]) && s.sinks[k].pushed == RecordsFor(c, s.rpc.pushed, k)
  }

  /** No two sinks serve one topic, and a call's sink serves the topic its credentials were authorized for. */
  ghost predicate TopicsGranted(s: System)
  {
    && (forall j, k :: 0 <= j < k < |s.topics| ==> s.topics[j] != s.topics[k])
    && forall id, k :: id in s.rpc.openings && s.rpc.openings[id] == Some(k) ==>
         k < |s.topics| && id in s.granted && s.granted[id] == s.topics[k]
  }

  ghost predicate Inv(c: Config, s: System)
    requires c.count > 0
  {
    R.Inv(c.kinds, s.rpc) && SinksFed(c, s) && TopicsGranted(s)
  }

  lemma {:induction false} PushAllInv(c: Config, s: K.State, rs: seq<K.Record>)
    requires c.count > 0 && K.Inv(c.codec, c.count, s) && !s.aborted
    ensures var s' := PushAll(c, s, rs);
      K.Inv(c.codec, c.count, s') && !s'.aborted && s'.pushed == s.pushed + rs
  {
    hide K.Inv;
    if rs != [] {
      var n := |rs| - 1;
      PushAllInv(c, s, rs[..n]);
      K.InvStep(c.codec, c.count, PushAll(c, s, rs[..n]), K.Push(rs[n]));
      assert s.pushed + rs[..n] + [rs[n]] == s.pushed + rs;
    }
  }

  lemma NothingPushed(c: Config, s: K.State)
    requires c.count > 0
    ensures PushAll(c, s, []) == s
  {}

  lemma FreshSink(c: Config)
    requires c.count > 0
    ensures K.Inv(c.codec, c.count, K.INITIAL) && !K.INITIAL.aborted && K.INITIAL.pushed == []
  {
    K.RunInv(c.codec, c.count, []);
    assert K.Run(c.codec, c.count, []) == K.INITIAL;
    hide K.Inv;
  }

  /** Nothing has been pushed to a sink that no call has opened. */
  lemma {:induction false} NoRecords(c: Config, log: seq<R.Received>, k: nat)
    requires forall r :: r in log ==> r.sink != k
    ensures RecordsFor(c, R.PushesOf(log), k) == []
  {
    if log != [] {
      var n := |log| - 1;
      var before, r := log[..n], log[n];
      NoRecords(c, before, k);
      assert r in log;
      var more := if r.metric.sample.Unset? then [] else [R.Pushed(r.sink, r.metric.ns + r.metric.name, r.metric)];
      assert R.PushesOf(log) == R.PushesOf(before) + more;
      hide R.PushesOf;
      RecordsForAppend(c, R.PushesOf(before), more, k);
      assert more != [] ==> more[..0] == [];
    }
  }

  lemma NoRecordsYet(c: Config, s: System, k: nat)
    requires c.count > 0 && Inv(c, s) && k >= |s.topics|
    ensures RecordsFor(c, s.rpc.pushed, k) == []
  {
    LogGranted(c, s);
    hide Inv;
    NoRecords(c, s.rpc.log, k);
  }

  /** What a call received is in the log of the sink that serves the topic its credentials were authorized for. */
  lemma LogGranted(c: Config, s: System)
    requires c.count > 0 && Inv(c, s)
    ensures s.rpc.pushed == R.PushesOf(s.rpc.log)
    ensures forall r :: r in s.rpc.log ==>
      r.sink < |s.topics| && r.call in s.granted && s.granted[r.call] == s.topics[r.sink]
  {
    hide SinksFed, R.Sound, R.FinishedOnce, R.GaugesExact, R.CallsCounted, R.RepliesExact, R.OpenedCalls,
         R.OpenedReplies, R.PushesOf;
    forall r | r in s.rpc.log
      ensures r.sink < |s.topics| && r.call in s.granted && s.granted[r.call] == s.topics[r.sink]
    {
      assert s.rpc.openings[r.call] == Some(r.sink);
    }
  }

  lemma HandleExtends(kinds: seq<R.Kind>, s: R.State, e: R.Event)
    requires R.Inv(kinds, s)
    ensures
      var s' := R.Handle(kinds, s, e);
      && R.Inv(kinds, s') && s.pushed <= s'.pushed
      && s'.openings == if e.tag in s.tags && e.tag in s.calls && s.calls[e.tag].status == R.START
                        then s.openings[e.tag := e.sink] else s.openings
  {
    hide R.Handle, R.Sound, R.FinishedOnce, R.GaugesExact, R.CountsExact, R.OpeningsExact, R.PushesOf;
    R.InvStep(kinds, s, e);
    if R.Handles(s, e) {
      R.HandleLog(kinds, s, e);
      R.HandleOpened(kinds, s, e);
    } else {
      R.NotHandled(kinds, s, e);
    }
  }

  lemma CompleteFeeds(c: Config, s: System, e: Event)
    requires c.count > 0 && e.Completion? && Inv(c, s) && !Dead(s)
    ensures SinksFed(c, Complete(c, s, e))
  {
    hide Inv, K.Inv, Complete, RecordsFor, PushAll, Dead;
    var s' := Complete(c, s, e);
    var more := CompleteSinks(c, s, e);
    forall k | 0 <= k < |s'.sinks|
      ensures K.Inv(c.codec, c.count, s'.sinks[k]) && s'.sinks[k].pushed == RecordsFor(c, s'.rpc.pushed, k)
    {
      SinkFed(c, s, more, k);
    }
  }

  /** What one completion pushes, and that every sink gets its part of it. */
  lemma CompleteSinks(c: Config, s: System, e: Event) returns (more: seq<R.Pushed>)
    requires c.count > 0 && e.Completion? && Inv(c, s)
    ensures
      var s' := Complete(c, s, e);
      && s'.rpc.pushed == s.rpc.pushed + more && |s'.sinks| == |s'.topics|
      && forall k :: 0 <= k < |s'.sinks| ==>
           s'.sinks[k] == PushAll(c, if k < |s.sinks| then s.sinks[k] else K.INITIAL, RecordsFor(c, more, k))
  {
    hide R.Inv, R.Handle, K.Inv, TopicsGranted, SinkFor, Begins, RecordsFor, PushAll;
    var s' := Complete(c, s, e);
    var (topics, sink) := if Begins(s, e.tag) then SinkFor(s, e.apiKey, e.secret) else (s.topics, None);
    SinkForAdds(s, e.apiKey, e.secret);
    HandleExtends(c.kinds, s.rpc, R.Event(e.tag, e.ok, sink, e.bundle));
    more := s'.rpc.pushed[|s.rpc.pushed|..];
  }

  /** A sink, old or new, after the pushes of one event. */
  lemma SinkFed(c: Config, s: System, more: seq<R.Pushed>, k: nat)
    requires c.count > 0 && Inv(c, s) && !Dead(s)
    ensures
      var sink := PushAll(c, if k < |s.sinks| then s.sinks[k] else K.INITIAL, RecordsFor(c, more, k));
      K.Inv(c.codec, c.count, sink) && sink.pushed == RecordsFor(c, s.rpc.pushed + more, k)
  {
    hide R.Inv, K.Inv, TopicsGranted, RecordsFor, PushAll;
    RecordsForAppend(c, s.rpc.pushed, more, k);
    if k < |s.sinks| {
      assert !s.sinks[k].aborted;
      PushAllInv(c, s.sinks[k], RecordsFor(c, more, k));
    } else {
      FreshSink(c);
      NoRecordsYet(c, s, k);
      PushAllInv(c, K.INITIAL, RecordsFor(c, more, k));
    }
  }

  lemma SinkForAdds(s: System, apiKey: string, secret: string)
    ensures
      var (topics, sink) := SinkFor(s, apiKey, secret);
      var topic := A.Authorize(A.Load(s.history), A.Request(A.Write, apiKey, secret, "metrics")).0;
      && s.topics <= topics && |topics| <= |s.topics| + 1
      && (sink.Some? ==> sink.value < |topics| && topics[sink.value] == topic)
      && (|topics| > |s.topics| ==> topic !in s.topics && topics == s.topics + [topic])
  {
    hide A.Authorize, A.Load;
  }

  lemma CompleteGrants(c: Config, s: System, e: Event)
    requires c.count > 0 && e.Completion? && Inv(c, s)
    ensures TopicsGranted(Complete(c, s, e))
  {
    hide R.Inv, R.Handle, SinksFed, SinkFor, RecordsFor, PushAll, A.Authorize, A.Load;
    var s' := Complete(c, s, e);
    var (topics, sink) := if Begins(s, e.tag) then SinkFor(s, e.apiKey, e.secret) else (s.topics, None);
    SinkForAdds(s, e.apiKey, e.secret);
    HandleExtends(c.kinds, s.rpc, R.Event(e.tag, e.ok, sink, e.bundle));
    assert s'.topics == topics;
    forall id, k | id in s'.rpc.openings && s'.rpc.openings[id] == Some(k)
      ensures k < |s'.topics| && id in s'.granted && s'.granted[id] == s'.topics[k]
    {
      if !(Begins(s, e.tag) && id == e.tag) {
        assert s.rpc.openings[id] == Some(k);
      }
    }
  }

  lemma KafkaFeeds(c: Config, s: System, k: nat, e: K.Event)
    requires c.count > 0 && Inv(c, s) && k < |s.sinks| && !e.Push?
    ensures SinksFed(c, s.(sinks := s.sinks[k := K.Step(c.codec, c.count, s.sinks[k], e)]))
  {
    hide K.Inv, K.Step;
    K.InvStep(c.codec, c.count, s.sinks[k], e);
    SamePushed(c, s.sinks[k], e);
  }

  lemma SamePushed(c: Config, s: K.State, e: K.Event)
    requires c.count > 0 && !e.Push?
    ensures K.Step(c.codec, c.count, s, e).pushed == s.pushed
  {}

  lemma CompleteRpc(c: Config, s: System, e: Event)
    requires c.count > 0 && e.Completion? && R.Inv(c.kinds, s.rpc)
    ensures R.Inv(c.kinds, Complete(c, s, e).rpc)
  {
    hide R.Inv, R.Handle, SinkFor;
    var (topics, sink) := if Begins(s, e.tag) then SinkFor(s, e.apiKey, e.secret) else (s.topics, None);
    HandleExtends(c.kinds, s.rpc, R.Event(e.tag, e.ok, sink, e.bundle));
  }

  lemma InvStep(c: Config, s: System, e: Event)
    requires c.count > 0 && Inv(c, s)
    ensures Inv(c, Step(c, s, e))
  {
    hide Inv, Complete, K.Step, Dead;
    match e
    case Update(r) => StepUpdate(c, s, r);
    case Completion(tag, ok, apiKey, secret, bundle) =>
      if !Dead(s) {
        StepComplete(c, s, e);
      }
    case Kafka(k, ke) =>
      if k < |s.sinks| && !ke.Push? {
        StepKafka(c, s, k, ke);
      }
  }

  lemma StepUpdate(c: Config, s: System, r: A.Record)
    requires c.count > 0 && Inv(c, s)
    ensures Inv(c, s.(history := s.history + [r]))
  {
    hide R.Inv, K.Inv, RecordsFor;
  }

  lemma StepComplete(c: Config, s: System, e: Event)
    requires c.count > 0 && e.Completion? && Inv(c, s) && !Dead(s)
    ensures Inv(c, Complete(c, s, e))
  {
    hide R.Inv, SinksFed, TopicsGranted, Complete, Dead;
    CompleteFeeds(c, s, e);
    CompleteGrants(c, s, e);
    CompleteRpc(c, s, e);
  }

  lemma StepKafka(c: Config, s: System, k: nat, e: K.Event)
    requires c.count > 0 && Inv(c, s) && k < |s.sinks| && !e.Push?
    ensures Inv(c, s.(sinks := s.sinks[k := K.Step(c.codec, c.count, s.sinks[k], e)]))
  {
    hide R.Inv, SinksFed, K.Step;
    KafkaFeeds(c, s, k, e);
  }

  lemma {:induction false} RunInv(c: Config, run: seq<Event>)
    requires c.count > 0
    ensures Inv(c, Run(c, run))
  {
    if run == [] {
      R.InvInitial(c.kinds);
      hide R.Inv;
    } else {
      hide Inv, Step;
      RunInv(c, run[..|run| - 1]);
      InvStep(c, Run(c, run[..|run| - 1]), run[|run| - 1]);
    }
  }

  // ----- what holds over every run

  /** The measured metrics of a bundle that stand under a key. */
  function MeasuredIn(c: Config, bundle: seq<R.Metric>, key: string): seq<K.Record>
  {
    if bundle == [] then []
    else
      var m := bundle[|bundle| - 1];
      MeasuredIn(c, bundle[..|bundle| - 1], key)
        + if m.sample != R.Unset && m.ns + m.name == key then [K.Record(key, Some(c.avro(m)))] else []
  }

  /** The completion carries a request or a stream message to the call it is for. */
  predicate Carries(c: Config, s: System, e: Event)
  {
    && e.Completion? && !Dead(s) && e.tag in s.rpc.tags && e.tag in s.rpc.calls
    && var call := s.rpc.calls[e.tag];
    && call.method_ < |c.kinds|
    && if call.status == R.START then c.kinds[call.method_] == R.Unary else call.status == R.READING && e.ok
  }

  /** What the clients sent to sink k under a key: the measured metrics of the completions, one after the other, of the
      calls that opened this sink. */
  function SentTo(c: Config, run: seq<Event>, k: nat, key: string): seq<K.Record>
    requires c.count > 0
  {
    if run == [] then []
    else
      var before, e := run[..|run| - 1], run[|run| - 1];
      SentTo(c, before, k, key)
        + if Carries(c, Run(c, before), e) && Opened(Run(c, run), e.tag, k) then MeasuredIn(c, e.bundle, key) else []
  }

  predicate Opened(s: System, call: nat, k: nat) { call in s.rpc.openings && s.rpc.openings[call] == Some(k) }

  lemma {:induction false} MeasuredGrow(c: Config, log: seq<R.Received>, k: nat, key: string, call: nat, sink: nat,
                                        bundle: seq<R.Metric>)
    requires |log| >= |bundle|
    requires forall i :: 0 <= i < |bundle| ==> log[|log| - |bundle| + i] == R.Received(call, sink, bundle[i])
    ensures Measured(c, log, k, key)
         == Measured(c, log[..|log| - |bundle|], k, key) + if sink == k then MeasuredIn(c, bundle, key) else []
  {
    if bundle == [] {
      assert log[..|log|] == log;
    } else {
      var n, m := |log| - 1, |bundle| - 1;
      MeasuredGrow(c, log[..n], k, key, call, sink, bundle[..m]);
      assert log[..n][..n - m] == log[..|log| - |bundle|];
      var r := log[n];
      assert r == R.Received(call, sink, bundle[m]);
      var last := if !r.metric.sample.Unset? && r.metric.ns + r.metric.name == key
                  then [K.Record(key, Some(c.avro(r.metric)))] else [];
      assert Measured(c, log, k, key) == Measured(c, log[..n], k, key) + if sink == k then last else [];
      assert MeasuredIn(c, bundle, key) == MeasuredIn(c, bundle[..m], key) + last;
    }
  }

  lemma CompleteReceives(c: Config, s: System, e: Event, k: nat, key: string)
    requires c.count > 0 && Inv(c, s) && e.Completion? && !Dead(s)
    ensures
      var s' := Complete(c, s, e);
      Measured(c, s'.rpc.log, k, key) == Measured(c, s.rpc.log, k, key)
        + if Carries(c, s, e) && Opened(s', e.tag, k) then MeasuredIn(c, e.bundle, key) else []
  {
    hide R.Inv, R.Handle, SinksFed, TopicsGranted, SinkFor, Measured, MeasuredIn, RecordsFor, PushAll, Dead;
    var (topics, sink) := if Begins(s, e.tag) then SinkFor(s, e.apiKey, e.secret) else (s.topics, None);
    var re := R.Event(e.tag, e.ok, sink, e.bundle);
    HandleExtends(c.kinds, s.rpc, re);
    R.StepReceives(c.kinds, s.rpc, re);
    var log, log' := s.rpc.log, Complete(c, s, e).rpc.log;
    if R.Delivers(c.kinds, s.rpc, re) {
      assert log'[..|log|] == log;
      MeasuredGrow(c, log', k, key, e.tag, Complete(c, s, e).rpc.openings[e.tag].value, e.bundle);
    }
  }

  lemma StepReceives(c: Config, s: System, e: Event, k: nat, key: string)
    requires c.count > 0 && Inv(c, s)
    ensures
      var s' := Step(c, s, e);
      Measured(c, s'.rpc.log, k, key) == Measured(c, s.rpc.log, k, key)
        + if Carries(c, s, e) && Opened(s', e.tag, k) then MeasuredIn(c, e.bundle, key) else []
  {
    hide Inv, Complete, Opened, Measured, MeasuredIn, K.Step, Dead;
    if e.Completion? && !Dead(s) {
      CompleteReceives(c, s, e, k, key);
    }
  }

  /** What the calls received for a sink is what the clients sent to it. */
  lemma {:induction false} MeasuredIsSent(c: Config, run: seq<Event>, k: nat, key: string)
    requires c.count > 0
    ensures Measured(c, Run(c, run).rpc.log, k, key) == SentTo(c, run, k, key)
  {
    hide Step, Inv, Carries, Opened, MeasuredIn;
    if run != [] {
      var before := run[..|run| - 1];
      MeasuredIsSent(c, before, k, key);
      RunInv(c, before);
      StepReceives(c, Run(c, before), run[|run| - 1], k, key);
    }
  }

  /** From the client to the partition: the measured metrics that all clients together sent to a sink under a key are
      in the one partition of that key and, behind it, in the queue, in the order sent. */
  lemma MetricsReachTheirPartition(c: Config, run: seq<Event>, k: nat, key: string)
    requires c.count > 0 && k < |Run(c, run).sinks|
    ensures
      var s := Run(c, run);
      var sink, p := s.sinks[k], K.Partition(c.codec.hash(key), c.count);
      && p < c.count
      && K.KeyRecords(K.LogOf(sink, p), key) + K.KeyRecords(sink.queue, key) == SentTo(c, run, k, key)
      && forall q: nat :: q != p ==> K.KeyRecords(K.LogOf(sink, q), key) == []
  {
    RunInv(c, run);
    hide Run, R.Inv, K.Inv, TopicsGranted, SentTo;
    var s := Run(c, run);
    LogGranted(c, s);
    MeasuredIsSent(c, run, k, key);
    K.KeyInItsPartition(c.codec, c.count, s.sinks[k], key);
    MeasuredArePushed(c, s.rpc.log, k, key);
  }

  /** What one more event does to the parts: an authorization record is read, a sink goes on by itself, and a completion
      goes to the call objects; after a failed delivery report nothing happens any more. */
  lemma EventReachesItsPart(c: Config, run: seq<Event>, e: Event)
    requires c.count > 0
    ensures
      var s, s' := Run(c, run), Run(c, run + [e]);
      if exists k :: 0 <= k < |s.sinks| && s.sinks[k].aborted then s' == s
      else if e.Update? then s' == s.(history := s.history + [e.r])
      else if e.Completion? then
        && s'.history == s.history
        && exists sink :: s'.rpc == R.Handle(c.kinds, s.rpc, R.Event(e.tag, e.ok, sink, e.bundle))
      else if e.k < |s.sinks| && !e.e.Push? then
        && e.k < |s'.sinks| && s' == s.(sinks := s.sinks[e.k := s'.sinks[e.k]])
        && s'.sinks[e.k] == K.Step(c.codec, c.count, s.sinks[e.k], e.e)
      else s' == s
  {
    RunAppend(c, run, e);
    var s := Run(c, run);
    hide Run, R.Handle, R.Inv, K.Step, K.Inv, PushAll, RecordsFor, SinkFor, TopicsGranted;
    if e.Kafka? && e.k < |s.sinks| {
      assert s.sinks[e.k := K.Step(c.codec, c.count, s.sinks[e.k], e.e)][e.k]
          == K.Step(c.codec, c.count, s.sinks[e.k], e.e);
    }
  }

  /** Whatever a call received went to the sink that serves the topic its credentials were authorized for. */
  lemma EntriesGoWhereGranted(c: Config, run: seq<Event>)
    requires c.count > 0
    ensures var s := Run(c, run);
      forall r :: r in s.rpc.log ==>
        r.sink < |s.topics| && r.call in s.granted && s.granted[r.call] == s.topics[r.sink]
  {
    RunInv(c, run);
    hide Run, Inv;
    LogGranted(c, Run(c, run));
  }

  /** A call that begins is granted the topic that the authorizer answers at that moment, and no sink if it answers
      tenant 0. */
  lemma GrantedByAuthorizer(c: Config, run: seq<Event>, e: Event)
    requires c.count > 0 && e.Completion?
    requires var s := Run(c, run); !Dead(s) && Begins(s, e.tag)
    ensures
      var s, s' := Run(c, run), Run(c, run + [e]);
      var (topic, tenant) := A.Authorize(A.Load(s.history), A.Request(A.Write, e.apiKey, e.secret, "metrics"));
      && e.tag in s'.rpc.openings && (s'.rpc.openings[e.tag] == None <==> tenant == 0)
      && (tenant != 0 ==> e.tag in s'.granted && s'.granted[e.tag] == topic)
  {
    RunAppend(c, run, e);
    RunInv(c, run);
    var s := Run(c, run);
    assert Run(c, run + [e]) == Complete(c, s, e);
    hide Run, R.Inv, R.Handle, SinksFed, TopicsGranted, A.Authorize, A.Load, PushAll, RecordsFor;
    SinkForAdds(s, e.apiKey, e.secret);
    var sink := SinkFor(s, e.apiKey, e.secret).1;
    HandleExtends(c.kinds, s.rpc, R.Event(e.tag, e.ok, sink, e.bundle));
  }
}
