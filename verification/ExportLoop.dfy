/** The sending loop of the exporter (_thread in libraries/bb_monitor_client_utils/prometheus_sink2.cpp): a state
    machine with one step for each operation on the shared queues and each post, in any interleaving with producers,
    with the caller of process(), and with the request to exit; and the object whose loops those are. */
module ExportLoop {
  import opened Labels
  import opened RemoteWrite
  import opened Wrappers

  type Message = Option<AvroMetric>

  /** How a post ends: accepted, no answer in time, or refused. */
  datatype Post = Ok | Timeout | Error

  datatype Config = Config(batchSize: nat, toDouble: LongToDouble)

  datatype Phase = Idle | Filling | Posting | Draining

  /** A batch that is done with: the age limit it was built under, its messages, and how its posts ended. */
  datatype Batch = Batch(minTs: int, messages: seq<Message>, posts: seq<Post>)

  datatype State = State(
    queue: seq<Message>,
    inBatch: seq<Message>,
    request: seq<TimeSeries>,
    minTs: int,
    posts: seq<Post>,        // the posts of the batch so far
    pending: seq<Message>,
    exit: bool,              // the thread has been told to exit
    phase: Phase,
    // history
    pushed: seq<Message>,
    deleted: seq<Message>,
    done: seq<Batch>)

  datatype Event =
    | Push(m: Message)
    | Delete
    | Exit
    | LoopHead(minTs: int)
    | Fetch
    | Attempt(post: Post)
    | Drain

  const INITIAL := State([], [], [], 0, [], [], false, Idle, [], [], [])

  function SeriesIf(c: Config, minTs: int, m: Message): seq<TimeSeries>
  {
    if Exported(c.toDouble, minTs, m) then [SeriesOf(c.toDouble, m.value)] else []
  }

  /** Nothing more is posted: the batch will be moved to the messages to be deleted. */
  function Finished(s: State): State
  {
    s.(phase := Draining, done := s.done + [Batch(s.minTs, s.inBatch, s.posts)])
  }

  /** An event that the phase does not allow changes nothing. */
  function Step(c: Config, s: State, e: Event): State
  {
    match e
    case Push(m) => s.(queue := s.queue + [m], pushed := s.pushed + [m])
    case Delete =>
      if s.pending == [] then s else s.(pending := s.pending[1..], deleted := s.deleted + [s.pending[0]])
    case Exit => s.(exit := true)
    case LoopHead(minTs) =>
      if s.phase != Idle || s.exit || s.queue == [] then s
      else s.(phase := Filling, minTs := minTs, request := [], posts := [])
    case Fetch =>
      if s.phase != Filling then s
      else if s.queue != [] && |s.inBatch| < c.batchSize then
        var m := s.queue[0];
        s.(queue := s.queue[1..], inBatch := s.inBatch + [m], request := s.request + SeriesIf(c, s.minTs, m))
      else if s.request != [] then s.(phase := Posting)
      else Finished(s)
    case Attempt(post) =>
      if s.phase != Posting then s
      else if s.exit then Finished(s)
      else
        var s' := s.(posts := s.posts + [post]);
        if post == Timeout then s' else Finished(s')
    case Drain =>
      if s.phase != Draining then s
      else if s.inBatch == [] then s.(phase := Idle)
      else s.(pending := s.pending + [s.inBatch[0]], inBatch := s.inBatch[1..])
  }

  /** The state after a run: any sequence of events whatever. */
  function Run(c: Config, run: seq<Event>): State
  {
    if run == [] then INITIAL else Step(c, Run(c, run[..|run| - 1]), run[|run| - 1])
  }

  lemma RunAppend(c: Config, run: seq<Event>, e: Event)
    ensures Run(c, run + [e]) == Step(c, Run(c, run), e)
  {
    assert (run + [e])[..|run|] == run;
  }

  // ----- invariants

  /** All messages, in the order they were handled or will be. */
  function Line(s: State): seq<Message> { s.deleted + s.pending + s.inBatch + s.queue }

  function Messages(done: seq<Batch>): seq<Message>
  {
    if done == [] then [] else Messages(done[..|done| - 1]) + done[|done| - 1].messages
  }

  /** The server has given an answer, or refused. */
  predicate Answered(posts: seq<Post>) { posts != [] && posts[|posts| - 1] != Timeout }

  function RequestOf(c: Config, b: Batch): seq<TimeSeries> { Export(c.toDouble, b.minTs, b.messages) }

  /** The same request is posted until it is answered or the thread has to exit; an empty request is not posted. */
  predicate Settled(c: Config, exit: bool, b: Batch)
  {
    && |b.messages| <= c.batchSize
    && (forall i :: 0 <= i < |b.posts| - 1 ==> b.posts[i] == Timeout)
    && if RequestOf(c, b) == [] then b.posts == [] else Answered(b.posts) || exit
  }

  ghost predicate AllSettled(c: Config, exit: bool, done: seq<Batch>)
  {
    forall i :: 0 <= i < |done| ==> Settled(c, exit, done[i])
  }

  /** The request is the export of the batch so far, and has had no answer yet. */
  predicate Building(c: Config, s: State)
  {
    && s.request == Export(c.toDouble, s.minTs, s.inBatch) && |s.inBatch| <= c.batchSize
    && forall i :: 0 <= i < |s.posts| ==> s.posts[i] == Timeout
  }

  ghost predicate PhaseInv(c: Config, s: State)
  {
    match s.phase
    case Idle => s.inBatch == []
    case Filling => Building(c, s) && s.posts == []
    case Posting => Building(c, s) && s.request != []
    case Draining => true
  }

  ghost predicate Inv(c: Config, s: State)
  {
    && Line(s) == s.pushed
    && Messages(s.done) == s.deleted + s.pending + (if s.phase == Draining then s.inBatch else [])
    && AllSettled(c, s.exit, s.done) && PhaseInv(c, s)
  }

  lemma ExportAppend(c: Config, minTs: int, batch: seq<Message>, m: Message)
    ensures Export(c.toDouble, minTs, batch + [m]) == Export(c.toDouble, minTs, batch) + SeriesIf(c, minTs, m)
  {
    assert (batch + [m])[..|batch|] == batch;
    hide SeriesOf, Exported;
  }

  lemma NothingExported(c: Config)
    ensures forall minTs :: Export(c.toDouble, minTs, []) == []
  {}

  lemma OneMoreDone(c: Config, exit: bool, done: seq<Batch>, b: Batch)
    requires AllSettled(c, exit, done) && Settled(c, exit, b)
    ensures AllSettled(c, exit, done + [b]) && Messages(done + [b]) == Messages(done) + b.messages
  {
    assert (done + [b])[..|done|] == done;
    hide Settled;
  }

  lemma FinishedInv(c: Config, s: State)
    requires Inv(c, s) && (s.phase == Filling || s.phase == Posting)
    requires Settled(c, s.exit, Batch(s.minTs, s.inBatch, s.posts))
    ensures Inv(c, Finished(s))
  {
    hide Settled, AllSettled;
    OneMoreDone(c, s.exit, s.done, Batch(s.minTs, s.inBatch, s.posts));
  }

  lemma StepFetch(c: Config, s: State)
    requires Inv(c, s)
    ensures Inv(c, Step(c, s, Fetch))
  {
    hide Export, AllSettled;
    if s.phase == Filling {
      if s.queue != [] && |s.inBatch| < c.batchSize {
        ExportAppend(c, s.minTs, s.inBatch, s.queue[0]);
        hide SeriesIf;
        assert s.deleted + s.pending + (s.inBatch + [s.queue[0]]) + s.queue[1..] == Line(s);
      } else if s.request == [] {
        FinishedInv(c, s);
      }
    }
  }

  lemma StepAttempt(c: Config, s: State, post: Post)
    requires Inv(c, s)
    ensures Inv(c, Step(c, s, Attempt(post)))
  {
    hide Export, AllSettled;
    if s.phase == Posting {
      if s.exit {
        FinishedInv(c, s);
      } else if post != Timeout {
        AttemptFinishes(c, s, post);
      }
    }
  }

  lemma AttemptFinishes(c: Config, s: State, post: Post)
    requires Inv(c, s) && s.phase == Posting && post != Timeout
    ensures Inv(c, Finished(s.(posts := s.posts + [post])))
  {
    hide Export;
    OneMoreDone(c, s.exit, s.done, Batch(s.minTs, s.inBatch, s.posts + [post]));
  }

  lemma StepOther(c: Config, s: State, e: Event)
    requires Inv(c, s) && !e.Fetch? && !e.Attempt?
    ensures Inv(c, Step(c, s, e))
  {
    hide Export, SeriesIf, Messages;
    NothingExported(c);
    match e
    case Delete =>
      if s.pending != [] {
        assert s.deleted + [s.pending[0]] + s.pending[1..] == s.deleted + s.pending;
      }
    case Drain =>
      if s.phase == Draining && s.inBatch != [] {
        assert s.pending + [s.inBatch[0]] + s.inBatch[1..] == s.pending + s.inBatch;
        assert s.deleted + (s.pending + [s.inBatch[0]]) + s.inBatch[1..] == s.deleted + s.pending + s.inBatch;
      }
    case _ =>
  }

  lemma {:induction false} RunInv(c: Config, run: seq<Event>)
    ensures Inv(c, Run(c, run))
  {
    if run != [] {
      hide Inv, Step;
      var s, e := Run(c, run[..|run| - 1]), run[|run| - 1];
      RunInv(c, run[..|run| - 1]);
      match e {
        case Fetch => StepFetch(c, s);
        case Attempt(post) => StepAttempt(c, s, post);
        case _ => StepOther(c, s, e);
      }
    }
  }

  // ----- what holds over every run

  /** At every point of every run the messages are handled in push order, and none is lost or doubled. */
  lemma HandledInOrder(c: Config, run: seq<Event>)
    ensures var s := Run(c, run); s.deleted + s.pending + s.inBatch + s.queue == s.pushed
  {
    RunInv(c, run);
  }

  /** The handled messages are the batches done with, one after the other. Each batch was posted as one request, the
      same after each timeout, until it was answered or the thread was told to exit; a batch with nothing to export
      was not posted. */
  lemma BatchesSettled(c: Config, run: seq<Event>)
    ensures
      var s := Run(c, run);
      && Messages(s.done) == s.deleted + s.pending + (if s.phase == Draining then s.inBatch else [])
      && forall i :: 0 <= i < |s.done| ==>
           var b := s.done[i];
           var n := |b.posts|;
           && |b.messages| <= c.batchSize
           && (forall j :: 0 <= j < n - 1 ==> b.posts[j] == Timeout)
           && if Export(c.toDouble, b.minTs, b.messages) == [] then n == 0
              else s.exit || (n > 0 && (b.posts[n - 1] == Ok || b.posts[n - 1] == Error))
  {
    DoneAreSettled(c, run);
    hide Run, Export;
    var s := Run(c, run);
    assert forall i :: 0 <= i < |s.done| ==> Settled(c, s.exit, s.done[i]);
  }

  lemma DoneAreSettled(c: Config, run: seq<Event>)
    ensures
      var s := Run(c, run);
      && Messages(s.done) == s.deleted + s.pending + (if s.phase == Draining then s.inBatch else [])
      && forall i :: 0 <= i < |s.done| ==> Settled(c, s.exit, s.done[i])
  {
    RunInv(c, run);
    hide Run, Settled;
  }

  lemma {:induction false} InSomeBatch(done: seq<Batch>, m: Message)
    requires m in Messages(done)
    ensures exists b :: b in done && m in b.messages
  {
    var n := |done| - 1;
    if m in done[n].messages {
      assert done[n] in done;
    } else {
      InSomeBatch(done[..n], m);
      var b :| b in done[..n] && m in b.messages;
      assert b in done;
    }
  }

  lemma {:induction false} SeriesInExport(c: Config, minTs: int, batch: seq<Message>, m: Message)
    requires m in batch && Exported(c.toDouble, minTs, m)
    ensures SeriesOf(c.toDouble, m.value) in Export(c.toDouble, minTs, batch)
  {
    var n := |batch| - 1;
    hide SeriesOf, Exported;
    if batch[n] != m {
      assert m in batch[..n];
      SeriesInExport(c, minTs, batch[..n], m);
    }
  }

  /** The message is in a batch done with; if it qualified, its series was in a request that was answered, or the
      thread was told to exit. */
  ghost predicate WasPosted(c: Config, exit: bool, done: seq<Batch>, m: Message)
  {
    exists b :: b in done && m in b.messages &&
      (Exported(c.toDouble, b.minTs, m) ==>
        SeriesOf(c.toDouble, m.value) in RequestOf(c, b) && (Answered(b.posts) || exit))
  }

  lemma HandledWasPosted(c: Config, run: seq<Event>, m: Message)
    requires var s := Run(c, run); m in s.deleted + s.pending
    ensures var s := Run(c, run); WasPosted(c, s.exit, s.done, m)
  {
    hide Run, SeriesOf, Exported;
    DoneAreSettled(c, run);
    var s := Run(c, run);
    InSomeBatch(s.done, m);
    var b :| b in s.done && m in b.messages;
    if Exported(c.toDouble, b.minTs, m) {
      SeriesInExport(c, b.minTs, b.messages, m);
    }
    hide Export;
    assert Settled(c, s.exit, b);
  }

  /** Not every answer is an acceptance: a request that the server refuses is dropped with its batch. */
  lemma RefusedIsDropped(c: Config, m: AvroMetric)
    requires c.batchSize > 0 && Exported(c.toDouble, 0, Some(m))
    ensures
      var s := Run(c, [] + [Push(Some(m))] + [LoopHead(0)] + [Fetch] + [Fetch] + [Attempt(Error)] + [Drain]);
      s.pending == [Some(m)] && s.done == [Batch(0, [Some(m)], [Error])] && s.queue == []
  {
    assert Run(c, []) == INITIAL;
    OneRefused(c, m);
    hide Run, Step;
    var run1 := [] + [Push(Some(m))];
    var run2 := run1 + [LoopHead(0)];
    var run3 := run2 + [Fetch];
    var run4 := run3 + [Fetch];
    RunAppend(c, [], Push(Some(m)));
    RunAppend(c, run1, LoopHead(0));
    RunAppend(c, run2, Fetch);
    RunAppend(c, run3, Fetch);
    RunAppend(c, run4, Attempt(Error));
    RunAppend(c, run4 + [Attempt(Error)], Drain);
  }

  lemma OneRefused(c: Config, m: AvroMetric)
    requires c.batchSize > 0 && Exported(c.toDouble, 0, Some(m))
    ensures
      var s1 := INITIAL.(queue := [Some(m)], pushed := [Some(m)]);
      var s2 := s1.(phase := Filling);
      var s3 := s2.(queue := [], inBatch := [Some(m)], request := [SeriesOf(c.toDouble, m)]);
      var s4 := s3.(phase := Posting);
      var s5 := s4.(phase := Draining, posts := [Error], done := [Batch(0, [Some(m)], [Error])]);
      && Step(c, INITIAL, Push(Some(m))) == s1 && Step(c, s1, LoopHead(0)) == s2 && Step(c, s2, Fetch) == s3
      && Step(c, s3, Fetch) == s4 && Step(c, s4, Attempt(Error)) == s5
      && Step(c, s5, Drain) == s5.(inBatch := [], pending := [Some(m)])
  {
    assert [] + SeriesIf(c, 0, Some(m)) == [SeriesOf(c.toDouble, m)];
    hide SeriesOf, Exported;
    var batch: seq<Message> := [Some(m)];
    assert [] + [Some(m)] == batch && batch[1..] == [] && [] + [batch[0]] == batch;
    assert [] + [Error] == [Error] && [] + [Batch(0, batch, [Error])] == [Batch(0, batch, [Error])];
  }

  lemma IdleIsEmpty(c: Config, run: seq<Event>)
    ensures Run(c, run).phase == Idle ==> Run(c, run).inBatch == []
  {
    RunInv(c, run);
  }

  lemma LastSettled(c: Config, run: seq<Event>)
    ensures var s := Run(c, run); s.done != [] ==> Settled(c, s.exit, s.done[|s.done| - 1])
  {
    hide Run, Settled;
    DoneAreSettled(c, run);
  }

  lemma TakeFirst(taken: seq<Message>, queue: seq<Message>)
    requires queue != []
    ensures (taken + [queue[0]]) + queue[1..] == taken + queue
  {}

  lemma GrowBehind(all: seq<Message>, taken: seq<Message>, queue: seq<Message>, more: seq<Message>)
    requires all <= taken + queue && queue <= more
    ensures all <= taken + more
  {}

  // ----- the sink object

  class Sink {
    const config: Config
    const maxAge: int
    // shared between the threads
    var queue: seq<Message>
    var pending: seq<Message>
    var exit: bool
    // local to the sending thread
    var inBatch: seq<Message>
    var request: seq<TimeSeries>
    // the producers: messages still to come
    var arrivals: nat

    ghost var run: seq<Event>

    ghost function State(): State
      reads this
    {
      Run(config, run)
    }

    ghost predicate Valid()
      reads this
    {
      var s := State();
      && s.queue == queue && s.pending == pending && s.exit == exit && s.inBatch == inBatch && s.request == request
    }

    constructor (config: Config, maxAge: int, arrivals: nat)
      ensures Valid() && State() == INITIAL
      ensures this.config == config && this.maxAge == maxAge && this.arrivals == arrivals
    {
      this.config, this.maxAge, this.arrivals := config, maxAge, arrivals;
      queue, pending, exit, inBatch, request := [], [], false, [], [];
      run := [];
    }

    ghost method Log(e: Event)
      modifies `run
      ensures run == old(run) + [e] && State() == Step(config, old(State()), e)
    {
      RunAppend(config, run, e);
      run := run + [e];
    }

    /** process(): drop the handled messages and count them. */
    method Process() returns (sz: nat)
      requires Valid()
      modifies this
      ensures Valid() && pending == [] && sz == |old(pending)| && queue == old(queue)
      ensures State().deleted == old(State().deleted) + old(pending)
    {
      hide Run;
      sz := 0;
      while pending != []
        invariant Valid() && sz + |pending| == |old(pending)| && pending == old(pending)[sz..] && queue == old(queue)
        invariant State().deleted == old(State().deleted) + old(pending)[..sz]
        decreases |pending|
      {
        pending := pending[1..];
        sz := sz + 1;
        Log(Delete);
      }
    }

    method Eof() returns (eof: bool)
      requires Valid()
      ensures eof <==> State().queue == [] && State().pending == []
    {
      eof := |queue| == 0 && |pending| == 0;
    }

    /** The messages handled so far, in order, whether process() has dropped them yet or not. */
    ghost function Handled(): seq<Message>
      reads this
    {
      State().deleted + pending
    }

    /** The other threads leave alone what the sending thread works on. */
    ghost predicate SameWork(s: State)
      reads this
    {
      && State().phase == s.phase && State().done == s.done && State().minTs == s.minTs && State().posts == s.posts
      && State().inBatch == s.inBatch && State().request == s.request
    }

    /** Any number of producers push, the caller of process() deletes, and the thread is told to exit, at this point. */
    method Interfere()
      requires Valid()
      modifies this
      ensures Valid() && SameWork(old(State())) && Handled() == old(Handled())
      ensures old(queue) <= queue && arrivals + |queue| == old(arrivals) + |old(queue)| && (old(exit) ==> exit)
    {
      hide Run;
      var steps: int := *;
      while steps > 0
        invariant Valid() && SameWork(old(State())) && Handled() == old(Handled())
        invariant old(queue) <= queue && arrivals + |queue| == old(arrivals) + |old(queue)| && (old(exit) ==> exit)
      {
        var who: int := *;
        var m: Message := *;
        if who == 0 && arrivals > 0 {
          queue := queue + [m];
          arrivals := arrivals - 1;
          Log(Push(m));
        } else if who == 1 && pending != [] {
          pending := pending[1..];
          Log(Delete);
        } else if who == 2 {
          exit := true;
          Log(Exit);
        }
        steps := steps - 1;
      }
    }

    method Perform() returns (post: Post) { post := *; }

    /** One pass through the loop of _thread, which starts when the clock says now: the front of the queue becomes one
        batch, which is settled. With an age limit, only what is younger than that is exported. */
    method Iteration(now: int)
      requires Valid() && State().phase == Idle
      modifies this
      ensures Valid() && State().phase == Idle
      ensures old(exit) || old(queue) == [] ==> State() == old(State())
      ensures !old(exit) && old(queue) != [] ==>
        && |State().done| == |old(State().done)| + 1
        && var b := State().done[|old(State().done)|];
           && Settled(config, exit, b) && Handled() == old(Handled()) + b.messages
           && b.minTs == (if maxAge > 0 then now - maxAge else 0)
           && old(queue) <= b.messages + queue && (|b.messages| < config.batchSize ==> old(queue) <= b.messages)
    {
      hide Run, Settled;
      IdleIsEmpty(config, run);
      if exit || queue == [] {
        return;
      }
      var minTs := 0;
      if maxAge > 0 {
        minTs := now - maxAge;
      }
      request := [];
      Log(LoopHead(minTs));
      Fill(minTs);
      if |request| > 0 {
        PostAll();
      }
      Settle();
      LastSettled(config, run);
    }

    /** The body of the batch loop: the series of a message that qualifies. */
    method AddSeries(minTs: int, msg: Message)
      modifies `request
      ensures request == old(request) + SeriesIf(config, minTs, msg)
      ensures
        var number :=
          if msg == None || msg.value.timestamp <= minTs then None
          else match msg.value.value
            case Long(l) => Some(config.toDouble(l))
            case Dbl(Finite(x)) => Some(x)
            case _ => None;
        if number == None then request == old(request)
        else
          var m := msg.value;
          var name := Label("__name__", if m.ns == "" then m.name else m.ns + "_" + m.name);
          request == old(request) + [TimeSeries([name] + m.labels, [Sample(m.timestamp, Finite(number.value))])]
    {
      if msg.Some? {
        var m := msg.value;
        if m.timestamp <= minTs {
          return;
        }
        var number := NaN;
        match m.value {
          case Null => number := NaN;
          case Long(l) => number := Finite(config.toDouble(l));
          case Dbl(d) => number := d;
          case Position =>
        }
        if number.Finite? {
          var labels := SeriesLabels(m);
          request := request + [TimeSeries(labels, [Sample(m.timestamp, number)])];
        }
      }
    }

    /** Build the batch and its request from the front of the queue. */
    method Fill(minTs: int)
      requires Valid() && State().phase == Filling && State().minTs == minTs && inBatch == []
      modifies this
      ensures Valid() && Handled() == old(Handled()) && State().minTs == minTs
      ensures old(queue) <= inBatch + queue && (queue == [] || |inBatch| >= config.batchSize)
      ensures if request != [] then State().phase == Posting && State().done == old(State().done)
        else State().phase == Draining && State().done == old(State().done) + [Batch(minTs, inBatch, State().posts)]
    {
      hide Run, SeriesIf;
      while queue != [] && |inBatch| < config.batchSize
        invariant Valid() && State().phase == Filling && State().minTs == minTs && Handled() == old(Handled())
        invariant State().done == old(State().done) && old(queue) <= inBatch + queue
        decreases arrivals + |queue|
      {
        var msg := queue[0];
        ghost var before, all := inBatch, queue;
        queue, inBatch := queue[1..], inBatch + [msg];
        AddSeries(minTs, msg);
        Log(Fetch);
        TakeFirst(before, all);
        ghost var left := queue;
        Interfere();
        GrowBehind(old(queue), inBatch, left, queue);
      }
      Log(Fetch);
    }

    /** Post the request until it is answered or the thread has to exit. The network is taken to answer after finitely
        many timeouts. */
    method PostAll()
      requires Valid() && State().phase == Posting
      modifies this
      ensures Valid() && State().phase == Draining && Handled() == old(Handled()) && inBatch == old(inBatch)
      ensures old(queue) <= queue && State().minTs == old(State().minTs)
      ensures State().done == old(State().done) + [Batch(State().minTs, inBatch, State().posts)]
    {
      hide Run;
      var patience: nat := *;
      while !exit
        invariant Valid() && State().phase == Posting && Handled() == old(Handled()) && inBatch == old(inBatch)
        invariant old(queue) <= queue && State().minTs == old(State().minTs) && State().done == old(State().done)
        decreases patience
      {
        var post := Perform();
        if patience == 0 && post == Timeout {
          post := Error;
        }
        Log(Attempt(post));
        if post != Timeout {
          return;
        }
        patience := patience - 1;
        Interfere();
      }
      Log(Attempt(Ok));
    }

    /** Move the batch to the messages to be deleted, in order. */
    method Settle()
      requires Valid() && State().phase == Draining
      modifies this
      ensures Valid() && State().phase == Idle && inBatch == []
      ensures Handled() == old(Handled()) + old(inBatch) && old(queue) <= queue && State().done == old(State().done)
    {
      hide Run;
      while inBatch != []
        invariant Valid() && State().phase == Draining && State().done == old(State().done)
        invariant Handled() + inBatch == old(Handled()) + old(inBatch) && old(queue) <= queue
        decreases |inBatch|
      {
        assert inBatch == [inBatch[0]] + inBatch[1..];
        pending, inBatch := pending + [inBatch[0]], inBatch[1..];
        Log(Drain);
        Interfere();
      }
      Log(Drain);
    }

    /** _thread(), for as many passes as the sink lives. */
    method Thread(passes: nat)
      requires Valid() && State().phase == Idle
      modifies this
      ensures Valid() && State().phase == Idle
      ensures Handled() + queue == State().pushed
    {
      hide Run;
      for k := 0 to passes
        invariant Valid() && State().phase == Idle
      {
        Interfere();
        var now: int := *;
        Iteration(now);
      }
      HandledInOrder(config, run);
      IdleIsEmpty(config, run);
      assert Handled() + [] == Handled();
    }
  }
}
