/** bb_metric_sink with its loops as they stand in
    libraries/bb_monitor_client_utils/bb_metric_sink.cpp. Between any two operations on the shared queues
    the other threads may act (Interfere). The ghost field run records every atomic operation, and Valid()
    says that the fields are the state Delivery.Run reaches: what Delivery proves of every run holds here. */
module MetricSink {
  import opened Delivery

  lemma FetchTakes(maxQueue: int, s: State)
    requires s.phase == Filling && s.queue != [] && |s.bundle| < BATCH_SIZE
    ensures var m := s.queue[0];
      Step(maxQueue, s, Fetch) == s.(queue := s.queue[1..], inRpc := s.inRpc + [m],
                                     bundle := if m.isNull then s.bundle else s.bundle + [m])
  {
    assert s.bundle + [] == s.bundle;
  }

  lemma FetchEnds(maxQueue: int, s: State)
    requires s.phase == Filling && (s.queue == [] || |s.bundle| >= BATCH_SIZE)
    ensures Step(maxQueue, s, Fetch) == s.(phase := if s.bundle != [] then Calling else Idle)
  {}

  lemma TakenInOrder(taken: seq<Message>, start: nat, queue: seq<Message>)
    requires start <= |taken| && queue != []
    ensures (taken + [queue[0]])[start..] + queue[1..] == taken[start..] + queue
  {}

  lemma GrowsBehind(all: seq<Message>, taken: seq<Message>, queue: seq<Message>, more: seq<Message>)
    requires all <= taken + queue && queue <= more
    ensures all <= taken + more
  {}

  lemma Behind(front: seq<Message>, left: seq<Message>, queue: seq<Message>)
    requires front + left <= queue
    ensures |front| <= |queue| && front <= queue && left <= queue[|front|..]
  {
    assert front == (front + left)[..|front|] && left == (front + left)[|front|..];
    assert queue == front + left + queue[|front + left|..];
  }

  /** What a pass hears from outside: the clock at the loop head, when it looks whether to drop messages, when it
      has found that it is time to, and after a failed call; and whether the call succeeds. */
  datatype World = World(head: int, purge: int, spaced: int, failed: int, ok: bool)

  /** Between two states at the loop head, no call was made. */
  ghost predicate NoCall(s: State, s': State)
  {
    && s'.failed == s.failed && s'.delivered == s.delivered && s'.deleted + s'.pending == s.deleted + s.pending
    && s'.nextRetryAt == s.nextRetryAt && s'.inRpc == s.inRpc
  }

  /** Between two states at the loop head, a batch was taken from the front of the queue, up to the moment the queue
      was empty or 5000 values were found, and one call was made if there was a value. A call that succeeds hands over
      the whole batch; one that fails puts it back last message first, to be retried after a minute. */
  ghost predicate CallIfValues(s: State, world: World, batch: seq<Message>, s': State)
  {
    && s.inRpc <= batch && s'.bundle == NonNull(batch) && |s'.bundle| <= 5000 && s'.purged == s.purged
    && var taken := batch[|s.inRpc|..];
    && (|s'.bundle| < 5000 ==> s.queue <= taken)
    && if s'.bundle == [] then NoCall(s.(nextRetryAt := 0, inRpc := batch), s')
       else if world.ok then
         && s'.failed == s.failed && s'.delivered == s.delivered + [s'.bundle] && s'.nextRetryAt == 0
         && s'.deleted + s'.pending == s.deleted + s.pending + batch
         && s'.inRpc == [] && s.queue <= taken + s'.queue
       else
         && s'.failed == s.failed + [batch] && s'.delivered == s.delivered && s'.nextRetryAt == world.failed + 60000
         && s'.deleted + s'.pending == s.deleted + s.pending
         && s'.inRpc == [] && Reverse(batch) <= s'.queue && s.queue <= taken + s'.queue[|batch|..]
  }

  lemma BundleIsValues(maxQueue: int, run: seq<Event>)
    requires Run(maxQueue, run).phase == Filling
    ensures Run(maxQueue, run).bundle == NonNull(Run(maxQueue, run).inRpc)
    ensures |Run(maxQueue, run).bundle| <= BATCH_SIZE
  {
    RunInv(maxQueue, run);
  }

  class Sink {
    const maxQueue: int
    // shared between the threads
    var queue: seq<Message>
    var pending: seq<Message>
    // local to the sending thread
    var inRpc: seq<Message>
    var bundle: seq<Message>
    var nextRetryAt: int
    var nextPurgeAt: int
    // the producers: events pushed so far, and events still to come
    var pushes: nat
    var arrivals: nat

    ghost var run: seq<Event>

    ghost function State(): State
      reads this
    {
      Run(maxQueue, run)
    }

    ghost predicate Valid()
      reads this
    {
      var s := State();
      && s.queue == queue && s.pending == pending && s.inRpc == inRpc && s.bundle == bundle
      && s.nextRetryAt == nextRetryAt && s.nextPurgeAt == nextPurgeAt && |s.pushed| == pushes
    }

    constructor (maxQueue: int, arrivals: nat)
      ensures Valid() && State() == INITIAL
      ensures this.maxQueue == maxQueue && this.arrivals == arrivals
    {
      this.maxQueue, this.arrivals := maxQueue, arrivals;
      queue, pending, inRpc, bundle := [], [], [], [];
      nextRetryAt, nextPurgeAt, pushes := 0, 0, 0;
      run := [];
    }

    ghost method Log(e: Event)
      modifies `run
      ensures run == old(run) + [e] && State() == Step(maxQueue, old(State()), e)
    {
      RunAppend(maxQueue, run, e);
      run := run + [e];
    }

    method PushBack(isNull: bool)
      requires Valid()
      modifies this
      ensures Valid() && run == old(run) + [Push(isNull)] && State() == Step(maxQueue, old(State()), Push(isNull))
      ensures arrivals == old(arrivals)
    {
      queue := queue + [Message(pushes, isNull)];
      pushes := pushes + 1;
      Log(Push(isNull));
    }

    method PopPending()
      requires Valid() && pending != []
      modifies this
      ensures Valid() && run == old(run) + [Delete] && State() == Step(maxQueue, old(State()), Delete)
      ensures arrivals == old(arrivals)
    {
      pending := pending[1..];
      Log(Delete);
    }

    /** process(): drop the handled events and count them. */
    method Process() returns (sz: nat)
      requires Valid()
      modifies this
      ensures Valid() && pending == [] && sz == |old(pending)|
      ensures State().deleted == old(State().deleted) + old(pending)
      ensures State().phase == old(State().phase) && queue == old(queue) && inRpc == old(inRpc)
      ensures old(run) <= run
    {
      sz := 0;
      while pending != []
        invariant Valid() && sz + |pending| == |old(pending)| && pending == old(pending)[sz..]
        invariant State().deleted == old(State().deleted) + old(pending)[..sz]
        invariant State().phase == old(State().phase) && queue == old(queue) && inRpc == old(inRpc)
        invariant old(run) <= run
        decreases |pending|
      {
        PopPending();
        sz := sz + 1;
      }
    }

    method Eof() returns (eof: bool)
      requires Valid()
      ensures eof <==> queue == [] && pending == []
    {
      eof := |queue| == 0 && |pending| == 0;
    }

    /** The messages handled so far, in order, whether process() has dropped them yet or not. */
    ghost function Handled(): seq<Message>
      reads this
    {
      State().deleted + pending
    }

    /** No call was answered and nothing was dropped since the given state. */
    ghost predicate SameHistory(s: State)
      reads this
    {
      State().purged == s.purged && State().failed == s.failed && State().delivered == s.delivered
    }

    /** Any number of producers push, and the caller of process() deletes, at this point. */
    method Interfere()
      requires Valid()
      modifies this
      ensures Valid() && old(run) <= run && State().phase == old(State().phase)
      ensures inRpc == old(inRpc) && bundle == old(bundle) && old(queue) <= queue
      ensures nextRetryAt == old(nextRetryAt) && nextPurgeAt == old(nextPurgeAt)
      ensures arrivals + |queue| == old(arrivals) + |old(queue)|
      ensures Handled() == old(Handled()) && SameHistory(old(State()))
    {
      var steps: int := *;
      while steps > 0
        invariant Valid() && old(run) <= run && State().phase == old(State().phase)
        invariant inRpc == old(inRpc) && bundle == old(bundle) && old(queue) <= queue
        invariant nextRetryAt == old(nextRetryAt) && nextPurgeAt == old(nextPurgeAt)
        invariant arrivals + |queue| == old(arrivals) + |old(queue)|
        invariant Handled() == old(Handled()) && SameHistory(old(State()))
      {
        var producer: bool, isNull: bool := *, *;
        if producer && arrivals > 0 {
          PushBack(isNull);
          arrivals := arrivals - 1;
        } else if pending != [] {
          PopPending();
        }
        steps := steps - 1;
      }
    }

    /** One pass through the loop of _thread: it calls exactly when the clock allows it and there is a value to send,
        and what becomes of the batch is decided by the reply alone. */
    method Iteration(world: World) returns (ghost batch: seq<Message>)
      requires Valid() && State().phase == Idle
      modifies this
      ensures Valid() && State().phase == Idle && old(run) <= run
      ensures
        if old(queue) == [] || (0 < old(nextRetryAt) && world.head < old(nextRetryAt))
        then NoCall(old(State()), State())
        else CallIfValues(old(State()), world, batch, State())
    {
      batch := [];
      if queue == [] {
        return;
      }
      if nextRetryAt > 0 && world.head < nextRetryAt {
        WaitForRetry(world);
        return;
      }
      batch := FillAndSend(world);
    }

    method FillAndSend(world: World) returns (ghost batch: seq<Message>)
      requires Valid() && State().phase == Idle && queue != [] && (nextRetryAt <= 0 || nextRetryAt <= world.head)
      modifies this
      ensures Valid() && State().phase == Idle && old(run) <= run
      ensures CallIfValues(old(State()), world, batch, State())
    {
      hide Run, Reverse, NonNull;
      nextRetryAt := 0;
      bundle := [];
      Log(LoopHead(world.head, 0, 0));
      Fill();
      batch := inRpc;
      ghost var taken, left := batch[|old(inRpc)|..], queue;
      assert left == [] ==> taken + left == taken;
      if |bundle| > 0 {
        Send(world);
        Behind(if world.ok then [] else Reverse(batch), left, queue);
        GrowsBehind(old(queue), taken, left, if world.ok then queue else queue[|batch|..]);
      }
    }

    /** A pass while a failed call is waited out: when it is time to look, the oldest messages above the limit are
        dropped, and nothing else is touched. */
    method WaitForRetry(world: World)
      requires Valid() && State().phase == Idle && queue != [] && nextRetryAt > 0 && world.head < nextRetryAt
      modifies this
      ensures Valid() && State().phase == Idle && old(run) <= run && |run| > |old(run)|
      ensures nextPurgeAt == if world.purge > old(nextPurgeAt) then world.spaced + 10000 else old(nextPurgeAt)
      ensures
        var excess := if 0 <= maxQueue < |old(queue)| then |old(queue)| - maxQueue else 0;
        var dropped := if world.purge > old(nextPurgeAt) then excess else 0;
        State().purged == old(State().purged) + old(queue)[..dropped] && old(queue)[dropped..] <= queue
      ensures NoCall(old(State()), State())
    {
      hide Run;
      ghost var before := State();
      if world.purge > nextPurgeAt {
        nextPurgeAt := world.spaced + 10000;
        if Exceeds(|queue|, maxQueue) {
          DropOldest(before, world);
          return;
        }
      }
      Log(LoopHead(world.head, world.purge, world.spaced));
    }

    /** Drop the oldest messages, down to the limit. */
    method DropOldest(ghost before: State, ghost world: World)
      requires before == State() && Exceeds(|queue|, maxQueue) && before.phase == Idle
      requires Step(maxQueue, before, LoopHead(world.head, world.purge, world.spaced))
            == before.(nextPurgeAt := nextPurgeAt, phase := Purging(|queue| - maxQueue))
      requires before.queue == queue && before.pending == pending && before.inRpc == inRpc && before.bundle == bundle
      requires before.nextRetryAt == nextRetryAt && |before.pushed| == pushes
      modifies this
      ensures Valid() && State().phase == Idle && old(run) <= run && |run| > |old(run)|
      ensures NoCall(before, State()) && nextPurgeAt == old(nextPurgeAt)
      ensures State().purged == before.purged + old(queue)[..|old(queue)| - maxQueue]
      ensures old(queue)[|old(queue)| - maxQueue..] <= queue
    {
      hide Run;
      var itemsToPurge := |queue| - maxQueue;
      Log(LoopHead(world.head, world.purge, world.spaced));
      var i := 0;
      while i != itemsToPurge
        invariant 0 <= i <= itemsToPurge <= i + |queue|
        invariant Valid() && State().phase == Purging(itemsToPurge - i)
        invariant old(run) <= run && |run| > |old(run)|
        invariant NoCall(before, State()) && nextPurgeAt == old(nextPurgeAt)
        invariant State().purged == before.purged + old(queue)[..i]
        invariant old(queue)[i..] <= queue
      {
        assert queue[0] == old(queue)[i];
        queue := queue[1..];
        Log(Purge);
        i := i + 1;
        Interfere();
      }
      Log(Purge);
    }

    /** Take one message from the front of the queue. */
    method FetchOne()
      requires Valid() && State().phase == Filling && queue != [] && |bundle| < BATCH_SIZE
      modifies this
      ensures Valid() && State().phase == Filling && run == old(run) + [Fetch] && arrivals == old(arrivals)
      ensures inRpc == old(inRpc) + [old(queue)[0]] && queue == old(queue)[1..] && nextRetryAt == old(nextRetryAt)
      ensures |bundle| <= BATCH_SIZE
      ensures Handled() == old(Handled()) && SameHistory(old(State()))
    {
      hide Run, Step;
      FetchTakes(maxQueue, State());
      var msg := queue[0];
      queue := queue[1..];
      inRpc := inRpc + [msg];
      if !msg.isNull {
        bundle := bundle + [msg];
      }
      Log(Fetch);
    }

    /** Take messages from the front of the queue until it is empty or the bundle is full. */
    method Fill()
      requires Valid() && State().phase == Filling
      modifies this
      ensures Valid() && State().phase == (if bundle == [] then Idle else Calling) && old(run) <= run
      ensures (queue == [] || |bundle| == 5000) && |bundle| <= 5000
      ensures bundle == NonNull(inRpc) && nextRetryAt == old(nextRetryAt)
      ensures old(inRpc) <= inRpc && old(queue) <= inRpc[|old(inRpc)|..] + queue
      ensures Handled() == old(Handled()) && SameHistory(old(State()))
    {
      hide Run, Step;
      BundleIsValues(maxQueue, run);
      while queue != [] && |bundle| < BATCH_SIZE
        invariant Valid() && State().phase == Filling && old(run) <= run && nextRetryAt == old(nextRetryAt)
        invariant |bundle| <= BATCH_SIZE
        invariant old(inRpc) <= inRpc && old(queue) <= inRpc[|old(inRpc)|..] + queue
        invariant Handled() == old(Handled()) && SameHistory(old(State()))
        decreases arrivals + |queue|
      {
        TakenInOrder(inRpc, |old(inRpc)|, queue);
        FetchOne();
        ghost var left := queue;
        Interfere();
        GrowsBehind(old(queue), inRpc[|old(inRpc)|..], left, queue);
      }
      BundleIsValues(maxQueue, run);
      FetchEnds(maxQueue, State());
      Log(Fetch);
    }

    /** One call: either the whole of in_rpc is handled, or it goes back to the front of the queue, last message
        first. */
    method Send(world: World)
      requires Valid() && State().phase == Calling
      modifies this
      ensures Valid() && State().phase == Idle && old(run) <= run && inRpc == [] && bundle == old(bundle)
      ensures State().delivered == old(State().delivered) + if world.ok then [old(bundle)] else []
      ensures State().failed == old(State().failed) + if world.ok then [] else [old(inRpc)]
      ensures Handled() == old(Handled()) + if world.ok then old(inRpc) else []
      ensures (if world.ok then [] else Reverse(old(inRpc))) + old(queue) <= queue
      ensures nextRetryAt == if world.ok then old(nextRetryAt) else world.failed + 60000
      ensures State().purged == old(State().purged)
    {
      hide Run;
      Interfere();
      Log(Reply(world.ok));
      if !world.ok {
        GiveBack();
        nextRetryAt := world.failed + 60000;
        Log(Return(world.failed));
      }
      Settle();
    }

    /** Push the failed batch back to the front of the queue one by one, which turns it round. */
    method GiveBack()
      requires Valid() && State().phase == Returning
      modifies this
      ensures Valid() && State().phase == Returning && inRpc == [] && old(run) <= run
      ensures Reverse(old(inRpc)) + old(queue) <= queue && bundle == old(bundle)
      ensures Handled() == old(Handled()) && SameHistory(old(State()))
    {
      hide Run, Reverse;
      while inRpc != []
        invariant Valid() && State().phase == Returning && old(run) <= run
        invariant Reverse(old(inRpc)) + old(queue) <= Reverse(inRpc) + queue && bundle == old(bundle)
        invariant Handled() == old(Handled()) && SameHistory(old(State()))
        decreases |inRpc|
      {
        TurnOne([], inRpc, queue);
        queue := [inRpc[0]] + queue;
        inRpc := inRpc[1..];
        Log(Return(0));
        Interfere();
      }
    }

    /** Move what is in in_rpc to the messages to be deleted, in order. */
    method Settle()
      requires Valid() && State().phase == Draining
      modifies this
      ensures Valid() && State().phase == Idle && old(run) <= run && inRpc == []
      ensures Handled() == old(Handled()) + old(inRpc) && old(queue) <= queue
      ensures SameHistory(old(State())) && nextRetryAt == old(nextRetryAt) && bundle == old(bundle)
    {
      hide Run;
      while inRpc != []
        invariant Valid() && State().phase == Draining && old(run) <= run
        invariant Handled() + inRpc == old(Handled()) + old(inRpc) && old(queue) <= queue
        invariant SameHistory(old(State())) && nextRetryAt == old(nextRetryAt) && bundle == old(bundle)
        decreases |inRpc|
      {
        assert inRpc == [inRpc[0]] + inRpc[1..];
        pending := pending + [inRpc[0]];
        inRpc := inRpc[1..];
        Log(Drain);
        Interfere();
      }
      Log(Drain);
    }

    /** _thread(), for as many passes as the sink lives. */
    method Thread(passes: nat)
      requires Valid() && State().phase == Idle
      modifies this
      ensures Valid() && State().phase == Idle && old(run) <= run
      ensures forall m :: m in inRpc ==> m.isNull
    {
      for k := 0 to passes
        invariant Valid() && State().phase == Idle && old(run) <= run
      {
        Interfere();
        var world: World := *;
        ghost var batch := Iteration(world);
      }
      OnlyNullsLeftOver(maxQueue, run);
    }
  }
}
