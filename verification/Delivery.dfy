/** The delivery loop of libraries/bb_monitor_client_utils/bb_metric_sink.cpp as a state machine: one
    step for each atomic operation on the shared queues, in any interleaving of the sending thread with
    producers and with the caller of process(). */
module Delivery {

  const BATCH_SIZE: nat := 5000

  /** A pushed event; ids number the events in the order they were pushed. */
  datatype Message = Message(id: nat, isNull: bool)

  /** Where the sending thread is in its loop. */
  datatype Phase =
    | Idle                // at the loop head
    | Purging(left: nat)  // dropping the oldest messages
    | Filling             // taking messages from the queue into in_rpc
    | Calling             // waiting for the RPC
    | Returning           // the RPC failed: pushing in_rpc back to the front of the queue
    | Draining            // moving in_rpc to the messages to be deleted

  datatype State = State(
    queue: seq<Message>,
    inRpc: seq<Message>,
    pending: seq<Message>,
    bundle: seq<Message>,
    nextRetryAt: int,
    nextPurgeAt: int,
    phase: Phase,
    // history
    pushed: seq<Message>,
    deleted: seq<Message>,
    purged: seq<Message>,
    failed: seq<seq<Message>>,     // in_rpc at each failed call
    delivered: seq<seq<Message>>)  // the bundle of each successful call

  datatype Event =
    | Push(isNull: bool)
    | Delete
    | LoopHead(t0: int, t1: int, t2: int)  // successive readings of the clock
    | Purge
    | Fetch
    | Reply(ok: bool)
    | Return(t: int)
    | Drain

  const INITIAL := State([], [], [], [], 0, 0, Idle, [], [], [], [], [])

  function NonNull(ms: seq<Message>): seq<Message>
  {
    if ms == [] then []
    else NonNull(ms[..|ms| - 1]) + if ms[|ms| - 1].isNull then [] else [ms[|ms| - 1]]
  }

  /** The signed limit is compared with an unsigned queue size: a negative limit is never exceeded. */
  predicate Exceeds(size: nat, maxQueue: int) { 0 <= maxQueue < size }

  function AtLoopHead(maxQueue: int, s: State, t0: int, t1: int, t2: int): State
  {
    if s.queue == [] then s
    else if 0 < s.nextRetryAt && t0 < s.nextRetryAt then
      if t1 <= s.nextPurgeAt then s
      else
        var s' := s.(nextPurgeAt := t2 + 10000);
        if Exceeds(|s.queue|, maxQueue) then s'.(phase := Purging(|s.queue| - maxQueue)) else s'
    else s.(nextRetryAt := 0, bundle := [], phase := Filling)
  }

  /** One atomic operation; an event that the phase does not allow changes nothing. */
  function Step(maxQueue: int, s: State, e: Event): State
  {
    match e
    case Push(isNull) =>
      var m := Message(|s.pushed|, isNull);
      s.(queue := s.queue + [m], pushed := s.pushed + [m])
    case Delete =>
      if s.pending == [] then s else s.(pending := s.pending[1..], deleted := s.deleted + [s.pending[0]])
    case LoopHead(t0, t1, t2) =>
      if s.phase != Idle then s else AtLoopHead(maxQueue, s, t0, t1, t2)
    case Purge =>
      if !s.phase.Purging? then s
      else if s.phase.left == 0 || s.queue == [] then s.(phase := Idle)
      else s.(queue := s.queue[1..], purged := s.purged + [s.queue[0]], phase := Purging(s.phase.left - 1))
    case Fetch =>
      if s.phase != Filling then s
      else if s.queue != [] && |s.bundle| < BATCH_SIZE then
        var m := s.queue[0];
        s.(queue := s.queue[1..], inRpc := s.inRpc + [m], bundle := s.bundle + if m.isNull then [] else [m])
      else s.(phase := if s.bundle != [] then Calling else Idle)
    case Reply(ok) =>
      if s.phase != Calling then s
      else if ok then s.(phase := Draining, delivered := s.delivered + [s.bundle])
      else s.(phase := Returning, failed := s.failed + [s.inRpc])
    case Return(t) =>
      if s.phase != Returning then s
      else if s.inRpc == [] then s.(phase := Draining, nextRetryAt := t + 60000)
      else s.(queue := [s.inRpc[0]] + s.queue, inRpc := s.inRpc[1..])
    case Drain =>
      if s.phase != Draining then s
      else if s.inRpc == [] then s.(phase := Idle)
      else s.(pending := s.pending + [s.inRpc[0]], inRpc := s.inRpc[1..])
  }

  /** The state after a run: any sequence of events whatever. */
  function Run(maxQueue: int, run: seq<Event>): State
  {
    if run == [] then INITIAL else Step(maxQueue, Run(maxQueue, run[..|run| - 1]), run[|run| - 1])
  }

  lemma RunAppend(maxQueue: int, run: seq<Event>, e: Event)
    ensures Run(maxQueue, run + [e]) == Step(maxQueue, Run(maxQueue, run), e)
  {
    assert (run + [e])[..|run|] == run;
  }

  // ----- sequences of messages

  function Reverse(ms: seq<Message>): (r: seq<Message>)
    ensures |r| == |ms|
    ensures forall k :: 0 <= k < |ms| ==> r[k] == ms[|ms| - 1 - k]
    ensures multiset(r) == multiset(ms)
  {
    if ms == [] then [] else
      assert ms == [ms[0]] + ms[1..];
      Reverse(ms[1..]) + [ms[0]]
  }

  predicate Distinct(ms: seq<Message>)
  {
    forall i, j :: 0 <= i < j < |ms| ==> ms[i].id != ms[j].id
  }

  /** In how many of the batches both messages are. */
  function Together(batches: seq<seq<Message>>, x: Message, y: Message): nat
  {
    if batches == [] then 0
    else
      var last := batches[|batches| - 1];
      Together(batches[..|batches| - 1], x, y) + if x in last && y in last then 1 else 0
  }

  /** The line the messages stand in, the longest handled first. While a failed batch is being pushed
      back one by one, the rest of it counts as already turned round. */
  function Line(s: State): seq<Message>
  {
    s.deleted + s.pending + (if s.phase == Returning then Reverse(s.inRpc) else s.inRpc) + s.queue
  }

  /** x and y stand in push order exactly if they failed together an even number of times. */
  ghost predicate OrderedByParity(line: seq<Message>, failed: seq<seq<Message>>)
  {
    forall i, j :: 0 <= i < |line| && 0 <= j < |line| && line[i].id < line[j].id ==>
      (i < j <==> Together(failed, line[i], line[j]) % 2 == 0)
  }

  // ----- invariants

  ghost predicate Numbered(pushed: seq<Message>)
  {
    forall i :: 0 <= i < |pushed| ==> pushed[i].id == i
  }

  ghost predicate Handled(delivered: seq<seq<Message>>, m: Message)
  {
    m.isNull || exists b :: b in delivered && m in b
  }

  /** Nothing is lost or duplicated, and the order is the one the failures explain. */
  ghost predicate Accounted(s: State)
  {
    && Numbered(s.pushed)
    && multiset(Line(s) + s.purged) == multiset(s.pushed)
    && (forall b, m :: b in s.failed && m in b ==> m.id < |s.pushed|)
    && OrderedByParity(Line(s), s.failed)
  }

  /** What each phase knows about in_rpc, the bundle and the handled messages. */
  ghost predicate PhaseInv(s: State)
  {
    && (forall m :: m in s.deleted || m in s.pending ==> Handled(s.delivered, m))
    && |s.bundle| <= BATCH_SIZE
    && match s.phase
       case Idle => NonNull(s.inRpc) == []
       case Purging(left) => NonNull(s.inRpc) == [] && left <= |s.queue|
       case Filling => s.bundle == NonNull(s.inRpc)
       case Calling => s.bundle == NonNull(s.inRpc) && s.bundle != []
       case Returning => true
       case Draining => forall m :: m in s.inRpc ==> Handled(s.delivered, m)
  }

  lemma {:induction false} NonNullOf(ms: seq<Message>)
    ensures forall m :: m in NonNull(ms) <==> m in ms && !m.isNull
  {
    if ms != [] {
      NonNullOf(ms[..|ms| - 1]);
      assert ms == ms[..|ms| - 1] + [ms[|ms| - 1]];
    }
  }

  lemma NonNullAppend(ms: seq<Message>, m: Message)
    ensures NonNull(ms + [m]) == NonNull(ms) + if m.isNull then [] else [m]
  {
    assert (ms + [m])[..|ms|] == ms;
  }

  lemma PhaseStep(maxQueue: int, s: State, e: Event)
    requires PhaseInv(s)
    ensures PhaseInv(Step(maxQueue, s, e))
  {
    if e.Reply? && s.phase == Calling {
      PhaseReply(maxQueue, s, e.ok);
    } else if e.Fetch? {
      PhaseFetch(maxQueue, s);
    } else if e.Drain? || e.Delete? {
      PhaseHandled(maxQueue, s, e);
    } else {
      hide Handled, NonNull;
    }
  }

  lemma PhaseFetch(maxQueue: int, s: State)
    requires PhaseInv(s)
    ensures PhaseInv(Step(maxQueue, s, Fetch))
  {
    hide Handled, NonNull;
    if s.queue != [] {
      NonNullAppend(s.inRpc, s.queue[0]);
    }
  }

  lemma PhaseHandled(maxQueue: int, s: State, e: Event)
    requires PhaseInv(s) && (e.Drain? || e.Delete?)
    ensures PhaseInv(Step(maxQueue, s, e))
  {
    NothingNonNull();
    hide Handled, NonNull;
  }

  lemma NothingNonNull()
    ensures NonNull([]) == []
  {}

  lemma PhaseReply(maxQueue: int, s: State, ok: bool)
    requires PhaseInv(s) && s.phase == Calling
    ensures PhaseInv(Step(maxQueue, s, Reply(ok)))
  {
    if ok {
      NonNullOf(s.inRpc);
      HandledMore(s.delivered, s.bundle);
      forall m | m in s.inRpc ensures Handled(s.delivered + [s.bundle], m) {
        assert m.isNull || m in s.bundle;
        hide NonNull;
      }
    }
    hide Handled, NonNull;
  }

  lemma HandledMore(delivered: seq<seq<Message>>, bundle: seq<Message>)
    ensures forall m :: Handled(delivered, m) || m in bundle || m.isNull ==> Handled(delivered + [bundle], m)
  {
    var more := delivered + [bundle];
    forall m | Handled(delivered, m) || m in bundle || m.isNull ensures Handled(more, m) {
      if !m.isNull {
        if m in bundle {
          assert bundle in more;
        } else {
          var b :| b in delivered && m in b;
          assert b in more;
        }
      }
    }
  }

  // ----- the line

  lemma {:induction false} CountOnce(pushed: seq<Message>, m: Message)
    requires Numbered(pushed)
    ensures multiset(pushed)[m] <= 1
    ensures m in pushed ==> m.id < |pushed| && pushed[m.id] == m
  {
    if pushed != [] {
      var n := |pushed| - 1;
      CountOnce(pushed[..n], m);
      assert pushed == pushed[..n] + [pushed[n]];
    }
  }

  lemma DistinctAll(all: seq<Message>, pushed: seq<Message>)
    requires Numbered(pushed) && multiset(all) == multiset(pushed)
    ensures Distinct(all)
    ensures forall m :: m in all ==> m.id < |pushed| && pushed[m.id] == m
  {
    forall m | m in all ensures m.id < |pushed| && pushed[m.id] == m {
      assert m in multiset(all);
      CountOnce(pushed, m);
    }
    forall i, j | 0 <= i < j < |all| ensures all[i].id != all[j].id {
      if all[i].id == all[j].id {
        assert all[i] in all && all[j] in all;
        assert all == all[..i] + [all[i]] + all[i + 1..j] + [all[j]] + all[j + 1..];
        assert multiset(all)[all[i]] >= 2;
        CountOnce(pushed, all[i]);
      }
    }
  }

  lemma DistinctLine(s: State)
    requires Numbered(s.pushed) && multiset(Line(s) + s.purged) == multiset(s.pushed)
    ensures Distinct(Line(s))
    ensures forall m :: m in Line(s) ==> m.id < |s.pushed|
  {
    hide Line;
    var all := Line(s) + s.purged;
    DistinctAll(all, s.pushed);
    assert forall i :: 0 <= i < |Line(s)| ==> all[i] == Line(s)[i];
  }

  lemma {:induction false} NeverTogether(batches: seq<seq<Message>>, x: Message, y: Message)
    requires forall b :: b in batches ==> y !in b
    ensures Together(batches, x, y) == 0
  {
    if batches != [] {
      NeverTogether(batches[..|batches| - 1], x, y);
    }
  }

  lemma TogetherAppend(batches: seq<seq<Message>>, b: seq<Message>, x: Message, y: Message)
    ensures Together(batches + [b], x, y) == Together(batches, x, y) + if x in b && y in b then 1 else 0
  {
    assert (batches + [b])[..|batches|] == batches;
  }

  /** A new message joins at the end of the line. */
  lemma ParityAfterPush(line: seq<Message>, failed: seq<seq<Message>>, m: Message)
    requires OrderedByParity(line, failed)
    requires forall x :: x in line ==> x.id < m.id
    requires forall b, x :: b in failed && x in b ==> x.id < m.id
    ensures OrderedByParity(line + [m], failed)
  {
    forall x ensures Together(failed, x, m) == 0 {
      NeverTogether(failed, x, m);
    }
  }

  /** A purged message leaves the line where it stands. */
  lemma ParityAfterPurge(line: seq<Message>, failed: seq<seq<Message>>, k: nat)
    requires OrderedByParity(line, failed) && k < |line|
    ensures OrderedByParity(line[..k] + line[k + 1..], failed)
  {
    var rest := line[..k] + line[k + 1..];
    forall i, j | 0 <= i < |rest| && 0 <= j < |rest| && rest[i].id < rest[j].id
      ensures i < j <==> Together(failed, rest[i], rest[j]) % 2 == 0
    {
      var i', j' := if i < k then i else i + 1, if j < k then j else j + 1;
      assert rest[i] == line[i'] && rest[j] == line[j'];
    }
  }

  /** A failed batch turns round the part of the line it covers. */
  lemma ParityAfterFailure(before: seq<Message>, batch: seq<Message>, after: seq<Message>, failed: seq<seq<Message>>)
    requires OrderedByParity(before + batch + after, failed) && Distinct(before + batch + after)
    ensures OrderedByParity(before + Reverse(batch) + after, failed + [batch])
  {
    var a, b := |before|, |before| + |batch|;
    var line, turned := before + batch + after, before + Reverse(batch) + after;
    forall i, j | 0 <= i < |line| && 0 <= j < |line| && turned[i].id < turned[j].id
      ensures i < j <==> Together(failed + [batch], turned[i], turned[j]) % 2 == 0
    {
      hide Distinct, Reverse, Together;
      var i' := if a <= i < b then a + b - 1 - i else i;
      var j' := if a <= j < b then a + b - 1 - j else j;
      TurnedAt(before, batch, after, i);
      TurnedAt(before, batch, after, j);
      InBatch(before, batch, after, i');
      InBatch(before, batch, after, j');
      TogetherAppend(failed, batch, turned[i], turned[j]);
    }
  }

  lemma TurnedAt(before: seq<Message>, batch: seq<Message>, after: seq<Message>, i: nat)
    requires i < |before + batch + after|
    ensures
      var a, b := |before|, |before| + |batch|;
      (before + Reverse(batch) + after)[i] == (before + batch + after)[if a <= i < b then a + b - 1 - i else i]
  {}

  lemma InBatch(before: seq<Message>, batch: seq<Message>, after: seq<Message>, i: nat)
    requires i < |before + batch + after| && Distinct(before + batch + after)
    ensures (before + batch + after)[i] in batch <==> |before| <= i < |before| + |batch|
  {
    var line := before + batch + after;
    assert forall k :: 0 <= k < |batch| ==> batch[k] == line[|before| + k];
    if |before| <= i < |before| + |batch| {
      assert line[i] == batch[i - |before|];
    }
  }

  /** What stands before in_rpc in the line. */
  function Front(s: State): seq<Message> { s.deleted + s.pending }

  lemma TurnOne(before: seq<Message>, batch: seq<Message>, after: seq<Message>)
    requires batch != []
    ensures before + Reverse(batch[1..]) + ([batch[0]] + after) == before + Reverse(batch) + after
  {
    assert Reverse(batch) == Reverse(batch[1..]) + [batch[0]];
  }

  /** Moving a message from one queue to the next, or to the front of the queue after a failure,
      leaves the line as it is. */
  lemma LineUnmoved(maxQueue: int, s: State, e: Event)
    requires !e.Push? && !e.Purge? && !(e.Reply? && !e.ok)
    ensures var s' := Step(maxQueue, s, e);
      Line(s') == Line(s) && s'.purged == s.purged && s'.pushed == s.pushed && s'.failed == s.failed
  {
    hide Reverse;
    match e
    case Delete =>
      if s.pending != [] {
        assert s.deleted + [s.pending[0]] + s.pending[1..] == s.deleted + s.pending;
      }
    case Fetch =>
      if s.phase == Filling && s.queue != [] {
        assert Front(s) + (s.inRpc + [s.queue[0]]) + s.queue[1..] == Front(s) + s.inRpc + s.queue;
      }
    case Return(_) =>
      if s.phase == Returning && s.inRpc != [] {
        TurnOne(Front(s), s.inRpc, s.queue);
      }
    case Drain =>
      if s.phase == Draining && s.inRpc != [] {
        assert s.deleted + (s.pending + [s.inRpc[0]]) + s.inRpc[1..] == Front(s) + s.inRpc;
      }
    case _ =>
  }

  lemma AccountedPush(maxQueue: int, s: State, isNull: bool)
    requires Accounted(s)
    ensures Accounted(Step(maxQueue, s, Push(isNull)))
  {
    var s', m := Step(maxQueue, s, Push(isNull)), Message(|s.pushed|, isNull);
    assert Line(s') == Line(s) + [m];
    DistinctLine(s);
    ParityAfterPush(Line(s), s.failed, m);
  }

  lemma AccountedPurge(maxQueue: int, s: State)
    requires Accounted(s) && s.phase.Purging? && s.phase.left > 0 && s.queue != []
    ensures Accounted(Step(maxQueue, s, Purge))
  {
    var s', m, k := Step(maxQueue, s, Purge), s.queue[0], |Front(s) + s.inRpc|;
    assert s.queue == [m] + s.queue[1..];
    var line := Line(s);
    assert line[..k] == Front(s) + s.inRpc && line[k + 1..] == s.queue[1..];
    ParityAfterPurge(line, s.failed, k);
    PurgeMoves(Front(s) + s.inRpc, s.queue, s.purged);
    hide OrderedByParity;
  }

  lemma PurgeMoves(front: seq<Message>, queue: seq<Message>, purged: seq<Message>)
    requires queue != []
    ensures multiset(front + queue[1..] + (purged + [queue[0]])) == multiset(front + queue + purged)
  {
    assert queue == [queue[0]] + queue[1..];
  }

  lemma AccountedFailure(maxQueue: int, s: State)
    requires Accounted(s) && s.phase == Calling
    ensures Accounted(Step(maxQueue, s, Reply(false)))
  {
    DistinctLine(s);
    var s' := Step(maxQueue, s, Reply(false));
    ParityAfterFailure(Front(s), s.inRpc, s.queue, s.failed);
    assert forall m :: m in s.inRpc ==> m in Line(s);
  }

  lemma AccountedStep(maxQueue: int, s: State, e: Event)
    requires Accounted(s)
    ensures Accounted(Step(maxQueue, s, e))
  {
    if e.Push? {
      AccountedPush(maxQueue, s, e.isNull);
    } else if e.Purge? && s.phase.Purging? && s.phase.left > 0 && s.queue != [] {
      AccountedPurge(maxQueue, s);
    } else if e.Reply? && !e.ok && s.phase == Calling {
      AccountedFailure(maxQueue, s);
    } else if !e.Purge? && !(e.Reply? && !e.ok) {
      LineUnmoved(maxQueue, s, e);
    }
  }

  // ----- acknowledgement

  /** An acknowledged message has left the queue for good, so no two successful calls share one. */
  ghost predicate AcknowledgedOnce(s: State)
  {
    && (forall b, m :: b in s.delivered && m in b ==> m in Front(s) || (s.phase == Draining && m in s.inRpc))
    && (forall i, j, m :: 0 <= i < j < |s.delivered| && m in s.delivered[i] ==> m !in s.delivered[j])
  }

  lemma CallingBundle(s: State)
    requires PhaseInv(s) && s.phase == Calling
    ensures s.bundle == NonNull(s.inRpc)
  {}

  lemma AcknowledgedStep(maxQueue: int, s: State, e: Event)
    requires Accounted(s) && PhaseInv(s) && AcknowledgedOnce(s)
    ensures AcknowledgedOnce(Step(maxQueue, s, e))
  {
    hide Accounted, PhaseInv;
    var s' := Step(maxQueue, s, e);
    if e == Reply(true) && s.phase == Calling {
      CallingBundle(s);
      NonNullOf(s.inRpc);
      forall m | m in s.bundle ensures m !in Front(s) {
        if m in Front(s) {
          FrontApart(s, m);
        }
      }
    } else if e == Drain && s.phase == Draining && s.inRpc != [] {
      assert s.inRpc == [s.inRpc[0]] + s.inRpc[1..];
    } else if e == Delete && s.pending != [] {
      assert s.pending == [s.pending[0]] + s.pending[1..];
    }
  }

  /** A message stands in the line only once. */
  lemma FrontApart(s: State, m: Message)
    requires Accounted(s) && s.phase != Returning && m in Front(s)
    ensures m !in s.inRpc && m !in s.queue
  {
    hide OrderedByParity;
    DistinctLine(s);
    var f, line := Front(s), Line(s);
    var k :| 0 <= k < |f| && f[k] == m;
    assert line[k] == m;
    forall j | 0 <= j < |s.inRpc| ensures s.inRpc[j] != m {
      assert line[|f| + j] == s.inRpc[j];
    }
    forall j | 0 <= j < |s.queue| ensures s.queue[j] != m {
      assert line[|f| + |s.inRpc| + j] == s.queue[j];
    }
  }

  /** Messages are dropped only while a failed call is being waited out. */
  ghost predicate PurgeAfterFailure(maxQueue: int, s: State)
  {
    && (s.nextRetryAt > 0 || s.phase == Returning || s.phase.Purging? || s.purged != [] ==> s.failed != [])
    && (maxQueue < 0 ==> s.purged == [] && !s.phase.Purging?)
  }

  lemma PurgeStep(maxQueue: int, s: State, e: Event)
    requires PurgeAfterFailure(maxQueue, s)
    ensures PurgeAfterFailure(maxQueue, Step(maxQueue, s, e))
  {
    match e
    case Purge =>
    case LoopHead(_, _, _) =>
    case Reply(_) =>
    case _ =>
  }

  lemma InitialInv(maxQueue: int)
    ensures Accounted(INITIAL) && PhaseInv(INITIAL) && AcknowledgedOnce(INITIAL) && PurgeAfterFailure(maxQueue, INITIAL)
  {}

  /** Every invariant holds after every run. */
  lemma {:induction false} RunInv(maxQueue: int, run: seq<Event>)
    ensures var s := Run(maxQueue, run);
      Accounted(s) && PhaseInv(s) && AcknowledgedOnce(s) && PurgeAfterFailure(maxQueue, s)
  {
    hide Step, Accounted, PhaseInv, AcknowledgedOnce, PurgeAfterFailure;
    if run == [] {
      InitialInv(maxQueue);
    } else {
      var before, e := run[..|run| - 1], run[|run| - 1];
      var s := Run(maxQueue, before);
      RunInv(maxQueue, before);
      AccountedStep(maxQueue, s, e);
      PhaseStep(maxQueue, s, e);
      AcknowledgedStep(maxQueue, s, e);
      PurgeStep(maxQueue, s, e);
    }
  }

  // ----- when a call is made, and when messages are dropped

  /** After every run: with something queued, a pass starts to fill an empty bundle exactly if no failed call is being
      waited out, or its time has come. */
  lemma SendsExactly(maxQueue: int, run: seq<Event>, t0: int, t1: int, t2: int)
    requires var s := Run(maxQueue, run); s.phase == Idle && s.queue != []
    ensures
      var s, s' := Run(maxQueue, run), Run(maxQueue, run + [LoopHead(t0, t1, t2)]);
      && (s'.phase == Filling <==> s.nextRetryAt <= 0 || s.nextRetryAt <= t0)
      && (s'.phase == Filling ==> s'.bundle == [] && s'.nextRetryAt == 0 && s'.queue == s.queue && s'.inRpc == s.inRpc)
      && (s'.phase != Filling ==> s'.nextRetryAt == s.nextRetryAt && s'.queue == s.queue && s'.bundle == s.bundle)
  {
    hide Run;
    RunAppend(maxQueue, run, LoopHead(t0, t1, t2));
  }

  /** While it fills, a pass takes the oldest message until the queue is empty or 5000 values are in the bundle; then
      it calls exactly if there is a value to send. */
  lemma FillsExactly(maxQueue: int, run: seq<Event>)
    requires Run(maxQueue, run).phase == Filling
    ensures
      var s, s' := Run(maxQueue, run), Run(maxQueue, run + [Fetch]);
      if s.queue != [] && |s.bundle| < 5000 then
        && s'.phase == Filling && [s.queue[0]] + s'.queue == s.queue && s'.inRpc == s.inRpc + [s.queue[0]]
        && s'.bundle == if s.queue[0].isNull then s.bundle else s.bundle + [s.queue[0]]
      else
        s' == s.(phase := s'.phase) && s'.phase == if exists m :: m in s.inRpc && !m.isNull then Calling else Idle
  {
    RunInv(maxQueue, run);
    NonNullOf(Run(maxQueue, run).inRpc);
    hide Run, NonNull, Accounted, AcknowledgedOnce, PurgeAfterFailure;
    RunAppend(maxQueue, run, Fetch);
    var s := Run(maxQueue, run);
    assert s.queue != [] ==> [s.queue[0]] + s.queue[1..] == s.queue;
    assert s.bundle != [] ==> s.bundle[0] in s.bundle;
  }

  /** While a failed call is waited out, the queue is looked at every ten seconds, and then exactly what is above the
      limit is about to be dropped. */
  lemma PurgesExactly(maxQueue: int, run: seq<Event>, t0: int, t1: int, t2: int)
    requires var s := Run(maxQueue, run); s.phase == Idle && s.queue != [] && t0 < s.nextRetryAt && 0 < s.nextRetryAt
    ensures
      var s, s' := Run(maxQueue, run), Run(maxQueue, run + [LoopHead(t0, t1, t2)]);
      && s'.nextPurgeAt == (if s.nextPurgeAt < t1 then t2 + 10000 else s.nextPurgeAt)
      && (s'.phase.Purging? <==> s.nextPurgeAt < t1 && 0 <= maxQueue < |s.queue|)
      && (s'.phase.Purging? ==> |s.queue| - s'.phase.left == maxQueue)
  {
    hide Run;
    RunAppend(maxQueue, run, LoopHead(t0, t1, t2));
  }

  /** When a call has failed at clock t, no call at all is made before t + 60000, whatever the other threads do. */
  lemma {:induction false} NoCallBeforeRetry(maxQueue: int, run: seq<Event>, t: int, later: seq<Event>)
    requires var s := Run(maxQueue, run); s.phase == Returning && s.inRpc == [] && t + 60000 > 0
    requires forall e :: e in later && e.LoopHead? ==> e.t0 < t + 60000
    ensures
      var s, s' := Run(maxQueue, run), Run(maxQueue, run + [Return(t)] + later);
      && s'.failed == s.failed && s'.delivered == s.delivered
      && s'.nextRetryAt == t + 60000 && (s'.phase == Draining || s'.phase == Idle || s'.phase.Purging?)
  {
    hide Run;
    var failed := run + [Return(t)];
    if later == [] {
      assert failed + [] == failed;
      RunAppend(maxQueue, run, Return(t));
    } else {
      var before, e := later[..|later| - 1], later[|later| - 1];
      NoCallBeforeRetry(maxQueue, run, t, before);
      assert later == before + [e];
      assert failed + later == failed + before + [e];
      RunAppend(maxQueue, failed + before, e);
      assert e in later;
    }
  }

  // ----- what holds over every run

  /** At every point but while a failed batch is going back: of two messages still in the line, the one pushed first
      comes first exactly if the number of failed calls that carried both is even. */
  lemma OrderAfterFailures(maxQueue: int, run: seq<Event>, i: nat, j: nat)
    requires Run(maxQueue, run).phase != Returning
    requires
      var s := Run(maxQueue, run);
      var line := s.deleted + s.pending + s.inRpc + s.queue;
      i < |line| && j < |line| && line[i].id < line[j].id
    ensures
      var s := Run(maxQueue, run);
      var line := s.deleted + s.pending + s.inRpc + s.queue;
      i < j <==> Together(s.failed, line[i], line[j]) % 2 == 0
  {
    RunInv(maxQueue, run);
  }

  function Returns(n: nat): seq<Event> { seq(n, _ => Return(0)) }

  lemma {:induction false} AfterReturns(maxQueue: int, run: seq<Event>, n: nat)
    requires var s := Run(maxQueue, run); s.phase == Returning && n <= |s.inRpc|
    ensures
      var s := Run(maxQueue, run);
      Run(maxQueue, run + Returns(n)) == s.(queue := Reverse(s.inRpc[..n]) + s.queue, inRpc := s.inRpc[n..])
  {
    hide Run, Reverse;
    var s := Run(maxQueue, run);
    if n == 0 {
      assert run + Returns(0) == run && Reverse(s.inRpc[..0]) + s.queue == s.queue;
    } else {
      AfterReturns(maxQueue, run, n - 1);
      assert Returns(n) == Returns(n - 1) + [Return(0)];
      assert run + Returns(n) == run + Returns(n - 1) + [Return(0)];
      RunAppend(maxQueue, run + Returns(n - 1), Return(0));
      ReverseLast(s.inRpc, n, s.queue);
    }
  }

  lemma ReverseLast(ms: seq<Message>, n: nat, queue: seq<Message>)
    requires 0 < n <= |ms|
    ensures [ms[n - 1..][0]] + (Reverse(ms[..n - 1]) + queue) == Reverse(ms[..n]) + queue
    ensures ms[n - 1..][1..] == ms[n..]
  {
    hide Reverse;
  }

  /** Whenever a call fails and no other thread steps in, the batch is back at the front of the queue in reverse
      when the loop head is reached again. */
  lemma FailedBatchReversed(maxQueue: int, run: seq<Event>)
    requires Run(maxQueue, run).phase == Calling
    ensures
      var s := Run(maxQueue, run);
      var s' := Run(maxQueue, run + [Reply(false)] + Returns(|s.inRpc|) + [Return(0)] + [Drain]);
      s'.phase == Idle && s'.inRpc == [] && s'.queue == Reverse(s.inRpc) + s.queue
  {
    hide Run, Reverse, Returns;
    var s := Run(maxQueue, run);
    var failed := run + [Reply(false)];
    RunAppend(maxQueue, run, Reply(false));
    AfterReturns(maxQueue, failed, |s.inRpc|);
    assert s.inRpc[..|s.inRpc|] == s.inRpc;
    RunAppend(maxQueue, failed + Returns(|s.inRpc|), Return(0));
    RunAppend(maxQueue, failed + Returns(|s.inRpc|) + [Return(0)], Drain);
  }

  const M0 := Message(0, false)
  const M1 := Message(1, false)

  /** Push two messages and send them. */
  const SENT: seq<Event> := [] + [Push(false)] + [Push(false)] + [LoopHead(0, 0, 0)] + [Fetch] + [Fetch] + [Fetch]

  /** Two messages that fail together once have changed places at the next loop head. */
  lemma TwoMessagesReversed(maxQueue: int)
    ensures Run(maxQueue, SENT + [Reply(false)] + Returns(2) + [Return(0)] + [Drain]).queue == [M1, M0]
  {
    hide Run, Step, Returns, Reverse;
    TwoMessagesCalling(maxQueue);
    FailedBatchReversed(maxQueue, SENT);
    assert Reverse([M0, M1]) + [] == [M1, M0];
  }

  lemma RunTo(maxQueue: int, run: seq<Event>, e: Event, s: State, s': State)
    requires Run(maxQueue, run) == s && Step(maxQueue, s, e) == s'
    ensures Run(maxQueue, run + [e]) == s'
  {
    RunAppend(maxQueue, run, e);
  }

  lemma TwoMessagesCalling(maxQueue: int)
    ensures var s := Run(maxQueue, SENT); s.phase == Calling && s.inRpc == [M0, M1] && s.queue == []
  {
    assert Run(maxQueue, []) == INITIAL;
    TwoMessagesSent(maxQueue);
    hide Run, Step;
    var s1 := INITIAL.(queue := [M0], pushed := [M0]);
    var s2 := INITIAL.(queue := [M0, M1], pushed := [M0, M1]);
    var s3 := s2.(phase := Filling);
    var s4 := s3.(queue := [M1], inRpc := [M0], bundle := [M0]);
    var s5 := s3.(queue := [], inRpc := [M0, M1], bundle := [M0, M1]);
    RunTo(maxQueue, [], Push(false), INITIAL, s1);
    var run := [] + [Push(false)];
    RunTo(maxQueue, run, Push(false), s1, s2);
    run := run + [Push(false)];
    RunTo(maxQueue, run, LoopHead(0, 0, 0), s2, s3);
    run := run + [LoopHead(0, 0, 0)];
    RunTo(maxQueue, run, Fetch, s3, s4);
    run := run + [Fetch];
    RunTo(maxQueue, run, Fetch, s4, s5);
    run := run + [Fetch];
    RunTo(maxQueue, run, Fetch, s5, s5.(phase := Calling));
  }

  lemma TwoMessagesSent(maxQueue: int)
    ensures
      var s1 := INITIAL.(queue := [M0], pushed := [M0]);
      var s2 := INITIAL.(queue := [M0, M1], pushed := [M0, M1]);
      var s3 := s2.(phase := Filling);
      var s4 := s3.(queue := [M1], inRpc := [M0], bundle := [M0]);
      var s5 := s3.(queue := [], inRpc := [M0, M1], bundle := [M0, M1]);
      && Step(maxQueue, INITIAL, Push(false)) == s1 && Step(maxQueue, s1, Push(false)) == s2
      && Step(maxQueue, s2, LoopHead(0, 0, 0)) == s3 && Step(maxQueue, s3, Fetch) == s4
      && Step(maxQueue, s4, Fetch) == s5 && Step(maxQueue, s5, Fetch) == s5.(phase := Calling)
  {}

  /** At every point of every run each pushed message is in exactly one place. */
  lemma Conservation(maxQueue: int, run: seq<Event>)
    ensures
      var s := Run(maxQueue, run);
      && multiset(s.queue) + multiset(s.inRpc) + multiset(s.pending) + multiset(s.deleted) + multiset(s.purged)
         == multiset(s.pushed)
      && (forall i :: 0 <= i < |s.pushed| ==> s.pushed[i].id == i)
  {
    RunInv(maxQueue, run);
  }

  /** At the loop head in_rpc holds nulls only, left over from a batch of nothing else. */
  lemma OnlyNullsLeftOver(maxQueue: int, run: seq<Event>)
    requires Run(maxQueue, run).phase == Idle
    ensures forall m :: m in Run(maxQueue, run).inRpc ==> m.isNull
  {
    RunInv(maxQueue, run);
    NonNullOf(Run(maxQueue, run).inRpc);
  }

  /** A message with a value is queued for deletion only if exactly one successful call carried it. */
  lemma DeletedWasDelivered(maxQueue: int, run: seq<Event>, m: Message)
    requires var s := Run(maxQueue, run); m in s.pending + s.deleted && !m.isNull
    ensures
      var s := Run(maxQueue, run);
      exists i :: 0 <= i < |s.delivered| && m in s.delivered[i]
        && forall j :: 0 <= j < |s.delivered| && m in s.delivered[j] ==> j == i
  {
    RunInv(maxQueue, run);
    var s := Run(maxQueue, run);
    assert Handled(s.delivered, m);
    var b :| b in s.delivered && m in b;
    var i :| 0 <= i < |s.delivered| && s.delivered[i] == b;
  }

  /** Messages are lost only after a failed call, and never with a negative limit. */
  lemma LossNeedsFailure(maxQueue: int, run: seq<Event>)
    ensures var s := Run(maxQueue, run); s.purged != [] ==> s.failed != [] && maxQueue >= 0
  {
    RunInv(maxQueue, run);
  }

  predicate Eof(s: State) { s.queue == [] && s.pending == [] }

  ghost predicate AllSettled(s: State)
  {
    forall m :: m in s.pushed && !m.isNull ==> m in s.purged || exists b :: b in s.delivered && m in b
  }

  /** eof() looks at the queue and at the messages to be deleted only. When it holds, everything pushed has
      been acknowledged or purged exactly if no message with a value is in a batch still to be answered. */
  lemma EofSettledExactly(maxQueue: int, run: seq<Event>)
    requires Eof(Run(maxQueue, run))
    ensures
      var s := Run(maxQueue, run);
      AllSettled(s) <==> s.phase == Draining || forall m :: m in s.inRpc ==> m.isNull
  {
    RunInv(maxQueue, run);
    var s := Run(maxQueue, run);
    hide OrderedByParity;
    var all := Line(s) + s.purged;
    DistinctAll(all, s.pushed);
    assert multiset(all) == multiset(s.deleted) + multiset(s.inRpc) + multiset(s.purged);
    if s.phase == Draining || forall m :: m in s.inRpc ==> m.isNull {
      forall m | m in s.pushed && !m.isNull ensures m in s.purged || exists b :: b in s.delivered && m in b {
        assert m in multiset(s.pushed);
        assert m in s.deleted || m in s.inRpc || m in s.purged;
        assert m !in s.purged ==> Handled(s.delivered, m);
      }
    } else {
      var m :| m in s.inRpc && !m.isNull;
      assert m in multiset(all);
      assert m in s.pushed;
      assert m in multiset(s.inRpc);
      assert multiset(s.pushed)[m] >= multiset(s.deleted)[m] + multiset(s.inRpc)[m] + multiset(s.purged)[m];
      CountOnce(s.pushed, m);
      assert m !in multiset(s.purged) && m !in multiset(s.deleted);
      assert m !in s.purged && m !in Front(s);
      assert forall b :: b in s.delivered ==> m !in b;
      assert !AllSettled(s);
    }
  }

  /** flush() can return with a message that no call has delivered: eof() holds while the only batch is
      still waiting for its reply. */
  lemma EofBeforeReply(maxQueue: int)
    ensures
      var s := Run(maxQueue, [Push(false), LoopHead(0, 0, 0), Fetch, Fetch]);
      Eof(s) && !AllSettled(s)
  {
    assert Run(maxQueue, []) == INITIAL;
    OneMessageSent(maxQueue);
    hide Run, Step;
    var e1, e2, e3 := [Push(false)], [Push(false), LoopHead(0, 0, 0)], [Push(false), LoopHead(0, 0, 0), Fetch];
    assert [] + [Push(false)] == e1 && e1 + [LoopHead(0, 0, 0)] == e2 && e2 + [Fetch] == e3;
    assert e3 + [Fetch] == [Push(false), LoopHead(0, 0, 0), Fetch, Fetch];
    RunAppend(maxQueue, [], Push(false));
    RunAppend(maxQueue, e1, LoopHead(0, 0, 0));
    RunAppend(maxQueue, e2, Fetch);
    RunAppend(maxQueue, e3, Fetch);
    var m := Message(0, false);
    assert m in [m];
  }

  lemma OneMessageSent(maxQueue: int)
    ensures
      var m := Message(0, false);
      var s1 := INITIAL.(queue := [m], pushed := [m]);
      var s2 := s1.(phase := Filling);
      var s3 := s2.(queue := [], inRpc := [m], bundle := [m]);
      && Step(maxQueue, INITIAL, Push(false)) == s1 && Step(maxQueue, s1, LoopHead(0, 0, 0)) == s2
      && Step(maxQueue, s2, Fetch) == s3 && Step(maxQueue, s3, Fetch) == s3.(phase := Calling)
  {}
}
