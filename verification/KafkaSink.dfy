/** The hand-off from a sink's queue to librdkafka in programs/saas-services/bb-monitor-ingestion-srv
    (bb_kafka_sink.h and bb_kafka_producer.cpp): a FIFO with retry, the malloc'd key and value buffers that
    travel with each message, and the choice of the partition. */
module KafkaSink {
  import opened Wrappers

  datatype Record = Record(key: string, value: Option<string>)

  /** The codecs and the partition hash: functions of the key and the value, nothing more is known of them. */
  datatype Codec = Codec(encodeKey: string -> string, encodeValue: string -> string, hash: string -> nat)

  /** producer_user_data: the buffers a message owns, by address. */
  datatype UserData = UserData(record: Record, keyPtr: nat, valPtr: Option<nat>, partitionHash: nat)

  datatype Result = Accepted | QueueFull | Failed

  datatype Event =
    | Push(record: Record)
    | Try(result: Result)          // process() handles the front of the queue
    | Report(i: nat, ok: bool)     // delivery report for the i-th message in flight

  datatype State = State(
    queue: seq<Record>,
    heap: map<nat, string>,        // the malloc'd buffers that have not been freed
    next: nat,
    inFlight: seq<UserData>,
    msgCnt: nat,
    msgBytes: nat,
    aborted: bool,                 // a failed delivery report is fatal
    // history
    pushed: seq<Record>,
    accepted: seq<Record>,
    freed: multiset<nat>,
    partitions: map<nat, seq<Record>>)

  const INITIAL := State([], map[], 0, [], 0, 0, false, [], [], multiset{}, map[])

  function PtrsOf(u: UserData): set<nat>
  {
    {u.keyPtr} + if u.valPtr.Some? then {u.valPtr.value} else {}
  }

  /** Encode a record into new buffers. */
  function Allocate(codec: Codec, s: State, r: Record): (State, UserData)
  {
    var heap := s.heap[s.next := codec.encodeKey(r.key)];
    if r.value.None? then (s.(heap := heap, next := s.next + 1), UserData(r, s.next, None, codec.hash(r.key)))
    else (s.(heap := heap[s.next + 1 := codec.encodeValue(r.value.value)], next := s.next + 2),
          UserData(r, s.next, Some(s.next + 1), codec.hash(r.key)))
  }

  /** delete user_data */
  function Free(s: State, u: UserData): State
  {
    s.(heap := s.heap - PtrsOf(u), freed := s.freed + multiset(PtrsOf(u)))
  }

  /** partitioner_cb: an unsigned remainder. */
  function Partition(hash: nat, count: nat): nat
    requires count > 0
  {
    hash % count
  }

  /** The partition is what is left of the hash when the count is taken off as often as it goes. */
  lemma PartitionExactly(hash: nat, count: nat, p: nat)
    requires count > 0
    ensures Partition(hash, count) == p <==> p < count && exists q: nat :: hash == q * count + p
  {
    var d := hash / count;
    assert hash == d * count + hash % count;
    if q: nat :| p < count && hash == q * count + p {
      assert q < d ==> (q + 1) * count <= d * count;
      assert q > d ==> (d + 1) * count <= q * count;
    }
  }

  function LogOf(s: State, p: nat): seq<Record> { if p in s.partitions then s.partitions[p] else [] }

  function Size(codec: Codec, r: Record): nat
  {
    |codec.encodeKey(r.key)| + if r.value.Some? then |codec.encodeValue(r.value.value)| else 0
  }

  function Step(codec: Codec, count: nat, s: State, e: Event): State
    requires count > 0
  {
    if s.aborted then s
    else match e
      case Push(r) => s.(queue := s.queue + [r], pushed := s.pushed + [r])
      case Try(result) =>
        if s.queue == [] then s
        else
          var r := s.queue[0];
          var (s1, u) := Allocate(codec, s, r);
          if result != Accepted then Free(s1, u)
          else
            var p := Partition(u.partitionHash, count);
            s1.(queue := s.queue[1..], inFlight := s.inFlight + [u], accepted := s.accepted + [r],
                msgCnt := s.msgCnt + 1, msgBytes := s.msgBytes + Size(codec, r),
                partitions := s.partitions[p := LogOf(s, p) + [r]])
      case Report(i, ok) =>
        if i >= |s.inFlight| then s
        else if !ok then s.(aborted := true)
        else Free(s, s.inFlight[i]).(inFlight := s.inFlight[..i] + s.inFlight[i + 1..])
  }

  function Run(codec: Codec, count: nat, run: seq<Event>): State
    requires count > 0
  {
    if run == [] then INITIAL else Step(codec, count, Run(codec, count, run[..|run| - 1]), run[|run| - 1])
  }

  lemma RunAppend(codec: Codec, count: nat, run: seq<Event>, e: Event)
    requires count > 0
    ensures Run(codec, count, run + [e]) == Step(codec, count, Run(codec, count, run), e)
  {
    assert (run + [e])[..|run|] == run;
  }

  // ----- buffers

  ghost predicate Owns(us: seq<UserData>, ptr: nat)
  {
    exists i :: 0 <= i < |us| && ptr in PtrsOf(us[i])
  }

  /** Every address handed out so far is live or has been freed once. */
  ghost predicate FreedRest(heap: map<nat, string>, next: nat, freed: multiset<nat>)
  {
    && (forall ptr: nat :: ptr in heap ==> ptr < next)
    && (forall ptr: nat :: freed[ptr] == if ptr < next && ptr !in heap then 1 else 0)
  }

  /** The live buffers are exactly those of the messages in flight, each with one owner; every other buffer
      ever allocated has been freed exactly once. */
  ghost predicate BuffersOwned(s: State)
  {
    && (forall ptr :: ptr in s.heap <==> Owns(s.inFlight, ptr))
    && (forall i, j :: 0 <= i < j < |s.inFlight| ==> PtrsOf(s.inFlight[i]) !! PtrsOf(s.inFlight[j]))
    && FreedRest(s.heap, s.next, s.freed)
  }

  /** A message in flight still finds its record in its buffers. */
  ghost predicate Intact(codec: Codec, heap: map<nat, string>, u: UserData)
  {
    && u.keyPtr in heap && heap[u.keyPtr] == codec.encodeKey(u.record.key)
    && (u.valPtr.Some? <==> u.record.value.Some?)
    && (u.valPtr.Some? ==>
         u.valPtr.value != u.keyPtr && u.valPtr.value in heap
         && heap[u.valPtr.value] == codec.encodeValue(u.record.value.value))
  }

  ghost predicate BuffersIntact(codec: Codec, s: State)
  {
    forall i :: 0 <= i < |s.inFlight| ==> Intact(codec, s.heap, s.inFlight[i])
  }

  /** heap' has the buffers of heap and new ones at ptrs, which are all the addresses from next to next'. */
  ghost predicate Grown(heap: map<nat, string>, next: nat, heap': map<nat, string>, next': nat, ptrs: set<nat>)
  {
    && next <= next'
    && (forall ptr: nat :: ptr in heap' <==> ptr in heap || ptr in ptrs)
    && (forall ptr: nat :: ptr in heap ==> ptr < next && heap'[ptr] == heap[ptr])
    && (forall ptr: nat :: ptr in ptrs <==> next <= ptr < next')
  }

  lemma Allocated(codec: Codec, s: State, r: Record)
    requires FreedRest(s.heap, s.next, s.freed)
    ensures
      var (s1, u) := Allocate(codec, s, r);
      && Grown(s.heap, s.next, s1.heap, s1.next, PtrsOf(u)) && Intact(codec, s1.heap, u)
      && s1.inFlight == s.inFlight && s1.freed == s.freed
  {}

  lemma FreeSome(heap: map<nat, string>, next: nat, freed: multiset<nat>, ptrs: set<nat>)
    requires FreedRest(heap, next, freed) && forall ptr: nat :: ptr in ptrs ==> ptr in heap
    ensures FreedRest(heap - ptrs, next, freed + multiset(ptrs))
  {}

  lemma FreeNew(heap: map<nat, string>, next: nat, heap': map<nat, string>, next': nat,
                freed: multiset<nat>, ptrs: set<nat>)
    requires FreedRest(heap, next, freed) && Grown(heap, next, heap', next', ptrs)
    ensures FreedRest(heap, next', freed + multiset(ptrs)) && heap' - ptrs == heap
  {}

  lemma TakeNew(heap: map<nat, string>, next: nat, heap': map<nat, string>, next': nat,
                freed: multiset<nat>, ptrs: set<nat>)
    requires FreedRest(heap, next, freed) && Grown(heap, next, heap', next', ptrs)
    ensures FreedRest(heap', next', freed)
  {}

  lemma AllocateThenFree(codec: Codec, s: State, r: Record)
    requires BuffersOwned(s) && BuffersIntact(codec, s)
    ensures
      var (s1, u) := Allocate(codec, s, r);
      BuffersOwned(Free(s1, u)) && BuffersIntact(codec, Free(s1, u))
  {
    hide Allocate, PtrsOf, Owns, Intact, FreedRest, Grown;
    var (s1, u) := Allocate(codec, s, r);
    Allocated(codec, s, r);
    FreeNew(s.heap, s.next, s1.heap, s1.next, s.freed, PtrsOf(u));
  }

  lemma OwnersWith(us: seq<UserData>, u: UserData, ptr: nat)
    ensures Owns(us + [u], ptr) <==> Owns(us, ptr) || ptr in PtrsOf(u)
  {
    hide PtrsOf;
    var all := us + [u];
    if Owns(us, ptr) {
      var i :| 0 <= i < |us| && ptr in PtrsOf(us[i]);
      assert ptr in PtrsOf(all[i]);
    }
    if ptr in PtrsOf(u) {
      assert ptr in PtrsOf(all[|us|]);
    }
  }

  lemma OwnersWithout(us: seq<UserData>, i: nat, ptr: nat)
    requires i < |us| && forall i, j :: 0 <= i < j < |us| ==> PtrsOf(us[i]) !! PtrsOf(us[j])
    ensures Owns(us[..i] + us[i + 1..], ptr) <==> Owns(us, ptr) && ptr !in PtrsOf(us[i])
  {
    hide PtrsOf;
    var rest := us[..i] + us[i + 1..];
    if Owns(rest, ptr) {
      var j :| 0 <= j < |rest| && ptr in PtrsOf(rest[j]);
      var j' := if j < i then j else j + 1;
      assert rest[j] == us[j'];
      assert ptr in PtrsOf(us[j']);
      assert PtrsOf(us[j']) !! PtrsOf(us[i]);
    }
    if Owns(us, ptr) && ptr !in PtrsOf(us[i]) {
      var j :| 0 <= j < |us| && ptr in PtrsOf(us[j]);
      assert us[j] == rest[if j < i then j else j - 1];
    }
  }

  lemma OwnedBefore(s: State, i: nat, ptrs: set<nat>, heap': map<nat, string>, next': nat)
    requires BuffersOwned(s) && i < |s.inFlight| && Grown(s.heap, s.next, heap', next', ptrs)
    ensures PtrsOf(s.inFlight[i]) !! ptrs
  {
    forall ptr | ptr in PtrsOf(s.inFlight[i]) ensures ptr < s.next {
      assert Owns(s.inFlight, ptr);
    }
  }

  lemma InGrown(heap: map<nat, string>, next: nat, heap': map<nat, string>, next': nat, ptrs: set<nat>)
    requires Grown(heap, next, heap', next', ptrs)
    ensures forall ptr: nat :: ptr in heap' <==> ptr in heap || ptr in ptrs
  {}

  lemma GrownIntact(codec: Codec, heap: map<nat, string>, next: nat, heap': map<nat, string>, next': nat,
                    ptrs: set<nat>, u: UserData)
    requires Grown(heap, next, heap', next', ptrs) && Intact(codec, heap, u)
    ensures Intact(codec, heap', u)
  {}

  lemma BuffersTaken(codec: Codec, s: State, r: Record, s': State)
    requires BuffersOwned(s) && BuffersIntact(codec, s)
    requires var (s1, u) := Allocate(codec, s, r);
      s'.heap == s1.heap && s'.next == s1.next && s'.freed == s.freed && s'.inFlight == s.inFlight + [u]
    ensures BuffersOwned(s') && BuffersIntact(codec, s')
  {
    hide Allocate, PtrsOf, Owns, FreedRest, Intact, Grown;
    var (s1, u) := Allocate(codec, s, r);
    Allocated(codec, s, r);
    TakeNew(s.heap, s.next, s'.heap, s'.next, s.freed, PtrsOf(u));
    InGrown(s.heap, s.next, s'.heap, s'.next, PtrsOf(u));
    forall ptr: nat ensures ptr in s'.heap <==> Owns(s'.inFlight, ptr) {
      OwnersWith(s.inFlight, u, ptr);
    }
    forall i | 0 <= i < |s.inFlight| ensures PtrsOf(s.inFlight[i]) !! PtrsOf(u) {
      OwnedBefore(s, i, PtrsOf(u), s'.heap, s'.next);
    }
    forall i | 0 <= i < |s'.inFlight| ensures Intact(codec, s'.heap, s'.inFlight[i]) {
      if i < |s.inFlight| {
        GrownIntact(codec, s.heap, s.next, s'.heap, s'.next, PtrsOf(u), s.inFlight[i]);
      }
    }
  }

  lemma OwnsOwn(us: seq<UserData>, i: nat)
    requires i < |us|
    ensures forall ptr :: ptr in PtrsOf(us[i]) ==> Owns(us, ptr)
  {}

  lemma BuffersReturned(codec: Codec, s: State, i: nat)
    requires BuffersOwned(s) && BuffersIntact(codec, s) && i < |s.inFlight|
    ensures
      var s' := Free(s, s.inFlight[i]).(inFlight := s.inFlight[..i] + s.inFlight[i + 1..]);
      BuffersOwned(s') && BuffersIntact(codec, s')
  {
    hide Owns, Intact, PtrsOf;
    var u := s.inFlight[i];
    OwnsOwn(s.inFlight, i);
    var s' := Free(s, u).(inFlight := s.inFlight[..i] + s.inFlight[i + 1..]);
    forall ptr: nat ensures Owns(s'.inFlight, ptr) <==> Owns(s.inFlight, ptr) && ptr !in PtrsOf(u) {
      OwnersWithout(s.inFlight, i, ptr);
    }
    FreeSome(s.heap, s.next, s.freed, PtrsOf(u));
    hide FreedRest;
    forall j | 0 <= j < |s'.inFlight| ensures Intact(codec, s'.heap, s'.inFlight[j]) {
      var j' := if j < i then j else j + 1;
      StillIntact(codec, s.heap, s.inFlight[j'], u);
    }
  }

  lemma StillIntact(codec: Codec, heap: map<nat, string>, u: UserData, other: UserData)
    requires Intact(codec, heap, u) && PtrsOf(u) !! PtrsOf(other)
    ensures Intact(codec, heap - PtrsOf(other), u)
  {
    assert u.keyPtr in PtrsOf(u);
    assert u.valPtr.Some? ==> u.valPtr.value in PtrsOf(u);
    hide PtrsOf;
  }

  // ----- order

  function KeyRecords(rs: seq<Record>, key: string): seq<Record>
  {
    if rs == [] then []
    else KeyRecords(rs[..|rs| - 1], key) + if rs[|rs| - 1].key == key then [rs[|rs| - 1]] else []
  }

  lemma {:induction false} KeyRecordsAppend(a: seq<Record>, b: seq<Record>, key: string)
    ensures KeyRecords(a + b, key) == KeyRecords(a, key) + KeyRecords(b, key)
  {
    if b == [] {
      assert a + b == a;
    } else {
      var n := |b| - 1;
      assert (a + b)[..|a + b| - 1] == a + b[..n];
      KeyRecordsAppend(a, b[..n], key);
    }
  }

  /** All records of a key are in the key's partition, in the order they were accepted. */
  ghost predicate KeysInOrder(codec: Codec, count: nat, s: State)
    requires count > 0
  {
    && (forall p :: p in s.partitions ==> p < count)
    && forall p: nat, key :: KeyRecords(LogOf(s, p), key)
         == if p == Partition(codec.hash(key), count) then KeyRecords(s.accepted, key) else []
  }

  lemma KeyRecordsPush(rs: seq<Record>, r: Record, key: string)
    ensures KeyRecords(rs + [r], key) == KeyRecords(rs, key) + if r.key == key then [r] else []
  {
    assert (rs + [r])[..|rs|] == rs;
  }

  lemma PartitionExists(hash: nat, count: nat)
    requires count > 0
    ensures Partition(hash, count) < count
  {}

  lemma KeysStep(codec: Codec, count: nat, s: State, r: Record, s': State)
    requires count > 0 && KeysInOrder(codec, count, s)
    requires var p := Partition(codec.hash(r.key), count);
      s'.accepted == s.accepted + [r] && s'.partitions == s.partitions[p := LogOf(s, p) + [r]]
    ensures KeysInOrder(codec, count, s')
  {
    hide KeyRecords, Partition;
    var home := Partition(codec.hash(r.key), count);
    PartitionExists(codec.hash(r.key), count);
    forall p: nat, key ensures KeyRecords(LogOf(s', p), key)
         == if p == Partition(codec.hash(key), count) then KeyRecords(s'.accepted, key) else []
    {
      KeyRecordsPush(s.accepted, r, key);
      KeyRecordsPush(LogOf(s, p), r, key);
      assert LogOf(s', p) == if p == home then LogOf(s, p) + [r] else LogOf(s, p);
    }
  }

  function Bytes(codec: Codec, rs: seq<Record>): nat
  {
    if rs == [] then 0 else Bytes(codec, rs[..|rs| - 1]) + Size(codec, rs[|rs| - 1])
  }

  ghost predicate Counted(codec: Codec, s: State)
  {
    s.pushed == s.accepted + s.queue && s.msgCnt == |s.accepted| && s.msgBytes == Bytes(codec, s.accepted)
  }

  ghost predicate Inv(codec: Codec, count: nat, s: State)
    requires count > 0
  {
    BuffersOwned(s) && BuffersIntact(codec, s) && KeysInOrder(codec, count, s) && Counted(codec, s)
  }

  lemma CountedTry(codec: Codec, count: nat, s: State)
    requires count > 0 && !s.aborted && s.queue != [] && Counted(codec, s)
    ensures Counted(codec, Step(codec, count, s, Try(Accepted)))
  {
    hide Size, Partition, LogOf;
    var s' := Step(codec, count, s, Try(Accepted));
    assert s'.accepted[..|s.accepted|] == s.accepted;
    assert s.accepted + s.queue == s'.accepted + s'.queue;
  }

  lemma InvStep(codec: Codec, count: nat, s: State, e: Event)
    requires count > 0 && Inv(codec, count, s)
    ensures Inv(codec, count, Step(codec, count, s, e))
  {
    hide BuffersOwned, BuffersIntact, KeysInOrder;
    var s' := Step(codec, count, s, e);
    if !s.aborted {
      match e
      case Push(r) =>
        SameBuffers(codec, count, s, s');
      case Try(result) =>
        if s.queue != [] {
          var r := s.queue[0];
          if result == Accepted {
            BuffersTaken(codec, s, r, s');
            KeysStep(codec, count, s, r, s');
            CountedTry(codec, count, s);
          } else {
            AllocateThenFree(codec, s, r);
            SameKeys(codec, count, s, s');
          }
        }
      case Report(i, ok) =>
        if i < |s.inFlight| && ok {
          BuffersReturned(codec, s, i);
          SameKeys(codec, count, s, s');
        } else {
          SameBuffers(codec, count, s, s');
        }
    }
  }

  lemma SameKeys(codec: Codec, count: nat, s: State, s': State)
    requires count > 0 && KeysInOrder(codec, count, s) && s'.accepted == s.accepted && s'.partitions == s.partitions
    ensures KeysInOrder(codec, count, s')
  {
    assert forall p :: LogOf(s', p) == LogOf(s, p);
  }

  lemma SameBuffers(codec: Codec, count: nat, s: State, s': State)
    requires count > 0 && BuffersOwned(s) && BuffersIntact(codec, s) && KeysInOrder(codec, count, s)
    requires s'.heap == s.heap && s'.next == s.next && s'.inFlight == s.inFlight && s'.freed == s.freed
    requires s'.accepted == s.accepted && s'.partitions == s.partitions
    ensures BuffersOwned(s') && BuffersIntact(codec, s') && KeysInOrder(codec, count, s')
  {
    SameKeys(codec, count, s, s');
  }

  lemma {:induction false} RunInv(codec: Codec, count: nat, run: seq<Event>)
    requires count > 0
    ensures Inv(codec, count, Run(codec, count, run))
  {
    if run != [] {
      hide Inv, Step;
      RunInv(codec, count, run[..|run| - 1]);
      InvStep(codec, count, Run(codec, count, run[..|run| - 1]), run[|run| - 1]);
    }
  }

  // ----- what holds over every run

  /** Over every interleaving of pushes, attempts and delivery reports, the buffers not yet freed are those of the
      messages in flight, and every other buffer has been freed exactly once. */
  lemma FreedExactlyOnce(codec: Codec, count: nat, run: seq<Event>, ptr: nat)
    requires count > 0
    ensures
      var s := Run(codec, count, run);
      && (ptr in s.heap <==> Owns(s.inFlight, ptr))
      && (s.freed[ptr] == if ptr < s.next && !Owns(s.inFlight, ptr) then 1 else 0)
      && (forall i, j :: 0 <= i < j < |s.inFlight| ==> PtrsOf(s.inFlight[i]) !! PtrsOf(s.inFlight[j]))
  {
    RunInv(codec, count, run);
    hide Run, KeysInOrder, BuffersIntact;
  }

  /** What librdkafka accepted, followed by the queue, is what was pushed, whatever failed and was retried. */
  lemma AcceptedInPushOrder(codec: Codec, count: nat, run: seq<Event>)
    requires count > 0
    ensures
      var s := Run(codec, count, run);
      s.accepted + s.queue == s.pushed && s.msgCnt == |s.accepted| && s.msgBytes == Bytes(codec, s.accepted)
  {
    RunInv(codec, count, run);
    hide Run, KeysInOrder, BuffersIntact, BuffersOwned;
  }

  lemma KeyInItsPartition(codec: Codec, count: nat, s: State, key: string)
    requires count > 0 && Inv(codec, count, s)
    ensures
      var p := Partition(codec.hash(key), count);
      && p < count
      && KeyRecords(LogOf(s, p), key) + KeyRecords(s.queue, key) == KeyRecords(s.pushed, key)
      && forall q: nat :: q != p ==> KeyRecords(LogOf(s, q), key) == []
  {
    hide BuffersIntact, BuffersOwned;
    KeyRecordsAppend(s.accepted, s.queue, key);
  }

  /** With a fixed number of partitions the records of a key reach one partition, in push order. */
  lemma KeyReachesOnePartition(codec: Codec, count: nat, run: seq<Event>, key: string)
    requires count > 0
    ensures
      var s, p := Run(codec, count, run), Partition(codec.hash(key), count);
      && p < count
      && KeyRecords(LogOf(s, p), key) + KeyRecords(s.queue, key) == KeyRecords(s.pushed, key)
      && forall q: nat :: q != p ==> KeyRecords(LogOf(s, q), key) == []
  {
    RunInv(codec, count, run);
    hide Run, Inv;
    KeyInItsPartition(codec, count, Run(codec, count, run), key);
  }

  /** Until it is freed, a buffer keeps the bytes that its message was encoded to. */
  lemma BuffersKeepRecords(codec: Codec, count: nat, run: seq<Event>, i: nat)
    requires count > 0 && i < |Run(codec, count, run).inFlight|
    ensures var s := Run(codec, count, run); Intact(codec, s.heap, s.inFlight[i])
  {
    RunInv(codec, count, run);
    hide Run, Intact, BuffersOwned, KeysInOrder;
  }

  /** A failed delivery report is the end: whatever comes later, nothing changes any more. */
  lemma {:induction false} FailedReportIsFatal(codec: Codec, count: nat, run: seq<Event>, i: nat, later: seq<Event>)
    requires count > 0 && i < |Run(codec, count, run).inFlight|
    ensures Run(codec, count, run + [Report(i, false)] + later) == Run(codec, count, run).(aborted := true)
  {
    hide Run;
    var all := run + [Report(i, false)];
    if later == [] {
      assert all + [] == all;
      RunAppend(codec, count, run, Report(i, false));
    } else {
      var n := |later| - 1;
      FailedReportIsFatal(codec, count, run, i, later[..n]);
      assert all + later == all + later[..n] + [later[n]];
      RunAppend(codec, count, all + later[..n], later[n]);
    }
  }

  /** The bytes counted for a record are those of its encoded key and, if it has one, its encoded value. */
  lemma BytesOfRecord(codec: Codec, rs: seq<Record>, key: string, value: string)
    ensures Bytes(codec, rs + [Record(key, None)]) == Bytes(codec, rs) + |codec.encodeKey(key)|
    ensures Bytes(codec, rs + [Record(key, Some(value))])
         == Bytes(codec, rs) + |codec.encodeKey(key)| + |codec.encodeValue(value)|
  {
    assert (rs + [Record(key, None)])[..|rs|] == rs && (rs + [Record(key, Some(value))])[..|rs|] == rs;
  }

  // ----- the sink object

  lemma TryIs(codec: Codec, count: nat, s: State, result: Result)
    requires count > 0 && !s.aborted && s.queue != []
    ensures
      var r := s.queue[0];
      var ((s1, u), s') := (Allocate(codec, s, r), Step(codec, count, s, Try(result)));
      && s'.next == s1.next && !s'.aborted
      && if result == Accepted then
           s'.heap == s1.heap && s'.queue == s.queue[1..] && s'.inFlight == s.inFlight + [u]
           && s'.accepted == s.accepted + [r] && s'.msgCnt == s.msgCnt + 1 && s'.msgBytes == s.msgBytes + Size(codec, r)
         else
           s'.heap == Free(s1, u).heap && s'.queue == s.queue && s'.inFlight == s.inFlight && s'.accepted == s.accepted
           && s'.msgCnt == s.msgCnt && s'.msgBytes == s.msgBytes
  {
    hide Size, Partition, LogOf, PtrsOf;
  }

  /** Valid() ties the fields to the run, so that what holds over every run holds of the object. */
  class Sink {
    const codec: Codec
    const partitionCount: nat
    var queue: seq<Record>
    var heap: map<nat, string>
    var next: nat
    var inFlight: seq<UserData>
    var msgCnt: nat
    var msgBytes: nat
    ghost var run: seq<Event>

    ghost function S(): State
      requires partitionCount > 0
      reads this
    {
      Run(codec, partitionCount, run)
    }

    ghost predicate Valid()
      reads this
    {
      partitionCount > 0 &&
      var s := S();
      && s.queue == queue && s.heap == heap && s.next == next && s.inFlight == inFlight
      && s.msgCnt == msgCnt && s.msgBytes == msgBytes && !s.aborted
    }

    constructor (codec: Codec, partitionCount: nat)
      requires partitionCount > 0
      ensures Valid() && S() == INITIAL
      ensures this.codec == codec && this.partitionCount == partitionCount
    {
      this.codec, this.partitionCount := codec, partitionCount;
      queue, heap, next, inFlight, msgCnt, msgBytes := [], map[], 0, [], 0, 0;
      run := [];
    }

    ghost method Log(e: Event)
      requires partitionCount > 0
      modifies `run
      ensures run == old(run) + [e] && S() == Step(codec, partitionCount, old(S()), e)
    {
      RunAppend(codec, partitionCount, run, e);
      run := run + [e];
    }

    method PushBack(r: Record)
      requires Valid()
      modifies this
      ensures Valid() && run == old(run) + [Push(r)]
    {
      queue := queue + [r];
      Log(Push(r));
    }

    method Malloc(contents: string) returns (ptr: nat)
      modifies `heap, `next
      ensures ptr == old(next) && next == old(next) + 1 && heap == old(heap)[ptr := contents]
    {
      ptr := next;
      heap := heap[next := contents];
      next := next + 1;
    }

    method FreeUserData(u: UserData)
      modifies `heap
      ensures heap == old(heap) - PtrsOf(u)
    {
      heap := heap - {u.keyPtr};
      if u.valPtr.Some? {
        heap := heap - {u.valPtr.value};
      }
    }

    /** handle_event and produce: encode into fresh buffers and hand them over, or free them at once. */
    method HandleEvent(r: Record) returns (result: Result)
      requires Valid()
      modifies `heap, `next, `inFlight, `msgCnt, `msgBytes
      ensures
        var (s1, u) := Allocate(codec, old(S()), r);
        && next == s1.next
        && heap == (if result == Accepted then s1.heap else Free(s1, u).heap)
        && inFlight == old(inFlight) + (if result == Accepted then [u] else [])
        && msgCnt == old(msgCnt) + (if result == Accepted then 1 else 0)
        && msgBytes == old(msgBytes) + (if result == Accepted then Size(codec, r) else 0)
    {
      hide Run;
      var keyPtr := Malloc(codec.encodeKey(r.key));
      var valPtr := None;
      if r.value.Some? {
        var ptr := Malloc(codec.encodeValue(r.value.value));
        valPtr := Some(ptr);
      }
      var userData := UserData(r, keyPtr, valPtr, codec.hash(r.key));
      result := *;
      if result != Accepted {
        FreeUserData(userData);
        return;
      }
      inFlight := inFlight + [userData];
      msgCnt := msgCnt + 1;
      msgBytes := msgBytes + Size(codec, r);
    }

    /** process(): hand over from the front of the queue until it is empty or librdkafka refuses. */
    method Process() returns (count: nat)
      requires Valid()
      modifies this
      ensures Valid() && count <= |old(queue)| && queue == old(queue)[count..]
      ensures S().accepted == old(S().accepted) + old(queue)[..count]
      ensures queue != [] ==> run != old(run) && run[|run| - 1].Try? && run[|run| - 1].result != Accepted
    {
      count := 0;
      while queue != []
        invariant Valid() && count <= |old(queue)| && queue == old(queue)[count..]
        invariant S().accepted == old(S().accepted) + old(queue)[..count]
        invariant old(run) <= run
        decreases |queue|
      {
        hide Run, Step, Allocate, Free, Size, PtrsOf;
        var r := queue[0];
        assert old(queue)[..count] + [r] == old(queue)[..count + 1];
        ghost var s := S();
        var result := HandleEvent(r);
        TryIs(codec, partitionCount, s, result);
        Log(Try(result));
        if result == Accepted {
          count := count + 1;
          queue := queue[1..];
        } else {
          return;
        }
      }
    }

    /** dr_cb for a message that was delivered. */
    method Delivered(i: nat)
      requires Valid() && i < |inFlight|
      modifies this
      ensures Valid() && run == old(run) + [Report(i, true)]
    {
      FreeUserData(inFlight[i]);
      inFlight := inFlight[..i] + inFlight[i + 1..];
      Log(Report(i, true));
    }
  }
}
