/** Order of arrival over whole runs. */
module MqArrival {
  import opened Bytes
  import opened MqModel
  import opened MqOrder
  import opened MqList
  import opened MqFifo
  import opened MqRuns

  ghost predicate Ascending(ms: seq<Entry>) {
    forall i, j :: 0 <= i < j < |ms| ==> ms[i].stamp < ms[j].stamp
  }

  /** Everything lies between head and tail, in the order it was accepted. */
  ghost predicate FirstInFirstOut(q: Queue)
    requires Shaped(q)
  {
    Contiguous(q) && Ascending(Messages(q))
  }

  /** Every message the run accepts finds the tail slot itself free. */
  predicate LandsOnTail(h: History, ops: seq<Op>)
    requires Shaped(h.queue)
    decreases |ops|
  {
    ops == [] ||
    ((ops[0].Put? && Enqueue(h.queue, ops[0].friendnum, ops[0].payload, ops[0].now).1 == Ok ==> TailFree(h.queue))
      && LandsOnTail(Step(h, ops[0]), ops[1..]))
  }

  lemma WithoutAscending(ms: seq<Entry>, p: nat)
    requires Ascending(ms) && p < |ms|
    ensures Ascending(Without(ms, p))
  {
    var w := Without(ms, p);
    forall i, j | 0 <= i < j < |w|
      ensures w[i].stamp < w[j].stamp
    {
      assert w[i] == ms[if i < p then i else i + 1];
      assert w[j] == ms[if j < p then j else j + 1];
    }
  }

  lemma ServiceAscending(ms: seq<Entry>, ready: bool, code: int, now: int)
    requires Ascending(ms)
    ensures Ascending(ListService(ms, ready, code, now).messages)
  {
    var p := FirstEligible(ms, now);
    if p < |ms| {
      WithoutAscending(ms, p);
    }
  }

  lemma PutFifo(q: Queue, friendnum: int32, payload: bytes, now: int)
    requires Inv(q) && FirstInFirstOut(q)
    requires Enqueue(q, friendnum, payload, now).1 == Ok ==> TailFree(q)
    ensures FirstInFirstOut(Enqueue(q, friendnum, payload, now).0)
  {
    if Enqueue(q, friendnum, payload, now).1 == Ok {
      EnqueueContiguous(q, friendnum, payload, now);
      MessagesAreSlots(q);
      hide Messages;
      forall m | m in Messages(q)
        ensures m.stamp < q.stats.enqueued
      {
      }
    }
  }

  lemma AckAscending(q: Queue, friendnum: int, receipt: int)
    requires Inv(q) && Ascending(Messages(q))
    ensures Ascending(Messages(Confirm(q, friendnum, receipt).0))
  {
    hide Messages, Sound, DistinctStamps, CountState, Ascending;
    ConfirmRefines(q, friendnum, receipt);
    var (q', code) := Confirm(q, friendnum, receipt);
    if code == Ok {
      var p :| 0 <= p < |Messages(q)| && Messages(q') == Without(Messages(q), p);
      WithoutAscending(Messages(q), p);
    }
  }

  lemma TickAscending(q: Queue, ready: bool, code: int, now: int)
    requires Inv(q) && Ascending(Messages(q))
    ensures Ascending(Messages(Service(q, ready, code, now).queue))
  {
    hide Messages, Sound, DistinctStamps, CountState, Service, Ascending;
    ServiceRefines(q, ready, code, now);
    ServiceAscending(Messages(q), ready, code, now);
  }

  lemma AckFifo(q: Queue, friendnum: int, receipt: int)
    requires Inv(q) && FirstInFirstOut(q)
    ensures FirstInFirstOut(Confirm(q, friendnum, receipt).0)
  {
    hide Inv, Contiguous, Ascending, Confirm;
    ConfirmContiguous(q, friendnum, receipt);
    AckAscending(q, friendnum, receipt);
  }

  lemma TickFifo(q: Queue, ready: bool, code: int, now: int)
    requires Inv(q) && FirstInFirstOut(q)
    ensures FirstInFirstOut(Service(q, ready, code, now).queue)
  {
    hide Inv, Contiguous, Ascending, Service;
    ServiceContiguous(q, ready, code, now);
    TickAscending(q, ready, code, now);
  }

  /** First-in first-out over every run in which each accepted message lands on the
      tail slot, whatever is confirmed, retried or dropped in between. */
  lemma {:induction false} RunFirstInFirstOut(h: History, ops: seq<Op>)
    requires Inv(h.queue) && FirstInFirstOut(h.queue) && LandsOnTail(h, ops)
    ensures Inv(Run(h, ops).queue) && FirstInFirstOut(Run(h, ops).queue)
    decreases |ops|
  {
    hide FirstInFirstOut, Enqueue, Confirm, Service;
    if ops != [] {
      StepInv(h, ops[0]);
      match ops[0] {
        case Put(friendnum, payload, now) => PutFifo(h.queue, friendnum, payload, now);
        case Ack(friendnum, receipt) => AckFifo(h.queue, friendnum, receipt);
        case Tick(ready, code, now) => TickFifo(h.queue, ready, code, now);
      }
      RunFirstInFirstOut(Step(h, ops[0]), ops[1..]);
    }
  }

  /** Draining to empty restores the order after any violation. */
  lemma EmptyRestoresOrder(q: Queue)
    requires Inv(q) && q.count == 0
    ensures FirstInFirstOut(q)
  {
    MessagesSize(q);
    EmptyIsContiguous(q);
  }

  // ---------------------------------------------------------------------
  // Exactly when the order of arrival is kept
  // ---------------------------------------------------------------------

  lemma MessagesAreOlder(q: Queue)
    requires Inv(q)
    ensures forall m :: m in Messages(q) ==> m.stamp < q.stats.enqueued
  {
    MessagesAreSlots(q);
    hide Messages;
  }

  /** An accepted message keeps the stored ones in order of acceptance if and only if
      no stored message lies between its slot and head. */
  lemma PutInOrderIff(q: Queue, friendnum: int32, payload: bytes, now: int)
    requires Inv(q) && Ascending(Messages(q)) && Enqueue(q, friendnum, payload, now).1 == Ok
    ensures Ascending(Messages(Enqueue(q, friendnum, payload, now).0)) <==> LandsAtEnd(q)
  {
    MessagesAreOlder(q);
    EnqueueInserts(q, friendnum, payload, now);
    AppendsIff(q, friendnum, payload, now);
    hide Messages, Enqueue, Inv, LandsAtEnd, Before, After, InsertionStep, First;
    var k := InsertionStep(q);
    InsertedInOrder(Before(q, k), NewEntry(q, friendnum, payload, now), After(q, k));
  }

  lemma InsertedInOrder(b: seq<Entry>, e: Entry, c: seq<Entry>)
    requires Ascending(b + c) && forall m :: m in b + c ==> m.stamp < e.stamp
    ensures Ascending(b + [e] + c) <==> b + [e] + c == b + c + [e]
  {
    var before, after := b + c, b + [e] + c;
    if c == [] {
      assert before == b && after == b + [e] && b + c + [e] == after;
      assert forall i :: 0 <= i < |b| ==> before[i] in before && after[i] == before[i];
    } else {
      assert before[|b|] in before && after[|b| + 1] == before[|b|] && after[|b|] == e;
      assert (b + c + [e])[|b|] == c[0] == before[|b|];
    }
  }

  /** Every message the run accepts lands behind all stored ones. */
  predicate AllLandAtEnd(h: History, ops: seq<Op>)
    requires Shaped(h.queue)
    decreases |ops|
  {
    ops == [] ||
    ((ops[0].Put? && Enqueue(h.queue, ops[0].friendnum, ops[0].payload, ops[0].now).1 == Ok ==> LandsAtEnd(h.queue))
      && AllLandAtEnd(Step(h, ops[0]), ops[1..]))
  }

  /** After every step of the run the stored messages are in order of acceptance. */
  ghost predicate OrderedThroughout(h: History, ops: seq<Op>)
    requires Shaped(h.queue)
    decreases |ops|
  {
    Ascending(Messages(h.queue)) && (ops == [] || OrderedThroughout(Step(h, ops[0]), ops[1..]))
  }

  lemma StepInOrderIff(h: History, op: Op)
    requires Inv(h.queue) && Ascending(Messages(h.queue))
    ensures Ascending(Messages(Step(h, op).queue))
       <==> (op.Put? && Enqueue(h.queue, op.friendnum, op.payload, op.now).1 == Ok ==> LandsAtEnd(h.queue))
  {
    match op
    case Put(friendnum, payload, now) =>
      if Enqueue(h.queue, friendnum, payload, now).1 == Ok {
        PutInOrderIff(h.queue, friendnum, payload, now);
      } else {
        RefusedKeeps(h.queue, friendnum, payload, now);
      }
    case Ack(friendnum, receipt) => AckAscending(h.queue, friendnum, receipt);
    case Tick(ready, code, now) => TickAscending(h.queue, ready, code, now);
  }

  lemma RefusedKeeps(q: Queue, friendnum: int32, payload: bytes, now: int)
    requires Shaped(q) && Enqueue(q, friendnum, payload, now).1 != Ok
    ensures Messages(Enqueue(q, friendnum, payload, now).0) == Messages(q)
  {
  }

  /** Over every run, whatever is confirmed, retried or dropped: the order of
      acceptance is kept throughout if and only if every accepted message lands
      behind all stored ones. */
  lemma {:induction false} RunInOrderIff(h: History, ops: seq<Op>)
    requires Inv(h.queue) && Ascending(Messages(h.queue))
    ensures OrderedThroughout(h, ops) <==> AllLandAtEnd(h, ops)
    decreases |ops|
  {
    hide Ascending, Messages, Enqueue, Step, LandsAtEnd, Sound, DistinctStamps, CountState;
    if ops != [] {
      StepInv(h, ops[0]);
      StepInOrderIff(h, ops[0]);
      var h' := Step(h, ops[0]);
      if Ascending(Messages(h'.queue)) {
        RunInOrderIff(h', ops[1..]);
      } else {
        NotThroughout(h', ops[1..]);
      }
    }
  }

  lemma NotThroughout(h: History, ops: seq<Op>)
    requires Shaped(h.queue) && !Ascending(Messages(h.queue))
    ensures !OrderedThroughout(h, ops)
  {
  }

  // ---------------------------------------------------------------------
  // The unconditional claim is false
  // ---------------------------------------------------------------------

  function Waiting(x: byte, stamp: nat): Entry {
    Entry(Pending, 0, [x], 0, 0, false, 0, -1, stamp)
  }

  function InFlight(x: byte, stamp: nat): Entry {
    Entry(AwaitingAck, 0, [x], 0, 0, true, 0, stamp, stamp)
  }

  /** Three slots, all in flight. */
  function ThreeInFlight(): Queue {
    Queue([InFlight(10, 0), InFlight(11, 1), InFlight(12, 2)], 0, 0, 3, 3, Stats(3, 3, 0, 0, 0), true, [])
  }

  lemma FilledOnce(q: Queue, x: byte, slot: nat)
    requires Shaped(q) && |q.ring| == 3 && slot == q.tail == q.count == q.stats.enqueued && slot < 3
    requires !Occupied(q.ring[slot]) && q.head == 0
    ensures Enqueue(q, 0, [x], 0)
         == (q.(ring := q.ring[slot := Waiting(x, slot)], tail := if slot == 2 then 0 else slot + 1,
                count := slot + 1, stats := q.stats.(enqueued := slot + 1), dirty := true), Ok)
  {
    assert Matches(q.ring[At(q.tail, 0, 3)], AnyFree);
  }

  lemma SentOnce(q: Queue, x: byte, slot: nat)
    requires Shaped(q) && |q.ring| == 3 && q.head == 0 && 0 < q.count && slot < 3
    requires Occupied(q.ring[0]) && q.ring[slot] == Waiting(x, slot)
    requires forall i :: 0 <= i < slot ==> !Eligible(q.ring[i], 0)
    ensures Service(q, true, slot, 0)
         == Served(q.(ring := q.ring[slot := InFlight(x, slot)], inFlight := q.inFlight + 1,
                      stats := q.stats.(sent := q.stats.sent + 1)), Sent, Some(Record(0, [x])), false, slot)
  {
    assert Matches(q.ring[At(0, 0, 3)], AnyOccupied);
    assert Matches(q.ring[At(0, slot, 3)], AnyEligible(0));
    var k := First(q.ring, 0, 0, AnyEligible(0));
    assert At(0, k, 3) == k;
  }

  lemma FillsThree()
    ensures var (q1, _) := Enqueue(Fresh(3), 0, [10], 0);
            var (q2, _) := Enqueue(q1, 0, [11], 0);
            var (q3, _) := Enqueue(q2, 0, [12], 0);
            q3 == Queue([Waiting(10, 0), Waiting(11, 1), Waiting(12, 2)], 0, 0, 3, 0, Stats(3, 0, 0, 0, 0), true, [])
  {
    hide Enqueue;
    var q0 := Fresh(3);
    FilledOnce(q0, 10, 0);
    var q1 := Enqueue(q0, 0, [10], 0).0;
    FilledOnce(q1, 11, 1);
    var q2 := Enqueue(q1, 0, [11], 0).0;
    FilledOnce(q2, 12, 2);
    assert Enqueue(q2, 0, [12], 0).0.ring == [Waiting(10, 0), Waiting(11, 1), Waiting(12, 2)];
  }

  lemma SendsThree()
    ensures var ring := [Waiting(10, 0), Waiting(11, 1), Waiting(12, 2)];
            var q := Queue(ring, 0, 0, 3, 0, Stats(3, 0, 0, 0, 0), true, []);
            var s0 := Service(q, true, 0, 0);
            var s1 := Service(s0.queue, true, 1, 0);
            var s2 := Service(s1.queue, true, 2, 0);
            s2.queue == ThreeInFlight()
  {
    hide Service;
    var q := Queue([Waiting(10, 0), Waiting(11, 1), Waiting(12, 2)], 0, 0, 3, 0, Stats(3, 0, 0, 0, 0), true, []);
    SentOnce(q, 10, 0);
    var q1 := Service(q, true, 0, 0).queue;
    SentOnce(q1, 11, 1);
    var q2 := Service(q1, true, 1, 0).queue;
    SentOnce(q2, 12, 2);
    assert Service(q2, true, 2, 0).queue.ring == ThreeInFlight().ring;
  }

  /** The middle message is confirmed; the ring is no longer full. */
  lemma MiddleConfirmed()
    ensures Confirm(ThreeInFlight(), 0, 1)
         == (Queue([InFlight(10, 0), Released(InFlight(11, 1)), InFlight(12, 2)], 0, 0, 2, 2,
                   Stats(3, 3, 1, 0, 0), true, []), Ok)
  {
    var ring := ThreeInFlight().ring;
    assert Acknowledges(ring[1], 0, 1);
    assert FindAcknowledged(ring, 1, 0, 1) == 1;
    assert FindAcknowledged(ring, 0, 0, 1) == 1;
    var ring' := ring[1 := Released(ring[1])];
    assert ring' == [InFlight(10, 0), Released(InFlight(11, 1)), InFlight(12, 2)];
    assert Matches(ring'[At(0, 0, 3)], AnyOccupied);
  }

  /** The next message passes over the oldest one at tail and takes the hole. */
  lemma HoleFilled()
    ensures var q := Confirm(ThreeInFlight(), 0, 1).0;
            Enqueue(q, 0, [13], 0).0.ring == [InFlight(10, 0), Waiting(13, 3), InFlight(12, 2)] &&
            Enqueue(q, 0, [13], 0).0.head == 0 && Enqueue(q, 0, [13], 0).1 == Ok
  {
    MiddleConfirmed();
    hide Confirm;
    var q := Confirm(ThreeInFlight(), 0, 1).0;
    assert Matches(q.ring[At(0, 1, 3)], AnyFree);
    assert First(q.ring, 0, 1, AnyFree) == 1;
    assert First(q.ring, 0, 0, AnyFree) == 1;
  }

  /** Three messages are sent, and the middle one is confirmed. */
  const HOLED := [Put(0, [10], 0), Put(0, [11], 0), Put(0, [12], 0),
                  Tick(true, 0, 0), Tick(true, 1, 0), Tick(true, 2, 0), Ack(0, 1)]

  lemma RunFrom(h: History, ops: seq<Op>, i: nat)
    requires Shaped(h.queue) && i < |ops|
    ensures Run(h, ops[i..]) == Run(Step(h, ops[i]), ops[i + 1..])
  {
    assert ops[i..][1..] == ops[i + 1..];
  }

  lemma NothingToRun(h: History)
    requires Shaped(h.queue)
    ensures Run(h, []) == h
  {
  }

  lemma ReadOut(ring: seq<Entry>)
    requires |ring| == 3 && Occupied(ring[0]) && Occupied(ring[1]) && Occupied(ring[2])
    ensures Stored(Rotated(ring, 0)) == ring
  {
    assert Rotated(ring, 0) == ring;
    assert Stored(ring[1..][1..][1..]) == [];
    assert Stored(ring[1..][1..]) == [ring[2]];
    assert Stored(ring[1..]) == [ring[1], ring[2]];
  }

  lemma HoledRun()
    ensures Run(History(Fresh(3), [], [], 0), HOLED).queue == Confirm(ThreeInFlight(), 0, 1).0
  {
    hide Enqueue, Confirm, Service, Run, Messages;
    var h := History(Fresh(3), [], [], 0);
    var h1 := Step(h, HOLED[0]);
    var h2 := Step(h1, HOLED[1]);
    var h3 := Step(h2, HOLED[2]);
    var h4 := Step(h3, HOLED[3]);
    var h5 := Step(h4, HOLED[4]);
    var h6 := Step(h5, HOLED[5]);
    FillsThree();
    SendsThree();
    RunFrom(h, HOLED, 0);
    RunFrom(h1, HOLED, 1);
    RunFrom(h2, HOLED, 2);
    RunFrom(h3, HOLED, 3);
    RunFrom(h4, HOLED, 4);
    RunFrom(h5, HOLED, 5);
    RunFrom(h6, HOLED, 6);
    NothingToRun(Step(h6, HOLED[6]));
    assert HOLED[0..] == HOLED && HOLED[7..] == [];
  }

  lemma {:induction false} RunLast(h: History, ops: seq<Op>, op: Op)
    requires Shaped(h.queue)
    ensures Run(h, ops + [op]) == Step(Run(h, ops), op)
    decreases |ops|
  {
    hide Step;
    if ops == [] {
      assert [] + [op] == [op] && [op][1..] == [];
    } else {
      assert (ops + [op])[1..] == ops[1..] + [op];
      RunLast(Step(h, ops[0]), ops[1..], op);
    }
  }

  /** A message accepted last can be stored between two older ones: with three
      slots all in flight, the middle one confirmed, and one more message. */
  lemma HoleBreaksFifo()
    ensures var q := Run(History(Fresh(3), [], [], 0), HOLED + [Put(0, [13], 0)]).queue;
            Messages(q) == [InFlight(10, 0), Waiting(13, 3), InFlight(12, 2)]
            && !FirstInFirstOut(q)
  {
    hide Enqueue, Confirm, Service, Run, Messages;
    var h := History(Fresh(3), [], [], 0);
    HoledRun();
    HoleFilled();
    RunLast(h, HOLED, Put(0, [13], 0));
    var q := Run(h, HOLED + [Put(0, [13], 0)]).queue;
    ReadOut(q.ring);
    MessagesAt(q);
  }
}
