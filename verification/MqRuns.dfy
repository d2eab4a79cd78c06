/** Whole runs of the queue: conservation and the attempt budget. */
module MqRuns {
  import opened Bytes
  import opened MqModel
  import opened MqInvariant

  datatype Op =
    | Put(friendnum: int32, payload: bytes, now: int)
    | Ack(friendnum: int32, receipt: int)
    | Tick(ready: bool, code: int, now: int)

  /** The queue with the history of its run: the stamps handed to the transport,
      the stamps retired, and the number of acknowledgement timeouts. */
  datatype History = History(queue: Queue, handed: seq<nat>, retired: seq<nat>, timeouts: nat)

  function Step(h: History, op: Op): (h': History)
    requires Shaped(h.queue)
    ensures Shaped(h'.queue)
  {
    match op
    case Put(friendnum, payload, now) =>
      h.(queue := Enqueue(h.queue, friendnum, payload, now).0)
    case Ack(friendnum, receipt) =>
      h.(queue := Confirm(h.queue, friendnum, receipt).0)
    case Tick(ready, code, now) =>
      Recorded(h, Service(h.queue, ready, code, now))
  }

  /** The history after a service call. */
  function Recorded(h: History, s: Served): History
    requires s.slot < |h.queue.ring|
  {
    var stamp := h.queue.ring[s.slot].stamp;
    History(s.queue,
            if s.handed.Some? then h.handed + [stamp] else h.handed,
            if s.outcome == Dropped then h.retired + [stamp] else h.retired,
            if s.timedOut then h.timeouts + 1 else h.timeouts)
  }

  function Run(h: History, ops: seq<Op>): (h': History)
    requires Shaped(h.queue)
    ensures Shaped(h'.queue)
    decreases |ops|
  {
    if ops == [] then h else Run(Step(h, ops[0]), ops[1..])
  }

  lemma StepInv(h: History, op: Op)
    requires Inv(h.queue)
    ensures Inv(Step(h, op).queue)
  {
    hide Inv, Enqueue, Confirm, Service;
    match op
    case Put(friendnum, payload, now) => EnqueueInv(h.queue, friendnum, payload, now);
    case Ack(friendnum, receipt) => ConfirmInv(h.queue, friendnum, receipt);
    case Tick(ready, code, now) => ServiceInv(h.queue, ready, code, now);
  }

  // ---------------------------------------------------------------------
  // The attempt budget and the totals
  // ---------------------------------------------------------------------

  /** How often the message with this stamp was handed to the transport. */
  function Times(log: seq<nat>, stamp: nat): nat {
    multiset(log)[stamp]
  }

  lemma TimesAppend(log: seq<nat>, stamp: nat)
    ensures forall s :: Times(log + [stamp], s) == Times(log, s) + (if s == stamp then 1 else 0)
  {
    assert multiset(log + [stamp]) == multiset(log) + multiset{stamp};
  }

  function Spent(e: Entry): nat {
    e.attempts + (if e.state.AwaitingAck? then 1 else 0)
  }

  /** What is true of every history that began with an empty queue. */
  ghost predicate Budgeted(h: History) {
    && (forall s :: Times(h.handed, s) <= MQ_MAX_ATTEMPTS)
    && (forall s :: h.queue.stats.enqueued <= s ==> Times(h.handed, s) == 0)
    && (forall i :: 0 <= i < |h.queue.ring| && Occupied(h.queue.ring[i])
          ==> Times(h.handed, h.queue.ring[i].stamp) == Spent(h.queue.ring[i]))
  }

  ghost predicate Totals(h: History) {
    && h.queue.stats.enqueued == h.queue.stats.confirmed + h.queue.stats.dropped + h.queue.count
    && h.queue.stats.sent == h.queue.stats.confirmed + h.queue.inFlight + h.timeouts
  }

  /** The drop hook was told, for each retired message, how often it was sent. */
  ghost predicate DropsReported(h: History) {
    && |h.retired| == |h.queue.drops| == h.queue.stats.dropped
    && (forall i :: 0 <= i < |h.retired| ==>
          h.retired[i] < h.queue.stats.enqueued &&
          h.queue.drops[i].attempts == Times(h.handed, h.retired[i]))
    && (forall i, j :: 0 <= i < |h.retired| && 0 <= j < |h.queue.ring| && Occupied(h.queue.ring[j])
          ==> h.queue.ring[j].stamp != h.retired[i])
  }

  lemma TrySpends(e: Entry, code: int, now: int)
    requires Sound(e) && Occupied(e)
    ensures var a := Try(e, code, now);
            var spent := Spent(e) + (if a.handed.Some? then 1 else 0);
            && spent <= MQ_MAX_ATTEMPTS
            && a.entry.stamp == e.stamp
            && (a.outcome == Dropped ==> a.entry.attempts == spent)
            && (a.outcome != Dropped ==> Spent(a.entry) == spent)
            && (a.outcome == Sent <==> a.entry.state.AwaitingAck?)
  {
  }

  lemma TickBudget(h: History, slot: nat, code: int, now: int)
    requires Inv(h.queue) && slot < |h.queue.ring| && Occupied(h.queue.ring[slot])
    requires Budgeted(h)
    ensures Budgeted(Recorded(h, Act(h.queue, slot, code, now)))
  {
    hide Settled, CountState, Try;
    var e := h.queue.ring[slot];
    TrySpends(e, code, now);
    TryOutcome(e, code, now);
    TimesAppend(h.handed, e.stamp);
    assert Sound(e);
  }

  lemma TickDrops(h: History, slot: nat, code: int, now: int)
    requires Inv(h.queue) && slot < |h.queue.ring| && Occupied(h.queue.ring[slot])
    requires Budgeted(h) && DropsReported(h)
    ensures DropsReported(Recorded(h, Act(h.queue, slot, code, now)))
  {
    hide Settled, CountState, Try;
    var e := h.queue.ring[slot];
    TrySpends(e, code, now);
    TryOutcome(e, code, now);
    TimesAppend(h.handed, e.stamp);
    assert Sound(e);
  }

  lemma TickTotals(h: History, slot: nat, code: int, now: int)
    requires Inv(h.queue) && slot < |h.queue.ring| && Occupied(h.queue.ring[slot])
    requires h.queue.stats.sent == h.queue.stats.confirmed + h.queue.inFlight + h.timeouts
    ensures var s := Act(h.queue, slot, code, now);
            s.queue.stats.sent == s.queue.stats.confirmed + s.queue.inFlight
                                  + (if s.timedOut then h.timeouts + 1 else h.timeouts)
  {
    hide Settled, Try, Sound, DistinctStamps, CountState;
    TryOutcome(h.queue.ring[slot], code, now);
    OccupiedMeansCount(h.queue, slot);
  }

  ghost predicate Accounted(h: History) {
    Budgeted(h) && Totals(h) && DropsReported(h)
  }

  lemma PutAccounted(h: History, friendnum: int32, payload: bytes, now: int)
    requires Inv(h.queue) && Accounted(h)
    ensures Accounted(h.(queue := Enqueue(h.queue, friendnum, payload, now).0))
  {
    hide CountState, First, Sound;
  }

  lemma AckAccounted(h: History, friendnum: int, receipt: int)
    requires Inv(h.queue) && Accounted(h)
    ensures Accounted(h.(queue := Confirm(h.queue, friendnum, receipt).0))
  {
    hide CountState, Settled, Sound;
    var i := FindAcknowledged(h.queue.ring, 0, friendnum, receipt);
    if i < |h.queue.ring| {
      OccupiedMeansCount(h.queue, i);
    }
  }

  lemma TickAccounted(h: History, ready: bool, code: int, now: int)
    requires Inv(h.queue) && Accounted(h)
    ensures Accounted(Recorded(h, Service(h.queue, ready, code, now)))
  {
    hide Try, Act, Budgeted, DropsReported, CountState, DistinctStamps, Sound, Settled;
    AlreadySettled(h.queue);
    ServiceInv(h.queue, ready, code, now);
    var s := Service(h.queue, ready, code, now);
    if s.outcome == Idle {
      IdleChangesNothing(h.queue, ready, code, now);
      IdleHandsNothing(h.queue, ready, code, now);
      assert Recorded(h, s) == h;
    } else {
      TickBudget(h, s.slot, code, now);
      TickDrops(h, s.slot, code, now);
      TickTotals(h, s.slot, code, now);
    }
  }

  lemma IdleHandsNothing(q: Queue, ready: bool, code: int, now: int)
    requires Inv(q) && Service(q, ready, code, now).outcome == Idle
    ensures Service(q, ready, code, now).handed == None && !Service(q, ready, code, now).timedOut
  {
  }

  lemma StepAccounted(h: History, op: Op)
    requires Inv(h.queue) && Accounted(h)
    ensures Inv(Step(h, op).queue) && Accounted(Step(h, op))
  {
    StepInv(h, op);
    hide Inv, Accounted, Enqueue, Confirm, Service;
    match op
    case Put(friendnum, payload, now) => PutAccounted(h, friendnum, payload, now);
    case Ack(friendnum, receipt) => AckAccounted(h, friendnum, receipt);
    case Tick(ready, code, now) => TickAccounted(h, ready, code, now);
  }

  /** Over every run from an empty queue, against any transport: no message is
      handed to it more than MQ_MAX_ATTEMPTS times, the totals balance, and every
      retirement is reported with the true number of transmissions. */
  lemma {:induction false} RunAccounted(h: History, ops: seq<Op>)
    requires Inv(h.queue) && Accounted(h)
    ensures Inv(Run(h, ops).queue) && Accounted(Run(h, ops))
    decreases |ops|
  {
    hide Accounted, Step;
    if ops != [] {
      StepAccounted(h, ops[0]);
      RunAccounted(Step(h, ops[0]), ops[1..]);
    }
  }

  lemma FreshAccounted(n: nat)
    requires 0 < n
    ensures Inv(Fresh(n)) && Accounted(History(Fresh(n), [], [], 0))
  {
    FreshInv(n);
  }
}
