/** The queue cannot livelock: a measure that every action lowers. */
module MqProgress {
  import opened Bytes
  import opened MqModel
  import opened MqInvariant
  import opened MqOrder
  import opened MqList

  /** What a stored message can still cost. */
  function Weight(e: Entry): int {
    2 * (MQ_MAX_ATTEMPTS - e.attempts) - (if e.state.AwaitingAck? then 1 else 0)
  }

  function Measure(ms: seq<Entry>): int {
    if ms == [] then 0 else Weight(ms[0]) + Measure(ms[1..])
  }

  ghost predicate AllSound(ms: seq<Entry>) {
    forall i :: 0 <= i < |ms| ==> Occupied(ms[i]) && Sound(ms[i])
  }

  lemma {:induction false} MeasureConcat(a: seq<Entry>, b: seq<Entry>)
    ensures Measure(a + b) == Measure(a) + Measure(b)
  {
    if a == [] {
      assert a + b == b;
    } else {
      assert (a + b)[1..] == a[1..] + b;
      MeasureConcat(a[1..], b);
    }
  }

  lemma MeasureOne(e: Entry)
    ensures Measure([e]) == Weight(e)
  {
    assert Measure([e][1..]) == 0;
  }

  lemma MeasureAt(ms: seq<Entry>, p: nat)
    requires p < |ms|
    ensures Measure(ms) == Measure(ms[..p]) + Weight(ms[p]) + Measure(ms[p + 1..])
  {
    hide Measure;
    SplitAt(ms, p);
    MeasureConcat(ms[..p] + [ms[p]], ms[p + 1..]);
    MeasureConcat(ms[..p], [ms[p]]);
    MeasureOne(ms[p]);
  }

  lemma MeasureWithout(ms: seq<Entry>, p: nat)
    requires p < |ms|
    ensures Measure(Without(ms, p)) == Measure(ms) - Weight(ms[p])
  {
    MeasureAt(ms, p);
    MeasureConcat(ms[..p], ms[p + 1..]);
  }

  lemma MeasureReplaced(ms: seq<Entry>, p: nat, e: Entry)
    requires p < |ms|
    ensures Measure(ms[p := e]) == Measure(ms) - Weight(ms[p]) + Weight(e)
  {
    hide Measure;
    MeasureAt(ms, p);
    MeasureAt(ms[p := e], p);
    assert ms[p := e][..p] == ms[..p] && ms[p := e][p + 1..] == ms[p + 1..];
  }

  /** A stored message costs at least one action and at most sixteen. */
  lemma WeightBounds(e: Entry)
    requires Sound(e) && Occupied(e)
    ensures 1 <= Weight(e) <= 2 * MQ_MAX_ATTEMPTS
  {
  }

  lemma {:induction false} MeasureBounds(ms: seq<Entry>)
    requires AllSound(ms)
    ensures |ms| <= Measure(ms) <= 2 * MQ_MAX_ATTEMPTS * |ms|
  {
    if ms != [] {
      WeightBounds(ms[0]);
      MeasureBounds(ms[1..]);
    }
  }

  lemma TryLowers(e: Entry, code: int, now: int)
    requires Sound(e) && Occupied(e)
    ensures var a := Try(e, code, now);
            a.outcome != Dropped ==>
              Occupied(a.entry) && Sound(a.entry) && Weight(a.entry) < Weight(e) &&
              a.entry.attempted && a.entry.lastAttempt == now
  {
  }

  /** Every action lowers the measure, against any transport. */
  lemma ServiceLowers(ms: seq<Entry>, ready: bool, code: int, now: int)
    requires AllSound(ms)
    ensures var s := ListService(ms, ready, code, now);
            AllSound(s.messages) && (s.outcome != Idle ==> Measure(s.messages) < Measure(ms))
  {
    hide Sound, Weight, Measure, Try;
    var p := FirstEligible(ms, now);
    if p < |ms| {
      TryLowers(ms[p], code, now);
      WeightBounds(ms[p]);
      MeasureWithout(ms, p);
      MeasureReplaced(ms, p, Try(ms[p], code, now).entry);
    }
  }

  lemma MessagesSound(q: Queue)
    requires Inv(q)
    ensures AllSound(Messages(q))
  {
    MessagesAreSlots(q);
    hide Sound, Messages, CountState, DistinctStamps;
    forall i | 0 <= i < |Messages(q)|
      ensures Occupied(Messages(q)[i]) && Sound(Messages(q)[i])
    {
      assert Messages(q)[i] in Messages(q);
    }
  }

  /** On the queue: every non-idle service call and every confirmation lowers it. */
  lemma QueueLowers(q: Queue, ready: bool, code: int, now: int, friendnum: int, receipt: int)
    requires Inv(q)
    ensures var s := Service(q, ready, code, now);
            s.outcome != Idle ==> Measure(Messages(s.queue)) < Measure(Messages(q))
    ensures var (q', c) := Confirm(q, friendnum, receipt);
            c == Ok ==> Measure(Messages(q')) < Measure(Messages(q))
  {
    hide Messages, Service, Confirm, Sound, CountState, DistinctStamps, Weight, Measure, ListService;
    MessagesSound(q);
    ServiceRefines(q, ready, code, now);
    ServiceLowers(Messages(q), ready, code, now);
    ConfirmRefines(q, friendnum, receipt);
    var (q', c) := Confirm(q, friendnum, receipt);
    if c == Ok {
      var p :| 0 <= p < |Messages(q)| && Messages(q') == Without(Messages(q), p);
      MeasureWithout(Messages(q), p);
      WeightBounds(Messages(q)[p]);
    }
  }

  // ---------------------------------------------------------------------
  // Draining
  // ---------------------------------------------------------------------

  /** One call of the event loop: its time, and the transport's answer. */
  datatype Call = Call(code: int, now: int)

  function Drain(q: Queue, calls: seq<Call>): (q': Queue)
    requires Shaped(q)
    ensures Shaped(q')
    decreases |calls|
  {
    if calls == [] then q
    else Drain(Service(q, true, calls[0].code, calls[0].now).queue, calls[1..])
  }

  /** Consecutive calls, and the first one after every earlier attempt, are at
      least the acknowledgement timeout apart. */
  ghost predicate Spaced(ms: seq<Entry>, calls: seq<Call>) {
    && (calls != [] ==> forall m :: m in ms && m.attempted ==> m.lastAttempt + MQ_ACK_TIMEOUT_SEC <= calls[0].now)
    && (forall i, j :: 0 <= i < j < |calls| ==> calls[i].now + MQ_ACK_TIMEOUT_SEC <= calls[j].now)
  }

  lemma SpacedStep(ms: seq<Entry>, calls: seq<Call>)
    requires AllSound(ms) && Spaced(ms, calls) && calls != [] && ms != []
    ensures var s := ListService(ms, true, calls[0].code, calls[0].now);
            s.outcome != Idle && Spaced(s.messages, calls[1..])
  {
    hide Measure, Weight;
    var code, now := calls[0].code, calls[0].now;
    assert ms[0] in ms && Sound(ms[0]) && Occupied(ms[0]);
    assert Eligible(ms[0], now);
    assert FirstEligible(ms, now) == 0;
    TryLowers(ms[0], code, now);
    TryOutcome(ms[0], code, now);
    var s := ListService(ms, true, code, now);
    forall m | m in s.messages && m.attempted
      ensures m.lastAttempt <= now
    {
      var i :| 0 <= i < |s.messages| && s.messages[i] == m;
      if m != Try(ms[0], code, now).entry {
        assert m in ms;
      }
    }
  }

  /** Sixteen calls per stored message, an acknowledgement timeout apart, empty the
      queue whatever the transport answers. */
  lemma {:induction false} Drains(q: Queue, calls: seq<Call>)
    requires Inv(q) && Spaced(Messages(q), calls) && Measure(Messages(q)) <= |calls|
    ensures Inv(Drain(q, calls)) && Drain(q, calls).count == 0
    decreases |calls|
  {
    hide Service, ListService, Messages, Spaced, Measure, CountState, Sound, DistinctStamps;
    MessagesSound(q);
    MeasureBounds(Messages(q));
    MessagesSize(q);
    if calls != [] {
      var q' := Service(q, true, calls[0].code, calls[0].now).queue;
      ServiceInv(q, true, calls[0].code, calls[0].now);
      if q.count == 0 {
        EmptyStays(q, calls);
      } else {
        ServiceRefines(q, true, calls[0].code, calls[0].now);
        ServiceLowers(Messages(q), true, calls[0].code, calls[0].now);
        SpacedStep(Messages(q), calls);
        Drains(q', calls[1..]);
      }
    }
  }

  lemma {:induction false} EmptyStays(q: Queue, calls: seq<Call>)
    requires Inv(q) && q.count == 0
    ensures Drain(q, calls) == q
    decreases |calls|
  {
    if calls != [] {
      EmptyStays(q, calls[1..]);
    }
  }

  lemma SixteenCallsPerMessage(q: Queue, calls: seq<Call>)
    requires Inv(q) && Spaced(Messages(q), calls) && 2 * MQ_MAX_ATTEMPTS * q.count <= |calls|
    ensures Drain(q, calls).count == 0
  {
    MessagesSound(q);
    MessagesSize(q);
    MeasureBounds(Messages(q));
    Drains(q, calls);
  }
}
