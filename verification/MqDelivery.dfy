/** Delivery in plain numbers: when a message is due, what each answer of the transport
    and each acknowledgement does to the stored messages, and what is accepted. */
module MqDelivery {
  import opened Bytes
  import opened MqModel
  import opened MqInvariant
  import opened MqOrder
  import opened MqList
  import opened MqFifo
  import opened MqRuns

  /** A message may be sent again one second after a failed attempt, and counts as lost
      twenty-five seconds after it was sent. */
  predicate Due(m: Entry, now: int) {
    || (m.state == Pending && (m.attempted ==> m.lastAttempt + 1 <= now))
    || (m.state == AwaitingAck && m.lastAttempt + 25 <= now)
  }

  /** The attempts a message has behind it: one that was not acknowledged in time
      counts. */
  function Behind(m: Entry): nat {
    if m.state == AwaitingAck then m.attempts + 1 else m.attempts
  }

  lemma DueIsEligible(m: Entry, now: int)
    ensures Due(m, now) <==> Eligible(m, now)
  {
  }

  lemma FirstDue(ms: seq<Entry>, now: int)
    ensures FirstEligible(ms, now) == |ms| <==> forall m :: m in ms ==> !Due(m, now)
    ensures FirstEligible(ms, now) < |ms| ==>
              Due(ms[FirstEligible(ms, now)], now) &&
              forall j :: 0 <= j < FirstEligible(ms, now) ==> !Due(ms[j], now)
  {
    hide Eligible, Due;
    forall m
      ensures Due(m, now) <==> Eligible(m, now)
    {
      DueIsEligible(m, now);
    }
    var p := FirstEligible(ms, now);
    if p < |ms| {
      assert ms[p] in ms;
    }
  }

  /** The message at place p, and what one call does about it: it is dropped when its
      eight attempts are used up or the answer is -1; otherwise it stays in its place, in
      flight when the answer is a receipt, and pending with one more attempt when not. */
  ghost predicate ActsOn(ms: seq<Entry>, p: nat, code: int, now: int, ms': seq<Entry>, outcome: Outcome,
                         handed: Option<Record>)
    requires p < |ms|
  {
    var m := ms[p];
    var behind := Behind(m);
    && handed == (if behind < 8 then Some(Record(m.friendnum, m.payload)) else None)
    && (outcome == Dropped <==> behind >= 8 || (code < 0 && (code == -1 || behind + 1 >= 8)))
    && (outcome == Sent <==> behind < 8 && 0 <= code)
    && (outcome == Deferred <==> behind + 1 < 8 && code < -1)
    && ms' == match outcome
              case Dropped => ms[..p] + ms[p + 1..]
              case Sent => ms[p := m.(state := AwaitingAck, receipt := code, attempts := behind, lastAttempt := now,
                                      attempted := true)]
              case Deferred => ms[p := m.(state := Pending, receipt := -1, attempts := behind + 1, lastAttempt := now,
                                          attempted := true)]
              case Idle => ms
  }

  lemma TryActs(ms: seq<Entry>, p: nat, code: int, now: int)
    requires p < |ms| && Occupied(ms[p]) && Sound(ms[p])
    ensures var a := Try(ms[p], code, now);
            ActsOn(ms, p, code, now, if a.outcome == Dropped then Without(ms, p) else ms[p := a.entry], a.outcome,
                   a.handed)
  {
  }

  /** A service call, exactly. It is idle if and only if no transport is supplied or no
      message is due, and then changes nothing; otherwise it acts on the first message
      that is due and on no other. */
  lemma ServiceExactly(q: Queue, ready: bool, code: int, now: int)
    requires Inv(q)
    ensures var s := Service(q, ready, code, now);
            var ms := Messages(q);
            && (s.outcome == Idle <==> !ready || forall m :: m in ms ==> !Due(m, now))
            && (s.outcome == Idle ==> s.queue == q && s.handed == None)
            && (s.outcome != Idle ==>
                  exists p: nat ::
                    && p < |ms| && Due(ms[p], now) && (forall j :: 0 <= j < p ==> !Due(ms[j], now))
                    && ActsOn(ms, p, code, now, Messages(s.queue), s.outcome, s.handed))
  {
    hide Messages, Service, Sound, CountState, DistinctStamps, Try, Eligible, Due, ActsOn;
    ServiceRefines(q, ready, code, now);
    var ms := Messages(q);
    FirstDue(ms, now);
    var p := FirstEligible(ms, now);
    if ready && p < |ms| {
      MessageIsSound(q, p);
      TryOutcome(ms[p], code, now);
      TryActs(ms, p, code, now);
    } else {
      IdleChangesNothing(q, ready, code, now);
    }
  }

  lemma MessageIsSound(q: Queue, p: nat)
    requires Inv(q) && p < |Messages(q)|
    ensures Occupied(Messages(q)[p]) && Sound(Messages(q)[p])
  {
    MessagesAreSlots(q);
    hide Messages, CountState, DistinctStamps;
    assert Messages(q)[p] in Messages(q);
  }

  /** What is reported when a message is given up: its friend, and the attempts made. */
  lemma DropIsReported(q: Queue, ready: bool, code: int, now: int)
    requires Inv(q)
    ensures var s := Service(q, ready, code, now);
            if s.outcome == Dropped
            then exists m :: m in Messages(q) &&
                             s.queue.drops == q.drops + [Drop(m.friendnum, if Behind(m) < 8 then Behind(m) + 1 else 8)]
                             && (Behind(m) + 1 < 8 ==> code == -1)
            else s.queue.drops == q.drops
  {
    hide Settled, CountState, DistinctStamps;
    AlreadySettled(q);
    var s := Service(q, ready, code, now);
    if s.outcome == Dropped {
      var m := q.ring[s.slot];
      MessagesAreSlots(q);
      hide Messages;
      assert m in Messages(q);
      assert Sound(m);
    }
  }

  /** Unless the transport answers -1, every message that is given up was handed over
      eight times. */
  lemma {:induction false} OnlyFatalCutsShort(h: History, ops: seq<Op>)
    requires Inv(h.queue) && forall i :: 0 <= i < |ops| ==> ops[i].Tick? ==> ops[i].code != -1
    requires forall i :: 0 <= i < |h.queue.drops| ==> h.queue.drops[i].attempts == 8
    ensures forall i :: 0 <= i < |Run(h, ops).queue.drops| ==> Run(h, ops).queue.drops[i].attempts == 8
    decreases |ops|
  {
    hide Sound, DistinctStamps, CountState, Service, Messages, Behind, Enqueue, Confirm;
    if ops != [] {
      StepInv(h, ops[0]);
      match ops[0] {
        case Put(friendnum, payload, now) => KeepsDrops(h.queue, friendnum, payload, now, 0, 0);
        case Ack(friendnum, receipt) => KeepsDrops(h.queue, 0, [], 0, friendnum, receipt);
        case Tick(ready, code, now) => DropIsReported(h.queue, ready, code, now);
      }
      OnlyFatalCutsShort(Step(h, ops[0]), ops[1..]);
    }
  }

  lemma KeepsDrops(q: Queue, friendnum: int32, payload: bytes, now: int, peer: int, receipt: int)
    requires Shaped(q)
    ensures Enqueue(q, friendnum, payload, now).0.drops == q.drops
    ensures Confirm(q, peer, receipt).0.drops == q.drops
  {
  }

  // ---------------------------------------------------------------------
  // Acknowledgements
  // ---------------------------------------------------------------------

  /** The message is in flight to this friend under this receipt. */
  predicate Answers(m: Entry, friendnum: int, receipt: int) {
    m.state == AwaitingAck && m.friendnum == friendnum && m.receipt == receipt
  }

  /** An acknowledgement, exactly. It is accepted if and only if it names a friend and a
      receipt under which a message of that friend is in flight; then one such message
      leaves the list, and nothing else of it changes. */
  lemma ConfirmExactly(q: Queue, friendnum: int, receipt: int)
    requires Inv(q)
    ensures var (q', code) := Confirm(q, friendnum, receipt);
            var ms := Messages(q);
            && (code == ErrRange <==> friendnum < 0 || receipt < 0)
            && (code == Ok <==> 0 <= friendnum && 0 <= receipt && exists m :: m in ms && Answers(m, friendnum, receipt))
            && (code == ErrNotFound <==>
                  0 <= friendnum && 0 <= receipt && forall m :: m in ms ==> !Answers(m, friendnum, receipt))
            && (code != Ok ==> q' == q)
            && (code == Ok ==> exists p: nat :: p < |ms| && Answers(ms[p], friendnum, receipt) &&
                                                Messages(q') == ms[..p] + ms[p + 1..])
  {
    ConfirmRefines(q, friendnum, receipt);
    hide Messages, Sound, CountState, DistinctStamps, Confirm;
    var (q', code) := Confirm(q, friendnum, receipt);
    var ms := Messages(q);
    ConfirmCodes(q, friendnum, receipt);
    assert forall m :: Answers(m, friendnum, receipt) <==> Acknowledges(m, friendnum, receipt);
    if code == Ok {
      var p :| 0 <= p < |ms| && Acknowledges(ms[p], friendnum, receipt) && Messages(q') == Without(ms, p);
      assert ms[p] in ms;
    }
  }

  lemma ConfirmCodes(q: Queue, friendnum: int, receipt: int)
    requires Shaped(q)
    ensures Confirm(q, friendnum, receipt).1 in {Ok, ErrRange, ErrNotFound}
    ensures Confirm(q, friendnum, receipt).1 == ErrRange <==> friendnum < 0 || receipt < 0
  {
  }

  /** Of several such messages the one in the lowest slot is taken. */
  lemma ConfirmsLowestSlot(q: Queue, friendnum: int, receipt: int)
    requires Inv(q) && Confirm(q, friendnum, receipt).1 == Ok
    ensures exists i :: 0 <= i < |q.ring| && Answers(q.ring[i], friendnum, receipt)
                        && (forall j :: 0 <= j < i ==> !Answers(q.ring[j], friendnum, receipt))
                        && forall j :: 0 <= j < |q.ring| && j != i ==>
                             Confirm(q, friendnum, receipt).0.ring[j] == q.ring[j]
  {
    hide Sound, CountState, DistinctStamps, Settled;
    var i := FindAcknowledged(q.ring, 0, friendnum, receipt);
    assert forall j :: 0 <= j < |q.ring| ==>
        (Answers(q.ring[j], friendnum, receipt) <==> Acknowledges(q.ring[j], friendnum, receipt));
  }

  /** A message that was sent can be acknowledged: by its friend, under the receipt the
      transport gave. */
  lemma SentCanBeConfirmed(q: Queue, code: int, now: int)
    requires Inv(q) && Service(q, true, code, now).outcome == Sent
    ensures var s := Service(q, true, code, now);
            s.handed.Some? && 0 <= code && Confirm(s.queue, s.handed.value.friendnum, code).1 == Ok
  {
    ServiceExactly(q, true, code, now);
    ServiceInv(q, true, code, now);
    hide Messages, Service, Sound, DistinctStamps, CountState, Confirm, Due, ActsOn;
    var s := Service(q, true, code, now);
    var ms := Messages(q);
    var p: nat :| p < |ms| && ActsOn(ms, p, code, now, Messages(s.queue), s.outcome, s.handed);
    SentIsInFlight(ms, p, code, now, Messages(s.queue), s.handed);
    var m := Messages(s.queue)[p];
    MessageIsSound(q, p);
    FriendIsValid(ms[p]);
    assert m in Messages(s.queue) && Answers(m, ms[p].friendnum, code);
    ConfirmExactly(s.queue, ms[p].friendnum, code);
  }

  lemma SentIsInFlight(ms: seq<Entry>, p: nat, code: int, now: int, ms': seq<Entry>, handed: Option<Record>)
    requires p < |ms| && ActsOn(ms, p, code, now, ms', Sent, handed)
    ensures |ms'| == |ms| && 0 <= code && Answers(ms'[p], ms[p].friendnum, code)
    ensures handed == Some(Record(ms[p].friendnum, ms[p].payload))
  {
  }

  lemma FriendIsValid(m: Entry)
    requires Occupied(m) && Sound(m)
    ensures 0 <= m.friendnum
  {
  }

  // ---------------------------------------------------------------------
  // Accepting
  // ---------------------------------------------------------------------

  /** An enqueue, exactly: which messages are accepted, and what an accepted one is. */
  lemma EnqueueExactly(q: Queue, friendnum: int32, payload: bytes, now: int)
    requires Inv(q)
    ensures var (q', code) := Enqueue(q, friendnum, payload, now);
            var ms := Messages(q);
            && (code == ErrRange <==> friendnum < 0 || |payload| == 0 || 1372 <= |payload|)
            && (code == Ok <==> 0 <= friendnum && 0 < |payload| < 1372 && |ms| < |q.ring|)
            && (code in {Ok, ErrRange, ErrFull})
            && (code != Ok ==> Messages(q') == ms)
            && (code == Ok ==>
                  exists p: nat, e ::
                    && p <= |ms| && Messages(q') == ms[..p] + [e] + ms[p..]
                    && e.friendnum == friendnum && e.payload == payload && e.enqueuedAt == now
                    && e.state == Pending && e.attempts == 0 && !e.attempted && e.receipt == -1)
  {
    MessagesSize(q);
    if Acceptable(friendnum, payload) {
      FullIffAllOccupied(q, friendnum, payload, now);
      RoomBound(q);
    }
    var (q', code) := Enqueue(q, friendnum, payload, now);
    if code == Ok {
      EnqueueInserts(q, friendnum, payload, now);
      hide Before, After, Enqueue, Inv, Messages;
      var k := InsertionStep(q);
      var b, e, c := Before(q, k), NewEntry(q, friendnum, payload, now), After(q, k);
      assert (b + c)[..|b|] == b && (b + c)[|b|..] == c;
      assert Messages(q') == Messages(q)[..|b|] + [e] + Messages(q)[|b|..];
    }
  }
}
