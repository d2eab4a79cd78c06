/** Every operation of the queue keeps its counting invariants. */
module MqInvariant {
  import opened Bytes
  import opened MqModel

  lemma {:induction false} CountUpdate(es: seq<Entry>, i: nat, e: Entry, state: SlotState)
    requires i < |es|
    ensures CountState(es[i := e], state) + (if es[i].state == state then 1 else 0)
         == CountState(es, state) + (if e.state == state then 1 else 0)
  {
    if i == 0 {
      assert es[0 := e][1..] == es[1..];
    } else {
      assert es[i := e][1..] == es[1..][i - 1 := e];
      CountUpdate(es[1..], i - 1, e, state);
    }
  }

  lemma {:induction false} CountPositive(es: seq<Entry>, i: nat, state: SlotState)
    requires i < |es| && es[i].state == state
    ensures 0 < CountState(es, state)
  {
    if 0 < i {
      CountPositive(es[1..], i - 1, state);
    }
  }

  /** A slot outside the counted state, unless all slots are in it. */
  lemma {:induction false} CountWitness(es: seq<Entry>, state: SlotState) returns (i: nat)
    requires CountState(es, state) < |es|
    ensures i < |es| && es[i].state != state
  {
    if es[0].state != state {
      i := 0;
    } else {
      i := CountWitness(es[1..], state);
      i := i + 1;
    }
  }

  /** Every slot is some number of steps from any other. */
  lemma Reach(start: nat, slot: nat, n: nat) returns (i: nat)
    requires start < n && slot < n
    ensures i < n && At(start, i, n) == slot
  {
    i := if start <= slot then slot - start else slot + n - start;
  }

  lemma OccupiedMeansCount(q: Queue, slot: nat)
    requires Inv(q) && slot < |q.ring| && Occupied(q.ring[slot])
    ensures 0 < q.count
    ensures q.ring[slot].state.AwaitingAck? ==> 0 < q.inFlight
  {
    CountUpdate(q.ring, slot, EMPTY_SLOT, Free);
    CountPositive(q.ring, slot, q.ring[slot].state);
  }

  lemma RoomBound(q: Queue)
    requires Inv(q)
    ensures q.count <= |q.ring|
  {
  }

  lemma SettledIsOccupied(ring: seq<Entry>, head: nat, tail: nat, count: nat)
    requires head < |ring| && tail < |ring|
    requires 0 < count && count + CountState(ring, Free) == |ring|
    ensures Occupied(ring[Settled(ring, head, tail, count)])
  {
    var i := CountWitness(ring, Free);
    var k := Reach(head, i, |ring|);
    assert Matches(ring[At(head, k, |ring|)], AnyOccupied);
  }

  /** Where head already rests on a message it stays. */
  lemma AlreadySettled(q: Queue)
    requires Inv(q)
    ensures Settled(q.ring, q.head, q.tail, q.count) == q.head
  {
  }

  lemma {:induction false} FreshCounts(n: nat, k: nat)
    requires k <= n
    ensures CountState(seq(k, i => EMPTY_SLOT), Free) == k
    ensures CountState(seq(k, i => EMPTY_SLOT), AwaitingAck) == 0
  {
    if 0 < k {
      assert seq(k, i => EMPTY_SLOT)[1..] == seq(k - 1, i => EMPTY_SLOT);
      FreshCounts(n, k - 1);
    }
  }

  lemma FreshInv(n: nat)
    requires 0 < n
    ensures Inv(Fresh(n))
  {
    FreshCounts(n, n);
  }

  lemma EnqueueInv(q: Queue, friendnum: int32, payload: bytes, now: int)
    requires Inv(q)
    ensures Inv(Enqueue(q, friendnum, payload, now).0)
  {
    var (q', code) := Enqueue(q, friendnum, payload, now);
    if code == Ok {
      var slot := At(q.tail, First(q.ring, q.tail, 0, AnyFree), |q.ring|);
      CountUpdate(q.ring, slot, q'.ring[slot], Free);
      CountUpdate(q.ring, slot, q'.ring[slot], AwaitingAck);
    }
  }

  /** The change a release makes to the counters. */
  lemma ReleaseInv(q: Queue, slot: nat, e: Entry, q': Queue)
    requires Inv(q) && slot < |q.ring| && Occupied(q.ring[slot])
    requires q'.ring == q.ring[slot := Released(e)] && q'.tail == q.tail && q'.count == Less(q.count)
    requires q'.head == Settled(q'.ring, q.head, q.tail, q'.count)
    requires q'.inFlight == if q.ring[slot].state.AwaitingAck? then Less(q.inFlight) else q.inFlight
    requires q'.stats.enqueued == q.stats.enqueued
    requires q'.stats.confirmed + q'.stats.dropped == q.stats.confirmed + q.stats.dropped + 1
    ensures Inv(q')
  {
    CountUpdate(q.ring, slot, Released(e), Free);
    CountUpdate(q.ring, slot, Released(e), AwaitingAck);
    if 0 < q'.count {
      SettledIsOccupied(q'.ring, q.head, q.tail, q'.count);
    }
  }

  lemma ConfirmInv(q: Queue, friendnum: int, receipt: int)
    requires Inv(q)
    ensures Inv(Confirm(q, friendnum, receipt).0)
  {
    var (q', code) := Confirm(q, friendnum, receipt);
    if code == Ok {
      var i := FindAcknowledged(q.ring, 0, friendnum, receipt);
      CountPositive(q.ring, i, AwaitingAck);
      ReleaseInv(q, i, q.ring[i], q');
    }
  }

  /** What a slot held just before an attempt is applied does not matter. */
  lemma AppliedOverwrites(q: Queue, slot: nat, e: Entry, a: Attempt)
    requires Shaped(q) && slot < |q.ring|
    ensures Applied(q.(ring := q.ring[slot := e]), slot, a) == Applied(q, slot, a)
  {
    assert q.ring[slot := e][slot := a.entry] == q.ring[slot := a.entry];
    assert q.ring[slot := e][slot := Released(a.entry)] == q.ring[slot := Released(a.entry)];
  }

  lemma TryOutcome(e: Entry, code: int, now: int)
    ensures Try(e, code, now).outcome != Idle
    ensures Occupied(e) ==> Occupied(Try(e, code, now).entry)
  {
  }

  /** An attempt that does not retire the message keeps it sound. */
  lemma TrySound(e: Entry, code: int, now: int)
    requires Sound(e) && Occupied(e)
    ensures var a := Try(e, code, now);
            && (a.outcome == Sent ==> a.entry.state.AwaitingAck?)
            && (a.outcome == Deferred ==> a.entry.state.Pending?)
            && a.outcome != Idle
            && (a.outcome != Dropped ==> Sound(a.entry) && a.entry.stamp == e.stamp)
  {
  }

  lemma RewriteInv(q: Queue, slot: nat, e: Entry, q': Queue)
    requires Inv(q) && slot < |q.ring| && Occupied(q.ring[slot])
    requires Occupied(e) && Sound(e) && e.stamp == q.ring[slot].stamp
    requires q' == q.(ring := q.ring[slot := e], inFlight := q'.inFlight, stats := q'.stats)
    requires q'.inFlight + (if q.ring[slot].state.AwaitingAck? then 1 else 0)
          == q.inFlight + (if e.state.AwaitingAck? then 1 else 0)
    requires q'.stats == q.stats.(sent := q'.stats.sent)
    ensures Inv(q')
  {
    CountUpdate(q.ring, slot, e, Free);
    CountUpdate(q.ring, slot, e, AwaitingAck);
  }

  lemma IdleChangesNothing(q: Queue, ready: bool, code: int, now: int)
    requires Inv(q) && Service(q, ready, code, now).outcome == Idle
    ensures Service(q, ready, code, now).queue == q
  {
    AlreadySettled(q);
  }

  lemma ServiceInv(q: Queue, ready: bool, code: int, now: int)
    requires Inv(q)
    ensures Inv(Service(q, ready, code, now).queue)
  {
    hide Sound, DistinctStamps, CountState, Try;
    AlreadySettled(q);
    var s := Service(q, ready, code, now);
    if s.outcome != Idle {
      var e := q.ring[s.slot];
      var a := Try(e, code, now);
      TrySound(e, code, now);
      if e.state.AwaitingAck? {
        CountPositive(q.ring, s.slot, AwaitingAck);
      }
      if s.outcome == Dropped {
        ReleaseInv(q, s.slot, a.entry, s.queue);
      } else {
        RewriteInv(q, s.slot, a.entry, s.queue);
      }
    } else {
      IdleChangesNothing(q, ready, code, now);
    }
  }
}
