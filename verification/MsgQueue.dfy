/** The store-and-forward delivery queue: a ring of slots updated in place. */
module MsgQueues {
  import opened Bytes
  import opened MqModel
  import opened MqInvariant
  import opened MqOrder

  class MsgQueue {
    const ring: array<Entry>
    var head: nat        // where scans start
    var tail: nat        // where the search for a free slot starts
    var count: nat       // messages stored
    var inFlight: nat    // messages sent and not yet answered
    var stats: Stats
    var dirty: bool      // what the change hook sets
    var drops: seq<Drop> // what the drop hook was told

    /** The value the object stands for. */
    ghost function Model(): Queue
      reads this, ring
    {
      Queue(ring[..], head, tail, count, inFlight, stats, dirty, drops)
    }

    ghost predicate Valid()
      reads this, ring
    {
      Inv(Model())
    }

    constructor (capacity: nat)
      requires 0 < capacity
      ensures Valid() && fresh(ring) && ring.Length == capacity
      ensures Model() == Fresh(capacity)
    {
      ring := new Entry[capacity](_ => EMPTY_SLOT);
      head, tail, count, inFlight := 0, 0, 0, 0;
      stats := Stats(0, 0, 0, 0, 0);
      dirty := false;
      drops := [];
      new;
      assert ring[..] == Fresh(capacity).ring;
      FreshInv(capacity);
    }

    method ReleaseSlot(slot: nat)
      requires slot < ring.Length && Occupied(ring[slot]) && 0 < count
      requires ring[slot].state.AwaitingAck? ==> 0 < inFlight
      modifies this`count, this`inFlight, ring
      ensures ring[..] == old(ring[..])[slot := Released(old(ring[slot]))]
      ensures ring[slot].state == Free && ring[slot].payload == [] && ring[slot].receipt == -1
      ensures ring[slot].attempts == 0 && !ring[slot].attempted
      ensures count == old(count) - 1
      ensures inFlight == old(inFlight) - (if old(ring[slot]).state.AwaitingAck? then 1 else 0)
    {
      if ring[slot].state == AwaitingAck {
        inFlight := inFlight - 1;
      }
      count := count - 1;
      ring[slot] := ring[slot].(state := Free, receipt := -1, payload := [], attempts := 0, attempted := false);
    }

    /** Moves tail to a free slot; found is false when the ring is full. */
    method FindFreeSlot() returns (found: bool, slot: nat)
      requires Valid()
      modifies this`tail
      ensures var k := First(ring[..], old(tail), 0, AnyFree);
              && (found <==> k < ring.Length)
              && (found ==> slot == tail == At(old(tail), k, ring.Length))
              && (!found ==> tail == old(tail))
    {
      var i := 0;
      while i < ring.Length
        invariant 0 <= i <= ring.Length
        invariant tail == At(old(tail), i, ring.Length)
        invariant First(ring[..], old(tail), 0, AnyFree) == First(ring[..], old(tail), i, AnyFree)
      {
        if ring[tail].state == Free {
          return true, tail;
        }
        AtIsRemainder(tail, 1, ring.Length);
        tail := (tail + 1) % ring.Length;
        i := i + 1;
      }
      return false, 0;
    }

    /** Moves head past released slots. */
    method AdvanceHead()
      requires Shaped(Model()) && count + CountState(ring[..], Free) == ring.Length
      modifies this`head
      ensures head == Settled(ring[..], old(head), tail, count)
    {
      ghost var i := 0;
      ghost var goal := First(ring[..], head, 0, AnyOccupied);
      if 0 < count {
        SettledIsOccupied(ring[..], head, tail, count);
      }
      while 0 < count && ring[head].state == Free
        invariant i <= ring.Length
        invariant 0 < count ==> i <= goal && head == At(old(head), i, ring.Length)
        invariant count == 0 ==> head == old(head)
        decreases ring.Length - i
      {
        AtIsRemainder(head, 1, ring.Length);
        head := (head + 1) % ring.Length;
        i := i + 1;
      }
      if count == 0 {
        head := tail;
      }
    }

    /** Shows every stored message to a visitor once, oldest first. The walk stops
        as soon as count messages were met. */
    method ForEach() returns (visited: seq<Record>)
      requires Valid()
      ensures visited == Records(Messages(Model()))
    {
      hide Stored, Sound, DistinctStamps, CountState, Records, Rotated;
      ghost var q := Model();
      ghost var r := Rotated(ring[..], head);
      MessagesSize(q);
      visited := [];
      assert r[..0] == [];
      StoredNone(r[..0]);
      var i := 0;
      while i < ring.Length && |visited| < count
        invariant 0 <= i <= ring.Length
        invariant visited == Records(Stored(r[..i]))
      {
        AtIsRemainder(head, i, ring.Length);
        RotatedUpdate(ring[..], head, i, EMPTY_SLOT);
        StoredNext(r, i);
        assert Stored(r[..i]) + [] == Stored(r[..i]);
        var e := ring[(head + i) % ring.Length];
        if e.state != Free {
          visited := visited + [Record(e.friendnum, e.payload)];
          RecordsNext(Stored(r[..i]), e);
        }
        i := i + 1;
      }
      if i < ring.Length {
        StoredPrefixSize(r, i);
        StoredEarly(r, i);
      } else {
        assert r[..i] == r;
      }
    }

    method EnqueueMessage(friendnum: int32, payload: bytes, now: int) returns (code: Code)
      requires Valid()
      modifies this, ring
      ensures Valid()
      ensures (Model(), code) == Enqueue(old(Model()), friendnum, payload, now)
    {
      hide Sound, DistinctStamps, CountState;
      EnqueueInv(Model(), friendnum, payload, now);
      if friendnum < 0 || |payload| == 0 || MQ_PAYLOAD_MAX <= |payload| {
        return ErrRange;
      }
      var found, slot := FindFreeSlot();
      if !found {
        stats := stats.(fullRejections := stats.fullRejections + 1);
        return ErrFull;
      }
      ring[slot] := Entry(Pending, friendnum, payload, now, 0, false, 0, -1, stats.enqueued);
      count := count + 1;
      stats := stats.(enqueued := stats.enqueued + 1);
      if count == 1 {
        head := slot;
      }
      AtIsRemainder(slot, 1, ring.Length);
      tail := (slot + 1) % ring.Length;
      dirty := true;
      return Ok;
    }

    method ConfirmMessage(friendnum: int, receipt: int) returns (code: Code)
      requires Valid()
      modifies this, ring
      ensures Valid()
      ensures (Model(), code) == Confirm(old(Model()), friendnum, receipt)
    {
      hide Sound, DistinctStamps, CountState, Settled;
      ConfirmInv(Model(), friendnum, receipt);
      if friendnum < 0 || receipt < 0 {
        return ErrRange;
      }
      var i := 0;
      while i < ring.Length
        invariant 0 <= i <= ring.Length
        invariant FindAcknowledged(ring[..], 0, friendnum, receipt)
               == FindAcknowledged(ring[..], i, friendnum, receipt)
      {
        if ring[i].state == AwaitingAck && ring[i].friendnum == friendnum && ring[i].receipt == receipt {
          CountPositive(ring[..], i, AwaitingAck);
          CountUpdate(ring[..], i, Released(ring[i]), Free);
          ReleaseSlot(i);
          stats := stats.(confirmed := stats.confirmed + 1);
          AdvanceHead();
          dirty := true;
          return Ok;
        }
        i := i + 1;
      }
      return ErrNotFound;
    }

    /** Gives a message up for good, reports it, and settles head. */
    method Retire(slot: nat)
      requires Shaped(Model()) && slot < ring.Length && ring[slot].state == Pending && 0 < count
      requires count + CountState(ring[..], Free) == ring.Length
      modifies this, ring
      ensures var q, e := old(Model()), old(ring[slot]);
              var ring' := q.ring[slot := Released(e)];
              Model() == q.(ring := ring', head := Settled(ring', q.head, q.tail, q.count - 1),
                            count := q.count - 1, dirty := true,
                            stats := q.stats.(dropped := q.stats.dropped + 1),
                            drops := q.drops + [Drop(e.friendnum, e.attempts)])
    {
      var friendnum, attempts := ring[slot].friendnum, ring[slot].attempts;
      CountUpdate(ring[..], slot, Released(ring[slot]), Free);
      ReleaseSlot(slot);
      stats := stats.(dropped := stats.dropped + 1);
      drops := drops + [Drop(friendnum, attempts)];
      dirty := true;
      AdvanceHead();
    }

    /** Rewrites a stored entry, which stays stored. */
    method Rewrite(slot: nat, e: Entry)
      requires slot < ring.Length && Occupied(ring[slot]) && Occupied(e)
      modifies ring
      ensures ring[..] == old(ring[..])[slot := e]
      ensures CountState(ring[..], Free) == old(CountState(ring[..], Free))
    {
      CountUpdate(ring[..], slot, e, Free);
      ring[slot] := e;
    }

    /** Hands a pending message to the transport. */
    method Transmit(slot: nat, code: int, now: int) returns (outcome: Outcome, packet: Record)
      requires Shaped(Model()) && slot < ring.Length && ring[slot].state == Pending && 0 < count
      requires count + CountState(ring[..], Free) == ring.Length
      modifies this, ring
      ensures var a := Hand(old(ring[slot]), code, now);
              Attempt(a.entry, outcome, Some(packet)) == a && Model() == Applied(old(Model()), slot, a)
    {
      hide CountState, Settled;
      packet := Record(ring[slot].friendnum, ring[slot].payload);
      Rewrite(slot, ring[slot].(lastAttempt := now, attempted := true));
      if code >= 0 {
        ring[slot] := ring[slot].(receipt := code, state := AwaitingAck);
        inFlight := inFlight + 1;
        stats := stats.(sent := stats.sent + 1);
        return Sent, packet;
      }
      Rewrite(slot, ring[slot].(attempts := ring[slot].attempts + 1));
      if code == MQ_SEND_FATAL || ring[slot].attempts >= MQ_MAX_ATTEMPTS {
        assert Model() == old(Model()).(ring := old(ring[..])[slot := ring[slot]]);
        AppliedOverwrites(old(Model()), slot, ring[slot], Hand(old(ring[slot]), code, now));
        Retire(slot);
        return Dropped, packet;
      }
      return Deferred, packet;
    }

    /** Inspects one slot; acted is false when its window is still open. */
    method Inspect(slot: nat, code: int, now: int)
        returns (acted: bool, outcome: Outcome, handed: Option<Record>, ghost timedOut: bool)
      requires Valid() && slot < ring.Length
      modifies this, ring
      ensures acted <==> Eligible(old(ring[slot]), now)
      ensures !acted ==> Model() == old(Model()) && handed == None
      ensures acted ==> Served(Model(), outcome, handed, timedOut, slot) == Act(old(Model()), slot, code, now)
    {
      hide Sound, DistinctStamps, CountState, Settled, Hand;
      handed, timedOut := None, false;
      if ring[slot].state == Free {
        return false, Idle, handed, timedOut;
      }
      OccupiedMeansCount(Model(), slot);

      if ring[slot].state == AwaitingAck {
        if now - ring[slot].lastAttempt < MQ_ACK_TIMEOUT_SEC {
          return false, Idle, handed, timedOut;
        }
        timedOut := true;
        inFlight := inFlight - 1;
        Rewrite(slot, Expired(ring[slot]));
        if ring[slot].attempts >= MQ_MAX_ATTEMPTS {
          ghost var q1 := old(Model()).(inFlight := inFlight);
          assert Model() == q1.(ring := q1.ring[slot := ring[slot]]);
          AppliedOverwrites(q1, slot, ring[slot], Attempt(ring[slot], Dropped, None));
          Retire(slot);
          return true, Dropped, handed, timedOut;
        }
      }

      if ring[slot].attempted && now - ring[slot].lastAttempt < MQ_RETRY_BACKOFF_SEC {
        return false, Idle, handed, timedOut;
      }

      ghost var before := old(Model()).(inFlight := inFlight);
      assert Model() == before.(ring := before.ring[slot := ring[slot]]);
      AppliedOverwrites(before, slot, ring[slot], Hand(ring[slot], code, now));
      var packet;
      outcome, packet := Transmit(slot, code, now);
      handed := Some(packet);
      return true, outcome, handed, timedOut;
    }

    /** Drives the queue by at most one action. `code` is what the transport
        answers if it is called; `slot` is the slot acted upon. */
    method ServiceOnce(ready: bool, code: int, now: int)
        returns (outcome: Outcome, handed: Option<Record>, ghost timedOut: bool, ghost slot: nat)
      requires Valid()
      modifies this, ring
      ensures Valid()
      ensures Served(Model(), outcome, handed, timedOut, slot) == Service(old(Model()), ready, code, now)
    {
      hide Sound, DistinctStamps, CountState, Act;
      ServiceInv(Model(), ready, code, now);
      AlreadySettled(Model());
      handed, timedOut, slot := None, false, 0;
      if !ready || count == 0 {
        return Idle, handed, timedOut, slot;
      }
      AdvanceHead();
      var inspected, idx := 0, head;
      while inspected < ring.Length
        invariant Model() == old(Model())
        invariant 0 <= inspected <= ring.Length
        invariant idx == At(head, inspected, ring.Length)
        invariant First(ring[..], head, 0, AnyEligible(now)) == First(ring[..], head, inspected, AnyEligible(now))
        invariant handed == None && !timedOut && slot == 0
      {
        var acted;
        ghost var late;
        acted, outcome, handed, late := Inspect(idx, code, now);
        if acted {
          timedOut, slot := late, idx;
          return outcome, handed, timedOut, slot;
        }
        AtIsRemainder(idx, 1, ring.Length);
        inspected, idx := inspected + 1, (idx + 1) % ring.Length;
      }
      return Idle, handed, timedOut, slot;
    }
  }
}
