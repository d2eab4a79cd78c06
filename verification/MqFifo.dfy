/** When the queue is first-in first-out, and exactly when it is not. */
module MqFifo {
  import opened Bytes
  import opened MqModel
  import opened MqInvariant
  import opened MqOrder
  import opened MqList

  /** Some slot is free exactly when not every slot holds a message. */
  lemma FreeSlotExists(q: Queue)
    requires Inv(q)
    ensures First(q.ring, q.tail, 0, AnyFree) < |q.ring| <==> q.count < |q.ring|
  {
    hide Sound, DistinctStamps;
    if q.count < |q.ring| {
      CountFreeWitness(q.ring);
      var i :| 0 <= i < |q.ring| && q.ring[i].state == Free;
      var k := Reach(q.tail, i, |q.ring|);
      assert Matches(q.ring[At(q.tail, k, |q.ring|)], AnyFree);
    } else {
      var k := First(q.ring, q.tail, 0, AnyFree);
      if k < |q.ring| {
        assert Matches(q.ring[At(q.tail, k, |q.ring|)], AnyFree);
        CountPositive(q.ring, At(q.tail, k, |q.ring|), Free);
      }
    }
  }

  lemma {:induction false} CountFreeWitness(es: seq<Entry>)
    requires 0 < CountState(es, Free)
    ensures exists i :: 0 <= i < |es| && es[i].state == Free
  {
    if es[0].state != Free {
      CountFreeWitness(es[1..]);
      var i :| 0 <= i < |es[1..]| && es[1..][i].state == Free;
      assert es[i + 1].state == Free;
    }
  }

  /** The queue refuses a valid message exactly when every slot holds one. */
  lemma FullIffAllOccupied(q: Queue, friendnum: int32, payload: bytes, now: int)
    requires Inv(q) && Acceptable(friendnum, payload)
    ensures Enqueue(q, friendnum, payload, now).1 == ErrFull <==> q.count == |q.ring|
    ensures q.count == |q.ring| <==> forall i :: 0 <= i < |q.ring| ==> Occupied(q.ring[i])
    ensures Enqueue(q, friendnum, payload, now).1 in {Ok, ErrFull}
  {
    hide Sound, DistinctStamps;
    FreeSlotExists(q);
    if q.count < |q.ring| {
      CountFreeWitness(q.ring);
    } else if i :| 0 <= i < |q.ring| && !Occupied(q.ring[i]) {
      CountPositive(q.ring, i, Free);
    }
  }

  /** The entry an accepted message becomes. */
  function NewEntry(q: Queue, friendnum: int32, payload: bytes, now: int): Entry {
    Entry(Pending, friendnum, payload, now, 0, false, 0, -1, q.stats.enqueued)
  }

  /** The slot the next accepted message takes, in steps from head. */
  function InsertionStep(q: Queue): (k: nat)
    requires Shaped(q) && First(q.ring, q.tail, 0, AnyFree) < |q.ring|
    ensures k < |q.ring|
    ensures At(q.head, k, |q.ring|) == At(q.tail, First(q.ring, q.tail, 0, AnyFree), |q.ring|)
  {
    var slot := At(q.tail, First(q.ring, q.tail, 0, AnyFree), |q.ring|);
    if q.head <= slot then slot - q.head else slot + |q.ring| - q.head
  }

  /** No stored message lies between the slot the next message takes and head. */
  predicate LandsAtEnd(q: Queue)
    requires Shaped(q)
  {
    First(q.ring, q.tail, 0, AnyFree) < |q.ring| &&
    forall j :: InsertionStep(q) < j < |q.ring| ==> !Occupied(q.ring[At(q.head, j, |q.ring|)])
  }

  /** Where a message enters the list: between those before its slot and those after it. */
  lemma EnqueueInserts(q: Queue, friendnum: int32, payload: bytes, now: int)
    requires Inv(q) && Enqueue(q, friendnum, payload, now).1 == Ok
    ensures First(q.ring, q.tail, 0, AnyFree) < |q.ring|
    ensures var k := InsertionStep(q);
            && Messages(q) == Before(q, k) + After(q, k)
            && Messages(Enqueue(q, friendnum, payload, now).0)
               == Before(q, k) + [NewEntry(q, friendnum, payload, now)] + After(q, k)
  {
    hide Stored, Rotated, CountState, Sound, DistinctStamps;
    var k := InsertionStep(q);
    var slot := At(q.head, k, |q.ring|);
    var e := NewEntry(q, friendnum, payload, now);
    var q' := Enqueue(q, friendnum, payload, now).0;
    Located(q, k);
    assert !Occupied(q.ring[slot]);
    Overwritten(q, k, e);
    if q.count == 0 {
      MessagesSize(q);
      EnqueueInv(q, friendnum, payload, now);
      MessagesSize(q');
      MessagesAreSlots(q');
      assert q'.ring[slot] == e;
      assert e in Messages(q');
      assert Messages(q') == [e];
      assert Before(q, k) == [] && After(q, k) == [];
    }
  }

  /** First-in first-out, exactly: an accepted message goes to the end of the list
      if and only if no stored message lies between its slot and head. */
  lemma AppendsIff(q: Queue, friendnum: int32, payload: bytes, now: int)
    requires Inv(q) && Enqueue(q, friendnum, payload, now).1 == Ok
    ensures Messages(Enqueue(q, friendnum, payload, now).0) == Messages(q) + [NewEntry(q, friendnum, payload, now)]
       <==> LandsAtEnd(q)
  {
    EnqueueInserts(q, friendnum, payload, now);
    hide Stored, Rotated, CountState, Before, After, Messages, Enqueue, Inv, First;
    var k := InsertionStep(q);
    var e := NewEntry(q, friendnum, payload, now);
    var b, c := Before(q, k), After(q, k);
    NothingAfter(q, k);
    StampIsNew(q, k, friendnum, payload, now);
    InsertedAtEndIff(b, e, c);
  }

  lemma InsertedAtEndIff<T>(b: seq<T>, e: T, c: seq<T>)
    requires e !in c
    ensures b + [e] + c == b + c + [e] <==> c == []
  {
    if c == [] {
      assert b + [e] + c == b + c + [e];
    } else {
      assert (b + [e] + c)[|b|] == e;
      assert (b + c + [e])[|b|] == c[0];
    }
  }

  lemma NothingAfter(q: Queue, k: nat)
    requires Shaped(q) && k < |q.ring|
    ensures After(q, k) == [] <==> forall j :: k < j < |q.ring| ==> !Occupied(q.ring[At(q.head, j, |q.ring|)])
  {
    hide Stored;
    var r := Rotated(q.ring, q.head);
    StoredNone(r[k + 1..]);
    var s := r[k + 1..];
    assert forall i :: 0 <= i < |s| ==> s[i] == r[k + 1 + i];
    assert forall j :: k < j < |r| ==> s[j - k - 1] == r[j];
    assert forall j :: 0 <= j < |r| ==> r[j] == q.ring[At(q.head, j, |q.ring|)];
  }

  lemma StampIsNew(q: Queue, k: nat, friendnum: int32, payload: bytes, now: int)
    requires Inv(q) && k < |q.ring|
    ensures NewEntry(q, friendnum, payload, now) !in After(q, k)
  {
    hide Stored, Sound, CountState;
    var r := Rotated(q.ring, q.head);
    StoredMembers(r[k + 1..]);
    RotatedElements(q.ring, q.head);
    forall m | m in After(q, k)
      ensures m.stamp < q.stats.enqueued
    {
      assert m in r[k + 1..];
      assert m in r;
    }
  }

  // ---------------------------------------------------------------------
  // The segment from head to tail
  // ---------------------------------------------------------------------

  /** head is the first message met going round from tail: everything stored lies
      between head and tail, holes or not. */
  ghost predicate Contiguous(q: Queue)
    requires Shaped(q)
  {
    q.head == Settled(q.ring, q.tail, q.tail, q.count)
  }

  /** An empty queue is in order, whatever happened before. */
  lemma EmptyIsContiguous(q: Queue)
    requires Inv(q) && q.count == 0
    ensures Contiguous(q)
  {
  }

  /** The next accepted message takes the tail slot itself. */
  predicate TailFree(q: Queue)
    requires Shaped(q)
  {
    !Occupied(q.ring[q.tail])
  }

  lemma FirstIsAtMost(ring: seq<Entry>, start: nat, i: nat)
    requires start < |ring| && i < |ring| && Occupied(ring[At(start, i, |ring|)])
    ensures First(ring, start, 0, AnyOccupied) <= i
  {
    assert Matches(ring[At(start, i, |ring|)], AnyOccupied);
  }

  lemma FirstOccupiedExists(ring: seq<Entry>, head: nat, count: nat)
    requires head < |ring| && 0 < count && count + CountState(ring, Free) == |ring|
    ensures First(ring, head, 0, AnyOccupied) < |ring|
  {
    var i := CountWitness(ring, Free);
    var k := Reach(head, i, |ring|);
    FirstIsAtMost(ring, head, k);
  }

  /** Releasing a slot leaves head the first message from tail. */
  lemma SettledSameWay(ring: seq<Entry>, slot: nat, e: Entry, head: nat, tail: nat, count: nat)
    requires head < |ring| && tail < |ring| && slot < |ring| && !Occupied(e)
    requires First(ring, tail, 0, AnyOccupied) < |ring|
    requires head == At(tail, First(ring, tail, 0, AnyOccupied), |ring|)
    requires count + CountState(ring[slot := e], Free) == |ring|
    ensures Settled(ring[slot := e], head, tail, count) == Settled(ring[slot := e], tail, tail, count)
  {
    hide CountState;
    var ring' := ring[slot := e];
    var n := |ring|;
    if 0 < count {
      FirstOccupiedExists(ring', head, count);
      FirstOccupiedExists(ring', tail, count);
      var k := First(ring, tail, 0, AnyOccupied);
      var i, j := First(ring', tail, 0, AnyOccupied), First(ring', head, 0, AnyOccupied);
      FirstIsAtMost(ring, tail, i);
      FirstIsAtMost(ring', head, i - k);
      FirstIsAtMost(ring', tail, k + j);
    }
  }

  lemma ReleaseContiguous(q: Queue, slot: nat, e: Entry, q': Queue)
    requires Inv(q) && Contiguous(q) && slot < |q.ring| && Occupied(q.ring[slot])
    requires Inv(q') && q'.ring == q.ring[slot := Released(e)] && q'.tail == q.tail
    requires q'.head == Settled(q'.ring, q.head, q.tail, q'.count)
    ensures Contiguous(q')
  {
    hide Sound, DistinctStamps, CountState;
    OccupiedMeansCount(q, slot);
    FirstOccupiedExists(q.ring, q.tail, q.count);
    SettledSameWay(q.ring, slot, Released(e), q.head, q.tail, q'.count);
  }

  lemma RewriteContiguous(q: Queue, slot: nat, e: Entry)
    requires Inv(q) && Contiguous(q) && slot < |q.ring| && Occupied(q.ring[slot]) && Occupied(e)
    ensures q.head == Settled(q.ring[slot := e], q.tail, q.tail, q.count)
  {
    hide Sound, DistinctStamps, CountState;
    var ring' := q.ring[slot := e];
    OccupiedMeansCount(q, slot);
    FirstOccupiedExists(q.ring, q.tail, q.count);
    var k, k' := First(q.ring, q.tail, 0, AnyOccupied), First(ring', q.tail, 0, AnyOccupied);
    FirstIsAtMost(ring', q.tail, k);
    FirstIsAtMost(q.ring, q.tail, k');
  }

  lemma ConfirmContiguous(q: Queue, friendnum: int, receipt: int)
    requires Inv(q) && Contiguous(q)
    ensures Inv(Confirm(q, friendnum, receipt).0) && Contiguous(Confirm(q, friendnum, receipt).0)
  {
    hide Sound, DistinctStamps, CountState;
    ConfirmInv(q, friendnum, receipt);
    var (q', code) := Confirm(q, friendnum, receipt);
    if code == Ok {
      var i := FindAcknowledged(q.ring, 0, friendnum, receipt);
      ReleaseContiguous(q, i, q.ring[i], q');
    }
  }

  lemma ServiceContiguous(q: Queue, ready: bool, code: int, now: int)
    requires Inv(q) && Contiguous(q)
    ensures Inv(Service(q, ready, code, now).queue) && Contiguous(Service(q, ready, code, now).queue)
  {
    hide Sound, DistinctStamps, CountState, Try, Settled;
    ServiceInv(q, ready, code, now);
    AlreadySettled(q);
    var s := Service(q, ready, code, now);
    if s.outcome == Idle {
      IdleChangesNothing(q, ready, code, now);
    } else {
      var a := Try(q.ring[s.slot], code, now);
      TryOutcome(q.ring[s.slot], code, now);
      if s.outcome == Dropped {
        ReleaseContiguous(q, s.slot, a.entry, s.queue);
      } else {
        RewriteContiguous(q, s.slot, a.entry);
      }
    }
  }

  lemma TailSlotTaken(q: Queue)
    requires Inv(q) && TailFree(q)
    ensures First(q.ring, q.tail, 0, AnyFree) == 0
    ensures At(q.head, InsertionStep(q), |q.ring|) == q.tail
  {
    assert Matches(q.ring[At(q.tail, 0, |q.ring|)], AnyFree);
  }

  /** Nothing is stored between tail and head. */
  lemma NothingBehindTail(q: Queue)
    requires Inv(q) && Contiguous(q) && TailFree(q)
    requires First(q.ring, q.tail, 0, AnyFree) < |q.ring|
    ensures LandsAtEnd(q)
  {
    hide Sound, DistinctStamps, CountState;
    TailSlotTaken(q);
    var n := |q.ring|;
    forall j | InsertionStep(q) < j < n
      ensures !Occupied(q.ring[At(q.head, j, n)])
    {
      if Occupied(q.ring[At(q.head, j, n)]) {
        OccupiedMeansCount(q, At(q.head, j, n));
        FirstOccupiedExists(q.ring, q.tail, q.count);
        var i := j - InsertionStep(q);
        assert At(q.tail, i, n) == At(q.head, j, n);
        FirstIsAtMost(q.ring, q.tail, i);
      }
    }
  }

  /** Filling the tail slot of an empty ring: from the next slot it is the first met. */
  lemma FirstOfOne(ring: seq<Entry>, tail: nat, e: Entry)
    requires tail < |ring| && Occupied(e)
    requires forall i :: 0 <= i < |ring| ==> !Occupied(ring[i])
    ensures var ring' := ring[tail := e]; var next := At(tail, 1, |ring|);
            At(next, First(ring', next, 0, AnyOccupied), |ring|) == tail
  {
    var ring', next := ring[tail := e], At(tail, 1, |ring|);
    assert At(next, |ring| - 1, |ring|) == tail;
    FirstIsAtMost(ring', next, |ring| - 1);
  }

  /** Filling a free tail slot of a non-empty ring: the first met stays the first. */
  lemma FirstOfMore(ring: seq<Entry>, tail: nat, e: Entry)
    requires tail < |ring| && Occupied(e) && !Occupied(ring[tail])
    requires First(ring, tail, 0, AnyOccupied) < |ring|
    ensures var ring' := ring[tail := e]; var next := At(tail, 1, |ring|);
            At(next, First(ring', next, 0, AnyOccupied), |ring|)
            == At(tail, First(ring, tail, 0, AnyOccupied), |ring|)
  {
    var ring', next := ring[tail := e], At(tail, 1, |ring|);
    var k := First(ring, tail, 0, AnyOccupied);
    assert At(tail, 0, |ring|) == tail;
    assert At(next, k - 1, |ring|) == At(tail, k, |ring|);
    FirstIsAtMost(ring', next, k - 1);
    var k' := First(ring', next, 0, AnyOccupied);
    assert At(tail, k' + 1, |ring|) == At(next, k', |ring|);
    FirstIsAtMost(ring, tail, k' + 1);
  }

  lemma SegmentGrows(q: Queue, friendnum: int32, payload: bytes, now: int)
    requires Inv(q) && Contiguous(q) && TailFree(q)
    requires Enqueue(q, friendnum, payload, now).1 == Ok
    ensures Shaped(Enqueue(q, friendnum, payload, now).0) && Contiguous(Enqueue(q, friendnum, payload, now).0)
  {
    hide Sound, DistinctStamps, CountState, First;
    var e := NewEntry(q, friendnum, payload, now);
    TailSlotTaken(q);
    if q.count == 0 {
      forall i | 0 <= i < |q.ring|
        ensures !Occupied(q.ring[i])
      {
        if Occupied(q.ring[i]) {
          OccupiedMeansCount(q, i);
        }
      }
      FirstOfOne(q.ring, q.tail, e);
    } else {
      FirstOccupiedExists(q.ring, q.tail, q.count);
      FirstOfMore(q.ring, q.tail, e);
    }
  }

  /** In the segment a message that finds the tail slot free is appended, and the
      segment grows by it. */
  lemma EnqueueContiguous(q: Queue, friendnum: int32, payload: bytes, now: int)
    requires Inv(q) && Contiguous(q) && TailFree(q)
    requires Enqueue(q, friendnum, payload, now).1 == Ok
    ensures var q' := Enqueue(q, friendnum, payload, now).0;
            && Inv(q') && Contiguous(q')
            && Messages(q') == Messages(q) + [NewEntry(q, friendnum, payload, now)]
  {
    EnqueueInv(q, friendnum, payload, now);
    SegmentGrows(q, friendnum, payload, now);
    AppendsIff(q, friendnum, payload, now);
    NothingBehindTail(q);
  }
}
