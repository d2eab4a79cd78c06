/** Restoring a queue from its file: what is imported, in what order. */
module MqImport {
  import opened Bytes
  import opened MqModel
  import opened MqInvariant
  import opened MqOrder
  import opened MqList
  import opened MqFifo
  import opened MqImage

  datatype FileRead = Missing | Unreadable | Contents(data: bytes)

  datatype LoadCode = Restored(n: nat) | PathError | IoError | FormatError | FullError | NoFile

  /** Messages enqueued one after the other. */
  function EnqueueAll(q: Queue, rs: seq<Record>, now: int): (q': Queue)
    requires Shaped(q)
    ensures Shaped(q') && |q'.ring| == |q.ring|
    decreases |rs|
  {
    if rs == [] then q
    else EnqueueAll(Enqueue(q, rs[0].friendnum, rs[0].payload, now).0, rs[1..], now)
  }

  /** The import loop: it stops at the first message the queue refuses. */
  function Import(q: Queue, rs: seq<Record>, now: int): (r: (Queue, nat))
    requires Shaped(q)
    ensures Shaped(r.0) && |r.0.ring| == |q.ring| && r.1 <= |rs|
    decreases |rs|
  {
    if rs == [] then (q, 0)
    else
      var (q1, code) := Enqueue(q, rs[0].friendnum, rs[0].payload, now);
      if code != Ok then (q1, 0)
      else
        var (q2, n) := Import(q1, rs[1..], now);
        (q2, n + 1)
  }

  function Load(q: Queue, pathUsable: bool, file: FileRead, now: int): (r: (Queue, LoadCode))
    requires Shaped(q)
    ensures Shaped(r.0) && |r.0.ring| == |q.ring|
  {
    if !pathUsable then (q, PathError)
    else match file
      case Missing => (q, NoFile)
      case Unreadable => (q, IoError)
      case Contents(data) =>
        var parsed := ParseFile(data, |q.ring|);
        if parsed.None? then (q, FormatError)
        else
          var (q', n) := Import(q, parsed.value, now);
          (q', if n == |parsed.value| then Restored(n) else FullError)
  }

  // ---------------------------------------------------------------------
  // What an import does to any queue
  // ---------------------------------------------------------------------

  function Min(a: int, b: int): int {
    if a <= b then a else b
  }

  lemma EnqueueCounts(q: Queue, r: Record, now: int)
    requires Inv(q) && Acceptable(r.friendnum, r.payload)
    ensures var (q', code) := Enqueue(q, r.friendnum, r.payload, now);
            Inv(q') && if q.count < |q.ring|
                       then code == Ok && q'.count == q.count + 1
                       else code == ErrFull && q' == q.(stats := q.stats.(fullRejections := q.stats.fullRejections + 1))
  {
    hide Inv;
    EnqueueInv(q, r.friendnum, r.payload, now);
    FullIffAllOccupied(q, r.friendnum, r.payload, now);
    RoomBound(q);
  }

  /** Exactly the records that fit are imported, in file order, and nothing else
      changes but one counted refusal when they do not all fit. */
  lemma {:induction false} ImportsWhatFits(q: Queue, rs: seq<Record>, now: int)
    requires Inv(q) && Storable(rs)
    ensures q.count <= |q.ring|
    ensures var k := Min(|rs|, |q.ring| - q.count);
            var (q', n) := Import(q, rs, now);
            var all := EnqueueAll(q, rs[..k], now);
            && n == k
            && Inv(q') && Inv(all) && all.count == q.count + k
            && q' == if k == |rs| then all
                     else all.(stats := all.stats.(fullRejections := all.stats.fullRejections + 1))
    decreases |rs|
  {
    hide Enqueue, Sound, DistinctStamps, CountState;
    RoomBound(q);
    if rs == [] {
      assert rs[..0] == [];
    } else {
      EnqueueCounts(q, rs[0], now);
      var k := Min(|rs|, |q.ring| - q.count);
      if k == 0 {
        assert rs[..0] == [];
      } else {
        ImportsWhatFits(Enqueue(q, rs[0].friendnum, rs[0].payload, now).0, rs[1..], now);
        assert rs[..k][1..] == rs[1..][..k - 1];
      }
    }
  }

  // ---------------------------------------------------------------------
  // Order
  // ---------------------------------------------------------------------

  /** There is room for k messages behind the last stored one: from the slot the next
      message takes up to head nothing is stored, and there are k slots. */
  predicate RoomBehind(q: Queue, k: nat)
    requires Shaped(q)
  {
    0 < k ==> LandsAtEnd(q) && InsertionStep(q) + k <= |q.ring|
  }

  /** The entries that records become when they are enqueued one after the other. */
  function NewEntries(stamp: nat, rs: seq<Record>, now: int): (es: seq<Entry>)
    ensures |es| == |rs|
  {
    seq(|rs|, i requires 0 <= i < |rs| =>
      Entry(Pending, rs[i].friendnum, rs[i].payload, now, 0, false, 0, -1, stamp + i))
  }

  /** Entries that wait for their first attempt. */
  ghost predicate Untried(es: seq<Entry>) {
    forall i :: 0 <= i < |es| ==> es[i].state.Pending? && es[i].attempts == 0 && !es[i].attempted
  }

  lemma NewEntriesCons(stamp: nat, rs: seq<Record>, now: int)
    requires rs != []
    ensures NewEntries(stamp, rs, now)
         == [Entry(Pending, rs[0].friendnum, rs[0].payload, now, 0, false, 0, -1, stamp)]
            + NewEntries(stamp + 1, rs[1..], now)
  {
  }

  lemma EmptyIsFree(q: Queue)
    requires Inv(q) && q.count == 0
    ensures q.head == q.tail && forall i :: 0 <= i < |q.ring| ==> !Occupied(q.ring[i])
  {
    hide Sound, DistinctStamps, CountState;
    forall i | 0 <= i < |q.ring|
      ensures !Occupied(q.ring[i])
    {
      if Occupied(q.ring[i]) {
        OccupiedMeansCount(q, i);
      }
    }
  }

  /** The next message takes head's own slot when nothing is stored. */
  lemma EmptyLandsAtHead(q: Queue)
    requires Inv(q) && q.count == 0
    ensures First(q.ring, q.tail, 0, AnyFree) == 0 && InsertionStep(q) == 0 && LandsAtEnd(q)
  {
    hide Sound, DistinctStamps, CountState;
    EmptyIsFree(q);
    assert Matches(q.ring[At(q.tail, 0, |q.ring|)], AnyFree);
  }

  /** What an accepted message does to head and to the slots, counted from head. */
  lemma EnqueuedSlot(q: Queue, r: Record, now: int)
    requires Inv(q) && Enqueue(q, r.friendnum, r.payload, now).1 == Ok
    ensures First(q.ring, q.tail, 0, AnyFree) < |q.ring|
    ensures var q1 := Enqueue(q, r.friendnum, r.payload, now).0;
            var slot := At(q.head, InsertionStep(q), |q.ring|);
            && !Occupied(q.ring[slot])
            && q1.head == q.head && q1.tail == At(slot, 1, |q.ring|)
            && q1.ring == q.ring[slot := NewEntry(q, r.friendnum, r.payload, now)]
  {
    if q.count == 0 {
      EmptyLandsAtHead(q);
    }
    hide Inv;
    var k := First(q.ring, q.tail, 0, AnyFree);
    assert Matches(q.ring[At(q.tail, k, |q.ring|)], AnyFree);
  }

  /** The message behind it takes the next slot. */
  lemma LandsNext(q: Queue, r: Record, now: int)
    requires Inv(q) && Enqueue(q, r.friendnum, r.payload, now).1 == Ok
    requires LandsAtEnd(q) && InsertionStep(q) + 1 < |q.ring|
    ensures var q1 := Enqueue(q, r.friendnum, r.payload, now).0;
            LandsAtEnd(q1) && InsertionStep(q1) == InsertionStep(q) + 1
  {
    EnqueuedSlot(q, r, now);
    hide Inv, Enqueue, First;
    var q1 := Enqueue(q, r.friendnum, r.payload, now).0;
    var n, p := |q.ring|, InsertionStep(q);
    assert q1.tail == At(q.head, p + 1, n);
    assert !Occupied(q1.ring[q1.tail]);
    FirstAtTail(q1);
    assert At(q.head, InsertionStep(q1), n) == q1.tail;
    assert InsertionStep(q1) == p + 1;
    forall j | p + 1 < j < n
      ensures !Occupied(q1.ring[At(q1.head, j, n)])
    {
      assert At(q.head, j, n) != At(q.head, p, n);
    }
  }

  lemma FirstAtTail(q: Queue)
    requires Shaped(q) && TailFree(q)
    ensures First(q.ring, q.tail, 0, AnyFree) == 0
  {
    assert Matches(q.ring[At(q.tail, 0, |q.ring|)], AnyFree);
  }

  /** With room behind the last message all are appended, in their order. */
  lemma {:induction false} AppendsAll(q: Queue, rs: seq<Record>, now: int)
    requires Inv(q) && Storable(rs) && q.count + |rs| <= |q.ring| && RoomBehind(q, |rs|)
    ensures Messages(EnqueueAll(q, rs, now)) == Messages(q) + NewEntries(q.stats.enqueued, rs, now)
    decreases |rs|
  {
    hide Enqueue, Messages, Sound, DistinctStamps, CountState, LandsAtEnd, NewEntries, InsertionStep, First;
    if rs == [] {
      assert Messages(q) + [] == Messages(q);
    } else {
      EnqueueCounts(q, rs[0], now);
      RoomLeft(q, rs[0], now, |rs| - 1);
      AppendsAll(Enqueue(q, rs[0].friendnum, rs[0].payload, now).0, rs[1..], now);
      AppendsFirst(q, rs, now);
    }
  }

  /** The first is appended, and leaves room for the rest. */
  lemma RoomLeft(q: Queue, r: Record, now: int, k: nat)
    requires Inv(q) && Enqueue(q, r.friendnum, r.payload, now).1 == Ok && RoomBehind(q, k + 1)
    ensures RoomBehind(Enqueue(q, r.friendnum, r.payload, now).0, k)
    ensures Messages(Enqueue(q, r.friendnum, r.payload, now).0)
         == Messages(q) + [NewEntry(q, r.friendnum, r.payload, now)]
  {
    hide Enqueue, Messages, Inv, LandsAtEnd, InsertionStep, First;
    AppendsIff(q, r.friendnum, r.payload, now);
    if 0 < k {
      LandsNext(q, r, now);
    }
  }

  lemma AppendsFirst(q: Queue, rs: seq<Record>, now: int)
    requires Inv(q) && rs != [] && Enqueue(q, rs[0].friendnum, rs[0].payload, now).1 == Ok
    requires var q1 := Enqueue(q, rs[0].friendnum, rs[0].payload, now).0;
             && Messages(q1) == Messages(q) + [NewEntry(q, rs[0].friendnum, rs[0].payload, now)]
             && Messages(EnqueueAll(q1, rs[1..], now)) == Messages(q1) + NewEntries(q1.stats.enqueued, rs[1..], now)
    ensures Messages(EnqueueAll(q, rs, now)) == Messages(q) + NewEntries(q.stats.enqueued, rs, now)
  {
    EnqueueAllFirst(q, rs, now);
    hide Enqueue, EnqueueAll, Messages, Sound, DistinctStamps, CountState, NewEntries;
    EnqueuedOne(q, rs[0], now);
    NewEntriesCons(q.stats.enqueued, rs, now);
    Regroup(Messages(q), [NewEntry(q, rs[0].friendnum, rs[0].payload, now)],
            NewEntries(q.stats.enqueued + 1, rs[1..], now));
  }

  lemma EnqueueAllFirst(q: Queue, rs: seq<Record>, now: int)
    requires Shaped(q) && rs != []
    ensures EnqueueAll(q, rs, now) == EnqueueAll(Enqueue(q, rs[0].friendnum, rs[0].payload, now).0, rs[1..], now)
  {
    hide Enqueue;
  }

  lemma EnqueuedOne(q: Queue, r: Record, now: int)
    requires Inv(q) && Enqueue(q, r.friendnum, r.payload, now).1 == Ok
    ensures Enqueue(q, r.friendnum, r.payload, now).0.stats.enqueued == q.stats.enqueued + 1
  {
  }

  // ---------------------------------------------------------------------
  // Only then
  // ---------------------------------------------------------------------

  /** The messages accepted before the stamp-th one. */
  function Older(ms: seq<Entry>, stamp: nat): seq<Entry> {
    if ms == [] then []
    else if ms[0].stamp < stamp then [ms[0]] + Older(ms[1..], stamp)
    else Older(ms[1..], stamp)
  }

  lemma {:induction false} OlderConcat(a: seq<Entry>, b: seq<Entry>, stamp: nat)
    ensures Older(a + b, stamp) == Older(a, stamp) + Older(b, stamp)
  {
    if a == [] {
      assert a + b == b;
    } else {
      assert (a + b)[1..] == a[1..] + b;
      OlderConcat(a[1..], b, stamp);
    }
  }

  lemma {:induction false} OlderIsAll(ms: seq<Entry>, stamp: nat)
    requires forall i :: 0 <= i < |ms| ==> ms[i].stamp < stamp
    ensures Older(ms, stamp) == ms
  {
    if ms != [] {
      OlderIsAll(ms[1..], stamp);
    }
  }

  lemma {:induction false} OlderIsNone(ms: seq<Entry>, stamp: nat)
    requires forall i :: 0 <= i < |ms| ==> stamp <= ms[i].stamp
    ensures Older(ms, stamp) == []
  {
    if ms != [] {
      OlderIsNone(ms[1..], stamp);
    }
  }

  lemma OlderWithout(b: seq<Entry>, e: Entry, c: seq<Entry>, stamp: nat)
    requires stamp <= e.stamp
    ensures Older(b + [e] + c, stamp) == Older(b + c, stamp)
  {
    OlderIsNone([e], stamp);
    hide Older;
    OlderConcat(b + [e], c, stamp);
    OlderConcat(b, [e], stamp);
    OlderConcat(b, c, stamp);
    assert Older(b, stamp) + [] == Older(b, stamp);
  }

  /** An enqueue does not change the order of the messages that were there. */
  lemma {:induction false} OlderKept(q: Queue, rs: seq<Record>, now: int, stamp: nat)
    requires Inv(q) && Storable(rs) && stamp <= q.stats.enqueued && q.count + |rs| <= |q.ring|
    ensures Older(Messages(EnqueueAll(q, rs, now)), stamp) == Older(Messages(q), stamp)
    decreases |rs|
  {
    hide Enqueue, Messages, Sound, DistinctStamps, CountState, Older, Before, After, InsertionStep, First;
    if rs != [] {
      EnqueueCounts(q, rs[0], now);
      EnqueueInserts(q, rs[0].friendnum, rs[0].payload, now);
      EnqueuedOne(q, rs[0], now);
      var k := InsertionStep(q);
      OlderWithout(Before(q, k), NewEntry(q, rs[0].friendnum, rs[0].payload, now), After(q, k), stamp);
      OlderKept(Enqueue(q, rs[0].friendnum, rs[0].payload, now).0, rs[1..], now, stamp);
    }
  }

  lemma AllOlder(q: Queue)
    requires Inv(q)
    ensures Older(Messages(q), q.stats.enqueued) == Messages(q)
  {
    MessagesAreSlots(q);
    hide Messages, Sound, CountState;
    forall i | 0 <= i < |Messages(q)|
      ensures Messages(q)[i].stamp < q.stats.enqueued
    {
      assert Messages(q)[i] in Messages(q);
    }
    OlderIsAll(Messages(q), q.stats.enqueued);
  }

  /** If in the end all stand behind the old messages in their order, the first one
      was appended, */
  lemma FirstWasAppended(q: Queue, rs: seq<Record>, now: int)
    requires Inv(q) && Storable(rs) && rs != [] && q.count + |rs| <= |q.ring|
    requires Messages(EnqueueAll(q, rs, now)) == Messages(q) + NewEntries(q.stats.enqueued, rs, now)
    ensures Messages(Enqueue(q, rs[0].friendnum, rs[0].payload, now).0)
         == Messages(q) + [NewEntry(q, rs[0].friendnum, rs[0].payload, now)]
  {
    hide Enqueue, EnqueueAll, Messages, Sound, DistinctStamps, CountState, Older, NewEntries;
    OlderAfterFirst(q, rs, now);
    OlderOfAppended(q, rs, now);
  }

  /** and the rest stand behind it. */
  lemma RestStandsBehind(q: Queue, rs: seq<Record>, now: int)
    requires Inv(q) && rs != [] && Enqueue(q, rs[0].friendnum, rs[0].payload, now).1 == Ok
    requires Messages(EnqueueAll(q, rs, now)) == Messages(q) + NewEntries(q.stats.enqueued, rs, now)
    requires Messages(Enqueue(q, rs[0].friendnum, rs[0].payload, now).0)
          == Messages(q) + [NewEntry(q, rs[0].friendnum, rs[0].payload, now)]
    ensures var q1 := Enqueue(q, rs[0].friendnum, rs[0].payload, now).0;
            Messages(EnqueueAll(q1, rs[1..], now)) == Messages(q1) + NewEntries(q1.stats.enqueued, rs[1..], now)
  {
    hide Enqueue, EnqueueAll, Messages, Sound, DistinctStamps, CountState, NewEntries;
    EnqueueAllFirst(q, rs, now);
    EnqueuedOne(q, rs[0], now);
    NewEntriesCons(q.stats.enqueued, rs, now);
    Regroup(Messages(q), [NewEntry(q, rs[0].friendnum, rs[0].payload, now)],
            NewEntries(q.stats.enqueued + 1, rs[1..], now));
  }

  /** After the first enqueue, the messages there then keep their order. */
  lemma OlderAfterFirst(q: Queue, rs: seq<Record>, now: int)
    requires Inv(q) && Storable(rs) && rs != [] && q.count + |rs| <= |q.ring|
    ensures Older(Messages(EnqueueAll(q, rs, now)), q.stats.enqueued + 1)
         == Messages(Enqueue(q, rs[0].friendnum, rs[0].payload, now).0)
  {
    hide Enqueue, Messages, Sound, DistinctStamps, CountState, Older;
    var q1 := Enqueue(q, rs[0].friendnum, rs[0].payload, now).0;
    EnqueueCounts(q, rs[0], now);
    EnqueuedOne(q, rs[0], now);
    OlderKept(q1, rs[1..], now, q.stats.enqueued + 1);
    AllOlder(q1);
  }

  lemma OlderOfAppended(q: Queue, rs: seq<Record>, now: int)
    requires Inv(q) && rs != []
    ensures Older(Messages(q) + NewEntries(q.stats.enqueued, rs, now), q.stats.enqueued + 1)
         == Messages(q) + [NewEntry(q, rs[0].friendnum, rs[0].payload, now)]
  {
    var n := q.stats.enqueued;
    var e, more := NewEntry(q, rs[0].friendnum, rs[0].payload, now), NewEntries(n + 1, rs[1..], now);
    OlderIsNone(more, n + 1);
    hide Messages, Inv, Older, NewEntries;
    NewEntriesCons(n, rs, now);
    Regroup(Messages(q), [e], more);
    OlderConcat(Messages(q) + [e], more, n + 1);
    AllOlderYet(q, e);
    assert Messages(q) + [e] + [] == Messages(q) + [e];
  }

  lemma AllOlderYet(q: Queue, e: Entry)
    requires Inv(q) && e.stamp == q.stats.enqueued
    ensures Older(Messages(q) + [e], q.stats.enqueued + 1) == Messages(q) + [e]
  {
    MessagesAreSlots(q);
    hide Messages, Sound, CountState;
    var ms := Messages(q) + [e];
    forall i | 0 <= i < |ms|
      ensures ms[i].stamp < q.stats.enqueued + 1
    {
      if i < |Messages(q)| {
        assert ms[i] in Messages(q);
      }
    }
    OlderIsAll(ms, q.stats.enqueued + 1);
  }

  /** Room for the first, and from there for the rest, is room for all. */
  lemma RoomGrows(q: Queue, r: Record, now: int, k: nat)
    requires Inv(q) && Enqueue(q, r.friendnum, r.payload, now).1 == Ok && LandsAtEnd(q)
    requires RoomBehind(Enqueue(q, r.friendnum, r.payload, now).0, k) && q.count + 1 + k <= |q.ring|
    ensures RoomBehind(q, k + 1)
  {
    if InsertionStep(q) + 1 < |q.ring| {
      LandsNext(q, r, now);
    } else {
      NoRoomLeft(q, r, now);
    }
  }

  /** After the last slot before head is taken, the next message lands before it. */
  lemma NoRoomLeft(q: Queue, r: Record, now: int)
    requires Inv(q) && Enqueue(q, r.friendnum, r.payload, now).1 == Ok
    requires First(q.ring, q.tail, 0, AnyFree) < |q.ring| && InsertionStep(q) + 1 == |q.ring|
    ensures !LandsAtEnd(Enqueue(q, r.friendnum, r.payload, now).0)
  {
    EnqueuedSlot(q, r, now);
    hide Inv, Enqueue, First;
    var n, q1 := |q.ring|, Enqueue(q, r.friendnum, r.payload, now).0;
    assert Occupied(q1.ring[At(q1.head, n - 1, n)]);
    if First(q1.ring, q1.tail, 0, AnyFree) < n {
      FreeAtInsertion(q1);
    }
  }

  lemma FreeAtInsertion(q: Queue)
    requires Shaped(q) && First(q.ring, q.tail, 0, AnyFree) < |q.ring|
    ensures !Occupied(q.ring[At(q.head, InsertionStep(q), |q.ring|)])
  {
    assert Matches(q.ring[At(q.tail, First(q.ring, q.tail, 0, AnyFree), |q.ring|)], AnyFree);
  }

  lemma {:induction false} AppendedOnlyIf(q: Queue, rs: seq<Record>, now: int)
    requires Inv(q) && Storable(rs) && q.count + |rs| <= |q.ring|
    requires Messages(EnqueueAll(q, rs, now)) == Messages(q) + NewEntries(q.stats.enqueued, rs, now)
    ensures RoomBehind(q, |rs|)
    decreases |rs|
  {
    hide Enqueue, Messages, Sound, DistinctStamps, CountState, NewEntries, LandsAtEnd, InsertionStep, First;
    if rs != [] {
      EnqueueCounts(q, rs[0], now);
      FirstWasAppended(q, rs, now);
      RestStandsBehind(q, rs, now);
      AppendsIff(q, rs[0].friendnum, rs[0].payload, now);
      AppendedOnlyIf(Enqueue(q, rs[0].friendnum, rs[0].payload, now).0, rs[1..], now);
      RoomGrows(q, rs[0], now, |rs| - 1);
    }
  }

  /** Exactly when messages enqueued one after the other follow what was stored, in
      their order: if and only if there is room for them behind the last message. */
  lemma AppendsAllIff(q: Queue, rs: seq<Record>, now: int)
    requires Inv(q) && Storable(rs) && q.count + |rs| <= |q.ring|
    ensures Messages(EnqueueAll(q, rs, now)) == Messages(q) + NewEntries(q.stats.enqueued, rs, now)
       <==> RoomBehind(q, |rs|)
  {
    hide EnqueueAll, Messages, Sound, DistinctStamps, CountState, NewEntries, RoomBehind;
    if RoomBehind(q, |rs|) {
      AppendsAll(q, rs, now);
    }
    if Messages(EnqueueAll(q, rs, now)) == Messages(q) + NewEntries(q.stats.enqueued, rs, now) {
      AppendedOnlyIf(q, rs, now);
    }
  }

  /** Into an empty ring every stored record is restored: the import cannot be
      refused, the list comes back in file order, and every message waits for a
      first attempt. */
  lemma ImportIntoFresh(n: nat, rs: seq<Record>, now: int)
    requires 0 < n && Storable(rs) && |rs| <= n
    ensures var (q', k) := Import(Fresh(n), rs, now);
            && k == |rs| && Inv(q')
            && Records(Messages(q')) == rs && Untried(Messages(q'))
  {
    hide Messages, Enqueue, NewEntries;
    var q := Fresh(n);
    FreshInv(n);
    MessagesSize(q);
    EmptyLandsAtHead(q);
    ImportsWhatFits(q, rs, now);
    assert rs[..|rs|] == rs;
    AppendsAll(q, rs, now);
    NewEntriesWait(q.stats.enqueued, rs, now);
    assert [] + NewEntries(q.stats.enqueued, rs, now) == NewEntries(q.stats.enqueued, rs, now);
  }

  lemma NewEntriesWait(stamp: nat, rs: seq<Record>, now: int)
    ensures Records(NewEntries(stamp, rs, now)) == rs && Untried(NewEntries(stamp, rs, now))
  {
  }
}
