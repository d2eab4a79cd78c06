/** Restoring the queue: validate the whole file, then import it. */
module MqRestore {
  import opened Bytes
  import opened MqModel
  import opened MqInvariant
  import opened MqOrder
  import opened MqImage
  import opened MqImport
  import opened MqRuns
  import opened MqArrival
  import opened MqPersist
  import opened MsgQueues

  /** Walks the records once; nothing is enqueued here. */
  method ValidateRecords(buf: bytes, count: nat) returns (ok: bool)
    requires HEADER_SIZE <= |buf|
    ensures ok <==> ParseRecords(buf, HEADER_SIZE, count).Some?
  {
    var off: nat := HEADER_SIZE;
    var i := 0;
    while i < count
      invariant 0 <= i <= count && off <= |buf|
      invariant ParseRecords(buf, HEADER_SIZE, count).Some? <==> ParseRecords(buf, off, count - i).Some?
    {
      if off + RECORD_HEAD > |buf| {
        return false;
      }
      var friendnum, len := GetI32(buf, off), GetU32(buf, off + 4);
      off := off + RECORD_HEAD;
      if friendnum < 0 || len == 0 || len >= MQ_PAYLOAD_MAX {
        return false;
      }
      if off + len > |buf| {
        return false;
      }
      off := off + len;
      i := i + 1;
    }
    return true;
  }

  /** Imports validated records until the queue refuses one. The refusal of a record
      as invalid is a branch of the code that validation makes unreachable. */
  method ImportRecords(queue: MsgQueue, buf: bytes, count: nat, now: int) returns (code: LoadCode)
    requires queue.Valid() && HEADER_SIZE <= |buf| && ParseRecords(buf, HEADER_SIZE, count).Some?
    modifies queue, queue.ring
    ensures queue.Valid()
    ensures var (q', n) := Import(old(queue.Model()), ParseRecords(buf, HEADER_SIZE, count).value, now);
            queue.Model() == q' && code == if n == count then Restored(n) else FullError
  {
    hide Enqueue, Sound, DistinctStamps, CountState, GetU32, GetI32, Import, ParseRecords;
    ghost var rs := ParseRecords(buf, HEADER_SIZE, count).value;
    ghost var goal := Import(queue.Model(), rs, now);
    var off: nat := HEADER_SIZE;
    var loaded, i := 0, 0;
    assert rs[0..] == rs;
    while i < count
      invariant 0 <= i <= count && loaded == i && off <= |buf| && queue.Valid()
      invariant ParseRecords(buf, off, count - i) == Some(rs[i..])
      invariant goal == (Import(queue.Model(), rs[i..], now).0, i + Import(queue.Model(), rs[i..], now).1)
    {
      NextRecord(buf, off, count - i);
      ImportNext(queue.Model(), rs[i..], now);
      assert rs[i..][1..] == rs[i + 1..];
      var friendnum, len := GetI32(buf, off), GetU32(buf, off + 4);
      off := off + RECORD_HEAD;
      var enqueued := queue.EnqueueMessage(friendnum, buf[off..off + len], now);
      off := off + len;
      if enqueued == Ok {
        loaded := loaded + 1;
      } else if enqueued == ErrFull {
        return FullError;
      } else {
        return FormatError;
      }
      i := i + 1;
    }
    ImportNothing(queue.Model(), rs[i..], now);
    return Restored(loaded);
  }

  lemma NextRecord(buf: bytes, off: nat, count: nat)
    requires off <= |buf| && 0 < count && ParseRecords(buf, off, count).Some?
    ensures off + RECORD_HEAD <= |buf|
    ensures var friendnum, len := GetI32(buf, off), GetU32(buf, off + 4);
            var rs := ParseRecords(buf, off, count).value;
            var start := off + RECORD_HEAD;
            && start + len <= |buf| && rs[0] == Record(friendnum, buf[start..start + len])
            && Acceptable(friendnum, rs[0].payload)
            && ParseRecords(buf, start + len, count - 1) == Some(rs[1..])
  {
    hide GetU32, GetI32;
    var rs := ParseRecords(buf, off, count).value;
    var rest := ParseRecords(buf, off + RECORD_HEAD + GetU32(buf, off + 4), count - 1);
    assert rs[1..] == rest.value;
  }

  /** One import step: refused only when the ring is full. */
  lemma ImportNext(q: Queue, rs: seq<Record>, now: int)
    requires Inv(q) && rs != [] && Acceptable(rs[0].friendnum, rs[0].payload)
    ensures var (q1, code) := Enqueue(q, rs[0].friendnum, rs[0].payload, now);
            var (q', n) := Import(q, rs, now);
            && code in {Ok, ErrFull}
            && (code == ErrFull ==> q' == q1 && n == 0)
            && (code == Ok ==> q' == Import(q1, rs[1..], now).0 && n == 1 + Import(q1, rs[1..], now).1)
  {
    hide Enqueue;
    EnqueueCounts(q, rs[0], now);
  }

  lemma ImportNothing(q: Queue, rs: seq<Record>, now: int)
    requires Shaped(q) && rs == []
    ensures Import(q, rs, now) == (q, 0)
  {
  }

  /** Restores the queue from its file, additively. */
  method LoadQueue(queue: MsgQueue, pathUsable: bool, file: FileRead, now: int) returns (code: LoadCode)
    requires queue.Valid()
    modifies queue, queue.ring
    ensures queue.Valid()
    ensures (queue.Model(), code) == Load(old(queue.Model()), pathUsable, file, now)
  {
    if !pathUsable {
      return PathError;
    }
    match file
    case Missing => return NoFile;
    case Unreadable => return IoError;
    case Contents(buf) =>
      if |buf| < HEADER_SIZE {
        return FormatError;
      }
      if buf[..8] != MAGIC || GetU32(buf, 8) != VERSION {
        return FormatError;
      }
      var count := GetU32(buf, 12);
      if count > queue.ring.Length {
        return FormatError;
      }
      var ok := ValidateRecords(buf, count);
      if !ok {
        return FormatError;
      }
      code := ImportRecords(queue, buf, count, now);
  }

  // ---------------------------------------------------------------------
  // What a load means
  // ---------------------------------------------------------------------

  /** All or nothing: unless the file is well formed the queue is untouched; then
      exactly the records that fit are enqueued, in file order. */
  lemma LoadIsAllOrNothing(q: Queue, pathUsable: bool, file: FileRead, now: int)
    requires Inv(q)
    ensures var (q', code) := Load(q, pathUsable, file, now);
            && Inv(q')
            && (code in {PathError, NoFile, IoError, FormatError} ==> q' == q)
            && (code == FormatError <==> pathUsable && file.Contents? && ParseFile(file.data, |q.ring|).None?)
            && (code.Restored? || code == FullError ==>
                  var rs := ParseFile(file.data, |q.ring|).value;
                  var k := Min(|rs|, |q.ring| - q.count);
                  && (code == FullError <==> |q.ring| - q.count < |rs|)
                  && (code.Restored? ==> code.n == |rs|)
                  && q'.count == q.count + k
                  && q' == EnqueueAll(q, rs[..k], now).(stats := q'.stats))
  {
    hide Inv;
    if pathUsable && file.Contents? && ParseFile(file.data, |q.ring|).Some? {
      ImportsWhatFits(q, ParseFile(file.data, |q.ring|).value, now);
    }
  }

  /** When a load appends. The imported messages stand behind those the queue held, in
      file order, if and only if there is room for them behind the last of these:
      nothing is stored from the slot the next message takes up to head. */
  lemma LoadAppendsIff(q: Queue, data: bytes, now: int)
    requires Inv(q) && ParseFile(data, |q.ring|).Some?
    ensures q.count <= |q.ring|
    ensures var rs := ParseFile(data, |q.ring|).value;
            var k := Min(|rs|, |q.ring| - q.count);
            var q' := Load(q, true, Contents(data), now).0;
            && (Messages(q') == Messages(q) + NewEntries(q.stats.enqueued, rs[..k], now) <==> RoomBehind(q, k))
            && (RoomBehind(q, k) ==> Records(Messages(q')) == Records(Messages(q)) + rs[..k])
  {
    hide Messages, Enqueue, EnqueueAll, Import, NewEntries, Sound, DistinctStamps, CountState, RoomBehind, ParseFile;
    var rs := ParseFile(data, |q.ring|).value;
    RoomBound(q);
    var k := Min(|rs|, |q.ring| - q.count);
    ImportsWhatFits(q, rs, now);
    AppendsAllIff(q, rs[..k], now);
    MessagesAt(EnqueueAll(q, rs[..k], now));
    MessagesAt(Import(q, rs, now).0);
    NewEntriesWait(q.stats.enqueued, rs[..k], now);
    RecordsConcat(Messages(q), NewEntries(q.stats.enqueued, rs[..k], now));
  }

  /** Without that room the promise fails. Three slots in flight and the middle one
      confirmed: the one restored message lands between the two older ones. */
  lemma LoadScatters()
    ensures var q := Run(History(Fresh(3), [], [], 0), HOLED).queue;
            var rs := [Record(0, [13])];
            Storable(rs) && Records(Messages(q)) == [Record(0, [10]), Record(0, [12])] &&
            var (q', code) := Load(q, true, Contents(Image(rs)), 0);
            code == Restored(1) &&
            Records(Messages(q')) == [Record(0, [10]), Record(0, [13]), Record(0, [12])]
  {
    hide Messages, Records, Image, ParseFile, Run, Enqueue, Confirm;
    var q := Run(History(Fresh(3), [], [], 0), HOLED).queue;
    var rs := [Record(0, [13])];
    HoledRun();
    MiddleConfirmed();
    HoleFilled();
    ImageRoundTrip(rs, [], 3);
    assert Image(rs) + [] == Image(rs);
    assert rs[1..] == [];
    var q' := Enqueue(q, 0, [13], 0).0;
    ReadHoled(q.ring);
    ReadOut(q'.ring);
    MessagesAt(q);
    MessagesAt(q');
    RecordsOf([InFlight(10, 0), InFlight(12, 2)]);
    RecordsOf([InFlight(10, 0), Waiting(13, 3), InFlight(12, 2)]);
  }

  lemma ReadHoled(ring: seq<Entry>)
    requires |ring| == 3 && Occupied(ring[0]) && !Occupied(ring[1]) && Occupied(ring[2])
    ensures Stored(Rotated(ring, 0)) == [ring[0], ring[2]]
  {
    assert Rotated(ring, 0) == ring;
    assert Stored(ring[1..][1..][1..]) == [];
    assert Stored(ring[1..][1..]) == [ring[2]];
  }

  lemma RecordsOf(es: seq<Entry>)
    requires 2 <= |es| <= 3
    ensures Records(es) == [Record(es[0].friendnum, es[0].payload), Record(es[1].friendnum, es[1].payload)]
                           + if |es| == 2 then [] else [Record(es[2].friendnum, es[2].payload)]
  {
  }

  /** Saving any queue and loading the file into a fresh one of the same capacity
      gives back the same messages in the same order, all waiting for a first
      attempt; a queue that was just initialised is never too small. */
  lemma SaveLoadRoundTrip(q: Queue, now: int)
    requires Inv(q) && |q.ring| < TWO32
    ensures var (q', code) := Load(Fresh(|q.ring|), true, Contents(QueueImage(q)), now);
            && Inv(q') && code == Restored(q.count)
            && Records(Messages(q')) == Records(Messages(q)) && Untried(Messages(q'))
  {
    hide Messages, Records, Image, ParseFile;
    MessagesStorable(q);
    var rs := Records(Messages(q));
    ImageRoundTrip(rs, [], |q.ring|);
    assert Image(rs) + [] == Image(rs);
    ImportIntoFresh(|q.ring|, rs, now);
  }
}
