/** The relay over the real tracker, archive and queue. */
module Relay {
  import opened Bytes
  import opened TgLines
  import opened Telegram
  import opened TgCodec
  import opened SnTracking
  import opened RelayPolicy
  import opened RelayModel
  import opened MqModel
  import opened MsgQueues
  import Db = MsgDatabase

  ghost function TrackerModel(t: SnTracker?): Option<Tracker>
    requires t != null ==> t.Valid()
    reads t, if t == null then {} else {t.pending}
  {
    if t == null then None else Some(t.Model())
  }

  class RelayEnv {
    const selfKey: CString
    const database: Db.Database
    const queue: MsgQueue
    var noted: seq<Noted>   // what the serial hook was told

    constructor (selfKey: CString, database: Db.Database, queue: MsgQueue)
      ensures this.selfKey == selfKey && this.database == database && this.queue == queue && noted == []
    {
      this.selfKey, this.database, this.queue, noted := selfKey, database, queue, [];
    }

    ghost predicate Valid()
      reads this, queue, queue.ring, database
    {
      queue.Valid() && Db.Sorted(database.rows)
    }

    /** Enqueues a record; a refusal is reported, not repaired. */
    method PostRecord(channel: int32, payload: bytes, now: int) returns (posted: bool)
      requires queue.Valid()
      modifies queue, queue.ring
      ensures queue.Valid()
      ensures (queue.Model(), posted) == Post(old(queue.Model()), channel, payload, now)
    {
      var code := queue.EnqueueMessage(channel, payload, now);
      posted := code == Ok;
    }

    method SendGapRequest(ch: Channel, from: int, to: int, now: int) returns (outcome: RelayOutcome)
      requires queue.Valid()
      modifies queue, queue.ring
      ensures queue.Valid()
      ensures (queue.Model(), outcome) == RequestGap(old(queue.Model()), selfKey, ch, from, to, now)
    {
      hide EncodeCmd, Enqueue;
      if !ch.hooks.enqueue || !ch.hooks.peerKey {
        return Discarded;
      }
      if ch.peer.None? {
        return NoPeer;
      }
      var wire := new byte[RELAY_WIRE_MAX];
      var n := WriteCmd(wire, ch.peer, Some(selfKey), from, to);
      if n <= 0 {
        return Discarded;
      }
      var posted := PostRecord(ch.number, wire[..n], now);
      return if posted then GapRequested else Discarded;
    }

    /** A delivery over the real tracker, archive and queue; the archive may refuse the row. */
    method DeliverText(tracker: SnTracker?, ch: Channel, m: Message, now: int) returns (outcome: RelayOutcome)
      requires Valid() && m.Text? && (tracker != null ==> tracker.Valid())
      modifies this, queue, queue.ring, database, tracker, if tracker == null then {} else {tracker.pending}
      ensures Valid() && (tracker != null ==> tracker.Valid())
      ensures (State(TrackerModel(tracker), database.Model(), queue.Model(), noted), outcome)
           == Deliver(old(State(TrackerModel(tracker), database.Model(), queue.Model(), noted)), selfKey, ch, m, now)
    {
      hide Accept, Enqueue, Db.Add, RequestGap;
      var verdict, gapFrom, gapTo := InOrder, 0, 0;
      if tracker != null {
        verdict, gapFrom, gapTo := tracker.AcceptSerial(m.sn, RELAY_MAX_GAP);
      }
      if verdict == Duplicate {
        return DuplicateRecord;
      }
      if ch.hooks.store {
        var _ := database.AddRow(ch.number, m.sn, m.timestamp, CStr(m.sender), Db.Incoming, CStr(m.body));
      }
      if ch.hooks.remember {
        noted := noted + [Noted(ch.number, m.sn)];
      }
      match verdict
      case Gap =>
        var asked := SendGapRequest(ch, gapFrom, gapTo, now);
        return if asked == GapRequested then GapRequested else StoredRecord;
      case Recovered => return RecoveredRecord;
      case Resync => return Resynced;
      case _ => return StoredRecord;
    }

    /** One archived row, encoded again and put into the queue. */
    method SendArchived(ch: Channel, row: Db.Row, now: int) returns (posted: bool)
      requires queue.Valid()
      modifies queue, queue.ring
      ensures queue.Valid()
      ensures (queue.Model(), posted) == ServeOne(old(queue.Model()), selfKey, ch, row, now)
    {
      hide EncodeText, Enqueue;
      var wire := new byte[RELAY_WIRE_MAX];
      var len := WriteText(wire, ch.peer, Some(selfKey), row.sn, row.time, Some(row.message));
      if len <= 0 {
        return false;
      }
      posted := PostRecord(ch.number, wire[..len], now);
    }

    method ServeRequest(ch: Channel, from: int, to: int, now: int) returns (outcome: RelayOutcome)
      requires Valid()
      modifies queue, queue.ring
      ensures Valid()
      ensures (queue.Model(), outcome)
           == ServeReplay(database.Model(), old(queue.Model()), selfKey, ch, from, to, now)
    {
      hide ServeOne, Enqueue, Db.Query;
      if !ch.hooks.fetch || !ch.hooks.enqueue || !ch.hooks.peerKey {
        return Discarded;
      }
      if ch.peer.None? {
        return NoPeer;
      }
      var records := database.QueryRange(ch.number, Db.Outgoing, from, to, RELAY_MAX_REPLAY);
      if |records| == 0 {
        return NothingStored;
      }
      var queued := 0;
      ghost var goal := ServeAll(queue.Model(), selfKey, ch, records, now);
      assert records[0..] == records;
      for i := 0 to |records|
        invariant queue.Valid()
        invariant goal == (ServeAll(queue.Model(), selfKey, ch, records[i..], now).0,
                           queued + ServeAll(queue.Model(), selfKey, ch, records[i..], now).1)
      {
        assert records[i..][0] == records[i] && records[i..][1..] == records[i + 1..];
        var posted := SendArchived(ch, records[i], now);
        if posted {
          queued := queued + 1;
        }
      }
      return if queued > 0 then ReplayServed else NothingStored;
    }

    /** Handles one raw record from a channel. */
    method ReceiveRecord(tracker: SnTracker?, ch: Channel, destination: int32, raw: bytes, now: int)
        returns (outcome: RelayOutcome)
      requires Valid() && (tracker != null ==> tracker.Valid())
      modifies this, queue, queue.ring, database, tracker, if tracker == null then {} else {tracker.pending}
      ensures Valid() && (tracker != null ==> tracker.Valid())
      ensures (State(TrackerModel(tracker), database.Model(), queue.Model(), noted), outcome)
           == Receive(old(State(TrackerModel(tracker), database.Model(), queue.Model(), noted)), selfKey, ch,
                      destination, raw, now)
    {
      hide Decode, Deliver, ServeReplay, Enqueue;
      if !ch.hooks.selfKey || raw == [] || ch.number < 0 {
        return Discarded;
      }
      var decoded := DecodeRecord(raw);
      if decoded.None? {
        return Discarded;
      }
      var m := decoded.value;
      if m.Text? {
        if m.receiver == selfKey {
          outcome := DeliverText(tracker, ch, m, now);
          return;
        }
        if !ch.hooks.resolve || !ch.hooks.enqueue {
          return Discarded;
        }
        if destination < 0 {
          return NoRoute;
        }
        var payload := if ch.hooks.isMetacom && ch.metacom then CStr(raw) else CStr(m.body);
        var posted := PostRecord(destination, payload, now);
        return if posted then Relayed else Discarded;
      }
      if m.receiver != selfKey {
        return Discarded;
      }
      outcome := ServeRequest(ch, m.sn, m.snTo, now);
    }
  }
}
