/** Requests for missing ranges: when one is put into the queue, and what exactly one is
    answered with, whatever the archive holds and however full the queue is. */
module Requests {
  import opened Bytes
  import opened Telegram
  import opened TgFraming
  import opened RelayModel
  import opened MqModel
  import opened MqInvariant
  import opened MqImport
  import opened MqDelivery
  import opened Replay
  import opened Forwarding
  import Db = MsgDatabase

  // ---------------------------------------------------------------------
  // Asking
  // ---------------------------------------------------------------------

  /** Asking for a range, exactly: it succeeds if and only if the peer's key is known and
      the queue can take the request, which is then the one message that is added. */
  lemma AsksExactly(q: Queue, self: CString, ch: Channel, from: int, to: int, now: int)
    requires Inv(q) && 1 <= from <= 999 && 1 <= to <= 999
    ensures var (q', outcome) := RequestGap(q, self, ch, from, to, now);
            var able := ch.hooks.enqueue && ch.hooks.peerKey;
            && (outcome == NoPeer <==> able && ch.peer == None)
            && (outcome == GapRequested <==>
                  able && GoodField(ch.peer) && GoodField(Some(self)) && 0 <= ch.number
                  && |Messages(q)| < |q.ring|)
            && (outcome in {NoPeer, GapRequested, Discarded})
            && (outcome == GapRequested ==>
                  Added(Messages(q), Messages(q'), ch.number, CmdWire(ch.peer.value, self, from, to)))
            && (outcome != GapRequested ==> Messages(q') == Messages(q))
  {
    EncodeCmdExactly(RELAY_WIRE_MAX, ch.peer, Some(self), from, to);
    if GoodField(ch.peer) && GoodField(Some(self)) {
      WireFits(ch.peer.value, self, 1, 0, [], from, to);
      var wire := CmdWire(ch.peer.value, self, from, to);
      EnqueueExactly(q, ch.number, wire, now);
      hide EncodeCmd, CmdWire, Enqueue, Messages, Inv, GoodField;
      var q' := Enqueue(q, ch.number, wire, now).0;
      if Enqueue(q, ch.number, wire, now).1 == Ok {
        EnqueuedIsAdded(Messages(q), Messages(q'), ch.number, wire);
      }
    }
  }

  lemma EnqueuedIsAdded(ms: seq<Entry>, ms': seq<Entry>, friendnum: int32, payload: bytes)
    requires exists p: nat, e :: p <= |ms| && ms' == ms[..p] + [e] + ms[p..]
                                 && e.friendnum == friendnum && e.payload == payload && e.state == Pending
                                 && e.attempts == 0
    ensures Added(ms, ms', friendnum, payload)
  {
  }

  // ---------------------------------------------------------------------
  // Answering
  // ---------------------------------------------------------------------

  /** The row can be written as a telegram. */
  ghost predicate CanSend(self: CString, peer: Option<CString>, row: Db.Row) {
    && GoodField(peer) && GoodField(Some(self)) && 1 <= row.sn <= 999
    && !exists i: nat :: EndsAt(row.message, i)
  }

  /** The telegrams of the rows that can be written, in the order of the rows. */
  ghost function Sendings(self: CString, peer: Option<CString>, channel: int32, rows: seq<Db.Row>): seq<Record> {
    if rows == [] then []
    else
      var rest := Sendings(self, peer, channel, rows[1..]);
      if CanSend(self, peer, rows[0])
      then [Record(channel, TextWire(peer.value, self, rows[0].sn, rows[0].time, rows[0].message))] + rest
      else rest
  }

  lemma OneServed(q: Queue, self: CString, ch: Channel, row: Db.Row, now: int)
    requires Inv(q) && 0 <= ch.number && |row.message| < 1024
    ensures q.count <= |q.ring|
    ensures var (q', posted) := ServeOne(q, self, ch, row, now);
            if !CanSend(self, ch.peer, row) then (q', posted) == (q, false)
            else if q.count == |q.ring| then
              !posted && Inv(q') && q' == q.(stats := q.stats.(fullRejections := q.stats.fullRejections + 1))
            else
              var wire := TextWire(ch.peer.value, self, row.sn, row.time, row.message);
              posted && Inv(q') && q' == Enqueue(q, ch.number, wire, now).0
              && q'.count == q.count + 1 && |q'.ring| == |q.ring|
  {
    RoomBound(q);
    EncodeTextExactly(RELAY_WIRE_MAX, ch.peer, Some(self), row.sn, row.time, Some(row.message));
    if CanSend(self, ch.peer, row) {
      WireFits(ch.peer.value, self, row.sn, row.time, row.message, 1, 1);
      EnqueueCounts(q, Record(ch.number, TextWire(ch.peer.value, self, row.sn, row.time, row.message)), now);
    }
    hide EncodeText, TextWire, Enqueue, Inv, GoodField, EndsAt;
  }

  /** Of these telegrams as many as fit were enqueued, in their order; each of the others
      was a counted refusal. */
  ghost predicate Takes(q: Queue, rs: seq<Record>, now: int, q': Queue, n: nat)
    requires Shaped(q)
  {
    && q.count <= |q.ring|
    && n == Min(|rs|, |q.ring| - q.count)
    && var all := EnqueueAll(q, rs[..n], now);
       q' == all.(stats := all.stats.(fullRejections := all.stats.fullRejections + |rs| - n))
  }

  lemma TakesNothing(q: Queue, now: int)
    requires Shaped(q) && q.count <= |q.ring|
    ensures Takes(q, [], now, q, 0)
  {
  }

  lemma TakesFirst(q: Queue, q1: Queue, r: Record, rest: seq<Record>, now: int, q': Queue, n: nat)
    requires Shaped(q) && q.count < |q.ring|
    requires q1 == Enqueue(q, r.friendnum, r.payload, now).0 && q1.count == q.count + 1
    requires Takes(q1, rest, now, q', n)
    ensures Takes(q, [r] + rest, now, q', n + 1)
  {
    hide Enqueue;
    assert ([r] + rest)[..n + 1] == [r] + rest[..n];
    assert ([r] + rest[..n])[1..] == rest[..n];
  }

  lemma RefusesFirst(q: Queue, r: Record, rest: seq<Record>, now: int, q': Queue, n: nat)
    requires Shaped(q) && q.count == |q.ring|
    requires Takes(q.(stats := q.stats.(fullRejections := q.stats.fullRejections + 1)), rest, now, q', n)
    ensures n == 0 && Takes(q, [r] + rest, now, q', n)
  {
    assert rest[..0] == [] && ([r] + rest)[..0] == [];
  }

  /** The rows that can be written are enqueued as far as they fit; the others are passed
      over. */
  lemma {:induction false} ServesWhatFits(q: Queue, self: CString, ch: Channel, rows: seq<Db.Row>, now: int)
    requires Inv(q) && 0 <= ch.number
    requires forall i :: 0 <= i < |rows| ==> |rows[i].message| < 1024
    ensures var (q', n) := ServeAll(q, self, ch, rows, now);
            Takes(q, Sendings(self, ch.peer, ch.number, rows), now, q', n)
    decreases |rows|
  {
    RoomBound(q);
    if rows == [] {
      TakesNothing(q, now);
    } else {
      hide Inv, Enqueue, ServeOne, CanSend, TextWire, Takes;
      OneServed(q, self, ch, rows[0], now);
      var q1 := ServeOne(q, self, ch, rows[0], now).0;
      ServesWhatFits(q1, self, ch, rows[1..], now);
      ServeAllFirst(q, self, ch, rows, now);
      var (q', n) := ServeAll(q1, self, ch, rows[1..], now);
      hide ServeAll;
      if CanSend(self, ch.peer, rows[0]) {
        var r := Record(ch.number, TextWire(ch.peer.value, self, rows[0].sn, rows[0].time, rows[0].message));
        var rest := Sendings(self, ch.peer, ch.number, rows[1..]);
        if q.count < |q.ring| {
          TakesFirst(q, q1, r, rest, now, q', n);
        } else {
          RefusesFirst(q, r, rest, now, q', n);
        }
      }
    }
  }

  lemma ServeAllFirst(q: Queue, self: CString, ch: Channel, rows: seq<Db.Row>, now: int)
    requires Shaped(q) && rows != []
    ensures var (q1, posted) := ServeOne(q, self, ch, rows[0], now);
            var (q2, n) := ServeAll(q1, self, ch, rows[1..], now);
            ServeAll(q, self, ch, rows, now) == (q2, if posted then n + 1 else n)
  {
    hide ServeOne, Enqueue, EncodeText, TextWire;
  }

  /** A request, exactly. It needs the archive, the queue and the peer's key; then the
      telegrams of the first 64 rows it selects are enqueued as far as they fit, and it
      counts as served if and only if there was one. */
  lemma ServesExactly(archive: Db.Archive, q: Queue, self: CString, ch: Channel, from: int, to: int, now: int)
    requires Inv(q) && 0 <= ch.number
    ensures var (q', outcome) := ServeReplay(archive, q, self, ch, from, to, now);
            var able := ch.hooks.fetch && ch.hooks.enqueue && ch.hooks.peerKey;
            if !able then (q', outcome) == (q, Discarded)
            else if ch.peer == None then (q', outcome) == (q, NoPeer)
            else
              var rs := Sendings(self, ch.peer, ch.number, Db.Query(archive, ch.number, Db.Outgoing, from, to, 64));
              var k := if |rs| <= |q.ring| - q.count then |rs| else |q.ring| - q.count;
              0 <= k <= |rs| && Messages(q') == Messages(EnqueueAll(q, rs[..k], now))
              && outcome == if 0 < k then ReplayServed else NothingStored
  {
    var rows := Db.Query(archive, ch.number, Db.Outgoing, from, to, 64);
    QueryBounded(archive, ch.number, from, to);
    hide Db.Query, Inv;
    ServesWhatFits(q, self, ch, rows, now);
    hide ServeAll, Sendings;
    if rows == [] {
      NothingSent(self, ch.peer, ch.number);
    }
  }

  lemma NothingSent(self: CString, peer: Option<CString>, channel: int32)
    ensures Sendings(self, peer, channel, []) == []
  {
  }

  lemma QueryBounded(archive: Db.Archive, channel: int32, from: int, to: int)
    ensures var rows := Db.Query(archive, channel, Db.Outgoing, from, to, 64);
            forall i :: 0 <= i < |rows| ==> |rows[i].message| < 1024
  {
    hide Db.Select;
  }
}
