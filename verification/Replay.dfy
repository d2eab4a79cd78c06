/** Loss and recovery end to end: a gap is requested, served from the archive and
    closed by the replayed telegrams. */
module Replay {
  import opened Bytes
  import opened Serials
  import opened TgLines
  import opened Telegram
  import opened TgRoundTrip
  import opened SnTracking
  import opened RelayPolicy
  import opened RelayModel
  import opened MqModel
  import opened MqImport
  import opened MissingRange
  import Db = MsgDatabase

  // ---------------------------------------------------------------------
  // Sizes
  // ---------------------------------------------------------------------

  predicate KeyOk(key: CString) {
    FieldOk(Some(key))
  }

  /** The peer is known, both keys are usable, and nothing of the environment is missing. */
  predicate Connected(self: CString, ch: Channel) {
    && ch.peer.Some? && KeyOk(ch.peer.value) && KeyOk(self) && 0 <= ch.number
    && ch.hooks.selfKey && ch.hooks.store && ch.hooks.enqueue && ch.hooks.peerKey && ch.hooks.fetch
  }

  /** Every telegram the relay can build fits its wire buffer and the queue. */
  lemma WireFits(receiver: CString, sender: CString, sn: nat, timestamp: int64, body: bytes, from: int, to: int)
    requires KeyOk(receiver) && KeyOk(sender) && sn < 10000 && |body| < Db.MESSAGE_MAX
    requires SnValid(from) && SnValid(to)
    ensures 0 < |TextWire(receiver, sender, sn, timestamp, body)| < MQ_PAYLOAD_MAX < RELAY_WIRE_MAX
    ensures 0 < |CmdWire(receiver, sender, from, to)| < MQ_PAYLOAD_MAX
  {
    hide Meta, Request;
    MetaPlain(sn, timestamp);
    RequestPlain(from, to);
  }

  // ---------------------------------------------------------------------
  // Asking
  // ---------------------------------------------------------------------

  /** A telegram that reveals a gap puts exactly the request for it into the queue. */
  lemma GapIsRequested(s: State, self: CString, ch: Channel, m: Message, now: int)
    requires m.Text? && s.tracker.Some? && SnValid(s.tracker.value.expected)
    requires Accept(s.tracker.value, m.sn, RELAY_MAX_GAP).verdict == Gap
    requires Connected(self, ch)
    requires Inv(s.queue) && s.queue.count < |s.queue.ring|
    ensures var a := Accept(s.tracker.value, m.sn, RELAY_MAX_GAP);
            var (s', outcome) := Deliver(s, self, ch, m, now);
            && outcome == GapRequested
            && s'.tracker == Some(a.tracker)
            && s'.queue == Enqueue(s.queue, ch.number, CmdWire(ch.peer.value, self, a.gapFrom, a.gapTo), now).0
  {
    hide Accept, CmdWire, FieldOk, Enqueue, Sound, DistinctStamps, CountState;
    MissingRangesAgree(s.tracker.value, m.sn);
    var a := Accept(s.tracker.value, m.sn, RELAY_MAX_GAP);
    WireFits(ch.peer.value, self, 1, 0, [], a.gapFrom, a.gapTo);
    var wire := CmdWire(ch.peer.value, self, a.gapFrom, a.gapTo);
    EnqueueCounts(s.queue, Record(ch.number, wire), now);
  }

  // ---------------------------------------------------------------------
  // Serving
  // ---------------------------------------------------------------------

  /** The archived message can be sent and will be read back as it is. */
  predicate Replayable(row: Db.Row) {
    SnValid(row.sn) && SafeBody(row.message) && BodyOk(Some(row.message))
  }

  predicate AllReplayable(rows: seq<Db.Row>) {
    forall i :: 0 <= i < |rows| ==> Replayable(rows[i])
  }

  /** The record a row is sent as. */
  function ReplyWire(peer: CString, self: CString, row: Db.Row): bytes
    requires Replayable(row)
  {
    TextWire(peer, self, row.sn, row.time, row.message)
  }

  function Replies(peer: CString, self: CString, channel: int32, rows: seq<Db.Row>): (r: seq<Record>)
    requires AllReplayable(rows)
    ensures |r| == |rows|
    ensures forall i :: 0 <= i < |rows| ==> r[i] == Record(channel, ReplyWire(peer, self, rows[i]))
  {
    seq(|rows|, i requires 0 <= i < |rows| => Record(channel, ReplyWire(peer, self, rows[i])))
  }

  lemma ServesOne(q: Queue, self: CString, ch: Channel, row: Db.Row, now: int)
    requires Inv(q) && q.count < |q.ring| && Replayable(row)
    requires Connected(self, ch)
    ensures var wire := ReplyWire(ch.peer.value, self, row);
            var q' := Enqueue(q, ch.number, wire, now).0;
            && ServeOne(q, self, ch, row, now) == (q', true)
            && Inv(q') && q'.count == q.count + 1 && |q'.ring| == |q.ring|
  {
    hide TextWire, Enqueue, FieldOk, Lines, NoRecordEnd, Sound, DistinctStamps, CountState;
    WireFits(ch.peer.value, self, row.sn, row.time, row.message, 1, 1);
    EnqueueCounts(q, Record(ch.number, ReplyWire(ch.peer.value, self, row)), now);
  }

  /** With room for all of them, every archived row is enqueued, in archive order. */
  lemma {:induction false} ServesEvery(q: Queue, self: CString, ch: Channel, rows: seq<Db.Row>, now: int)
    requires Inv(q) && q.count + |rows| <= |q.ring| && AllReplayable(rows)
    requires Connected(self, ch)
    ensures ServeAll(q, self, ch, rows, now)
         == (EnqueueAll(q, Replies(ch.peer.value, self, ch.number, rows), now), |rows|)
    decreases |rows|
  {
    hide Enqueue, ServeOne, Sound, DistinctStamps, CountState, ReplyWire, Replayable, FieldOk;
    if rows != [] {
      ServesOne(q, self, ch, rows[0], now);
      var q1 := Enqueue(q, ch.number, ReplyWire(ch.peer.value, self, rows[0]), now).0;
      ServesEvery(q1, self, ch, rows[1..], now);
      assert Replies(ch.peer.value, self, ch.number, rows)[1..] == Replies(ch.peer.value, self, ch.number, rows[1..]);
    }
  }

  lemma BoundedKeepsSafe(rows: seq<Db.Row>)
    requires AllReplayable(rows)
    ensures Db.BoundedAll(rows) == rows
  {
    hide Lines, NoRecordEnd;
    forall i | 0 <= i < |rows|
      ensures Db.Bounded(rows[i]) == rows[i]
    {
      assert Replayable(rows[i]);
    }
  }

  /** The rows a request of ours is answered with: the oldest ones it selects. */
  function Hits(archive: Db.Archive, channel: int32, from: int, to: int): (hits: seq<Db.Row>)
    ensures |hits| <= RELAY_MAX_REPLAY
  {
    var selected := Db.Select(archive.rows, channel, Db.Outgoing, from, to);
    if |selected| <= RELAY_MAX_REPLAY then selected else selected[..RELAY_MAX_REPLAY]
  }

  lemma ServesRequest(archive: Db.Archive, q: Queue, self: CString, ch: Channel, from: int, to: int, now: int)
    requires Inv(q) && Connected(self, ch)
    requires SnValid(from) && SnValid(to) && archive.ready
    requires var hits := Hits(archive, ch.number, from, to);
             0 < |hits| && AllReplayable(hits) && q.count + |hits| <= |q.ring|
    ensures ServeReplay(archive, q, self, ch, from, to, now)
         == (EnqueueAll(q, Replies(ch.peer.value, self, ch.number, Hits(archive, ch.number, from, to)), now),
             ReplayServed)
  {
    hide FieldOk, Sound, DistinctStamps, CountState, Db.Select, ServeAll, EnqueueAll;
    var hits := Hits(archive, ch.number, from, to);
    BoundedKeepsSafe(hits);
    ServesEvery(q, self, ch, hits, now);
  }

  /** A request addressed to us reaches the archive. */
  lemma ReceivesRequest(s: State, self: CString, ch: Channel, destination: int32, from: int, to: int, now: int)
    requires Shaped(s.queue) && (s.tracker.Some? ==> SnValid(s.tracker.value.expected))
    requires Connected(self, ch)
    requires SnValid(from) && SnValid(to)
    ensures var (q', outcome) := ServeReplay(s.archive, s.queue, self, ch, from, to, now);
            Receive(s, self, ch, destination, CmdWire(self, ch.peer.value, from, to), now)
            == (s.(queue := q'), outcome)
  {
    FieldPlain(Some(self));
    FieldPlain(ch.peer);
    CmdDecodes(self, ch.peer.value, from, to, []);
    WireFits(self, ch.peer.value, 1, 0, [], from, to);
    hide Decode, CmdWire, FieldOk, PlainLine, ServeReplay;
    var wire := CmdWire(self, ch.peer.value, from, to);
    assert wire + [] == wire;
  }

  /** A request is decoded and answered with the rows it selects, at most 64. */
  lemma RequestIsServed(s: State, self: CString, ch: Channel, destination: int32, from: int, to: int, now: int)
    requires Inv(s.queue) && (s.tracker.Some? ==> SnValid(s.tracker.value.expected))
    requires Connected(self, ch)
    requires SnValid(from) && SnValid(to) && s.archive.ready
    requires var hits := Hits(s.archive, ch.number, from, to);
             0 < |hits| && AllReplayable(hits) && s.queue.count + |hits| <= |s.queue.ring|
    ensures Receive(s, self, ch, destination, CmdWire(self, ch.peer.value, from, to), now)
         == (s.(queue := EnqueueAll(s.queue, Replies(ch.peer.value, self, ch.number,
                                                     Hits(s.archive, ch.number, from, to)), now)), ReplayServed)
  {
    hide CmdWire, FieldOk, Sound, DistinctStamps, CountState, Receive, ServeReplay, Hits;
    ReceivesRequest(s, self, ch, destination, from, to, now);
    ServesRequest(s.archive, s.queue, self, ch, from, to, now);
  }
}
