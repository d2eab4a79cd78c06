/** The relay's decisions on values: what a received record does to the tracker,
    the archive and the delivery queue. */
module RelayModel {
  import opened Bytes
  import opened Serials
  import opened TgLines
  import opened Telegram
  import opened SnTracking
  import opened RelayPolicy
  import opened MqModel
  import Db = MsgDatabase

  const RELAY_WIRE_MAX := 1400

  datatype RelayOutcome =
    | StoredRecord | DuplicateRecord | GapRequested | RecoveredRecord | Resynced
    | Relayed | NoRoute | NoPeer | ReplayServed | NothingStored | Discarded

  /** Which parts of the environment are there at all. */
  datatype Hooks = Hooks(selfKey: bool, store: bool, remember: bool, enqueue: bool, peerKey: bool,
                         fetch: bool, resolve: bool, isMetacom: bool)

  /** What the environment offers, and what it knows about the channel a record came
      from. */
  datatype Channel = Channel(number: int32, peer: Option<CString>, metacom: bool, hooks: Hooks)

  /** A call of the hook that notes the last serial of a channel. */
  datatype Noted = Noted(channel: int32, sn: int)

  datatype State = State(tracker: Option<Tracker>, archive: Db.Archive, queue: Queue, noted: seq<Noted>)

  /** A message enqueued for a channel, or refused. */
  function Post(q: Queue, channel: int32, payload: bytes, now: int): (r: (Queue, bool))
    requires Shaped(q)
    ensures Shaped(r.0) && |r.0.ring| == |q.ring|
  {
    var (q', code) := Enqueue(q, channel, payload, now);
    (q', code == Ok)
  }

  /** The request for a missing range, put into the queue. */
  function RequestGap(q: Queue, self: CString, ch: Channel, from: int, to: int, now: int): (r: (Queue, RelayOutcome))
    requires Shaped(q)
    ensures Shaped(r.0) && |r.0.ring| == |q.ring|
  {
    if !ch.hooks.enqueue || !ch.hooks.peerKey then (q, Discarded)
    else if ch.peer.None? then (q, NoPeer)
    else
      var wire := EncodeCmd(RELAY_WIRE_MAX, ch.peer, Some(self), from, to);
      if !wire.Wire? || |wire.data| == 0 then (q, Discarded)
      else
        var (q', posted) := Post(q, ch.number, wire.data, now);
        (q', if posted then GapRequested else Discarded)
  }

  /** What a telegram addressed to this relay does to tracker, archive and queue. */
  function Deliver(s: State, self: CString, ch: Channel, m: Message, now: int): (r: (State, RelayOutcome))
    requires m.Text? && Shaped(s.queue) && (s.tracker.Some? ==> SnValid(s.tracker.value.expected))
    ensures Shaped(r.0.queue) && (r.0.tracker.Some? ==> SnValid(r.0.tracker.value.expected))
  {
    var a := if s.tracker.Some? then Accept(s.tracker.value, m.sn, RELAY_MAX_GAP)
             else Arrival(Initial(1), InOrder, 0, 0);
    var s1 := s.(tracker := if s.tracker.Some? then Some(a.tracker) else None);
    if !Stores(a.verdict) then (s1, DuplicateRecord)
    else
      var added := Db.Add(s.archive, ch.number, m.sn, m.timestamp, CStr(m.sender), Db.Incoming, CStr(m.body)).0;
      var s2 := s1.(archive := if ch.hooks.store then added else s.archive,
                    noted := if ch.hooks.remember then s.noted + [Noted(ch.number, m.sn)] else s.noted);
      match a.verdict
      case Gap =>
        var (q', outcome) := RequestGap(s.queue, self, ch, a.gapFrom, a.gapTo, now);
        (s2.(queue := q'), if outcome == GapRequested then GapRequested else StoredRecord)
      case Recovered => (s2, RecoveredRecord)
      case Resync => (s2, Resynced)
      case _ => (s2, StoredRecord)
  }

  /** Re-encode and enqueue one archived record; what cannot be encoded is skipped. */
  function ServeOne(q: Queue, self: CString, ch: Channel, row: Db.Row, now: int): (r: (Queue, bool))
    requires Shaped(q)
    ensures Shaped(r.0) && |r.0.ring| == |q.ring|
  {
    var wire := EncodeText(RELAY_WIRE_MAX, ch.peer, Some(self), row.sn, row.time, Some(row.message));
    if !wire.Wire? || |wire.data| == 0 then (q, false) else Post(q, ch.number, wire.data, now)
  }

  function ServeAll(q: Queue, self: CString, ch: Channel, rows: seq<Db.Row>, now: int): (r: (Queue, nat))
    requires Shaped(q)
    ensures Shaped(r.0) && |r.0.ring| == |q.ring| && r.1 <= |rows|
    decreases |rows|
  {
    if rows == [] then (q, 0)
    else
      var (q1, posted) := ServeOne(q, self, ch, rows[0], now);
      var (q2, n) := ServeAll(q1, self, ch, rows[1..], now);
      (q2, if posted then n + 1 else n)
  }

  /** The answer to a request: the archived rows of its range, sent once more. */
  function ServeReplay(archive: Db.Archive, q: Queue, self: CString, ch: Channel, from: int, to: int, now: int)
      : (r: (Queue, RelayOutcome))
    requires Shaped(q)
    ensures Shaped(r.0)
  {
    if !ch.hooks.fetch || !ch.hooks.enqueue || !ch.hooks.peerKey then (q, Discarded)
    else if ch.peer.None? then (q, NoPeer)
    else
      var rows := Db.Query(archive, ch.number, Db.Outgoing, from, to, RELAY_MAX_REPLAY);
      if rows == [] then (q, NothingStored)
      else
        var (q', n) := ServeAll(q, self, ch, rows, now);
        (q', if 0 < n then ReplayServed else NothingStored)
  }

  /** Passing on: between relays the whole record travels, otherwise the body alone. */
  function Forward(q: Queue, ch: Channel, destination: int32, raw: bytes, body: bytes, now: int)
      : (r: (Queue, RelayOutcome))
    requires Shaped(q)
    ensures Shaped(r.0)
  {
    if !ch.hooks.resolve || !ch.hooks.enqueue then (q, Discarded)
    else if destination < 0 then (q, NoRoute)
    else
      var payload := if ch.hooks.isMetacom && ch.metacom then CStr(raw) else CStr(body);
      var (q', posted) := Post(q, destination, payload, now);
      (q', if posted then Relayed else Discarded)
  }

  /** One raw record from a channel; destination is where its receiver is found. */
  function Receive(s: State, self: CString, ch: Channel, destination: int32, raw: bytes, now: int)
      : (r: (State, RelayOutcome))
    requires Shaped(s.queue) && (s.tracker.Some? ==> SnValid(s.tracker.value.expected))
    ensures Shaped(r.0.queue) && (r.0.tracker.Some? ==> SnValid(r.0.tracker.value.expected))
  {
    if !ch.hooks.selfKey || raw == [] || ch.number < 0 then (s, Discarded)
    else match Decode(raw)
      case None => (s, Discarded)
      case Some(m) =>
        if m.Text? && m.receiver == self then Deliver(s, self, ch, m, now)
        else if m.Text? then
          var (q', outcome) := Forward(s.queue, ch, destination, raw, m.body, now);
          (s.(queue := q'), outcome)
        else if m.receiver != self then (s, Discarded)
        else
          var (q', outcome) := ServeReplay(s.archive, s.queue, self, ch, m.sn, m.snTo, now);
          (s.(queue := q'), outcome)
  }
}
