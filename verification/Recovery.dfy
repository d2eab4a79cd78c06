/** Recovery end to end: replayed telegrams close the gap that was reported, and when
    they bring back what was lost. */
module Recovery {
  import opened Bytes
  import opened Serials
  import opened TgLines
  import opened Telegram
  import opened TgRoundTrip
  import opened SnTracking
  import opened TrackerSimulation
  import opened RelayPolicy
  import opened RelayModel
  import opened MqModel
  import opened MqImport
  import opened MissingRange
  import opened Replay
  import Db = MsgDatabase

  // ---------------------------------------------------------------------
  // One reply
  // ---------------------------------------------------------------------

  /** A serial that was asked for leaves the outstanding set and nothing else changes. */
  lemma TakesOne(t: Tracker, sn: int)
    requires SnValid(t.expected) && SnValid(sn) && sn in t.pending
    ensures var a := Accept(t, sn, RELAY_MAX_GAP);
            && a.verdict == Recovered
            && a.tracker == t.(pending := a.tracker.pending)
            && multiset(a.tracker.pending) == multiset(t.pending) - multiset{sn}
  {
    var i := IndexOf(t.pending, sn);
    SwapRemoveMultiset(t.pending, i);
  }

  lemma ReplyDecodes(peer: CString, self: CString, row: Db.Row)
    requires KeyOk(peer) && KeyOk(self) && Replayable(row)
    ensures Decode(ReplyWire(peer, self, row)) == Some(Text(peer, self, row.sn, row.time, row.message))
    ensures ReplyWire(peer, self, row) != []
  {
    FieldPlain(Some(peer));
    FieldPlain(Some(self));
    hide Decode, FieldOk, PlainLine, TextWire, SafeBody, NoRecordEnd, Lines;
    TextRoundTrip(peer, self, row.sn, row.time, row.message, []);
    var wire := ReplyWire(peer, self, row);
    assert wire + [] == wire;
    WireFits(peer, self, row.sn, row.time, RowBound(row), 1, 1);
  }

  function RowBound(row: Db.Row): (m: bytes)
    requires Replayable(row)
    ensures m == row.message && |m| < Db.MESSAGE_MAX
  {
    row.message
  }

  lemma DeliversRecovered(s: State, self: CString, ch: Channel, m: Message, now: int)
    requires m.Text? && Shaped(s.queue) && s.tracker.Some? && SnValid(s.tracker.value.expected)
    requires SnValid(m.sn) && m.sn in s.tracker.value.pending && ch.hooks.store
    ensures var (s', outcome) := Deliver(s, self, ch, m, now);
            && outcome == RecoveredRecord
            && s' == s.(tracker := Some(Accept(s.tracker.value, m.sn, RELAY_MAX_GAP).tracker),
                        archive := Db.Add(s.archive, ch.number, m.sn, m.timestamp, CStr(m.sender), Db.Incoming,
                                          CStr(m.body)).0,
                        noted := s'.noted)
  {
    TakesOne(s.tracker.value, m.sn);
    hide Accept, Db.Add, CStr, RequestGap;
  }

  /** A replayed telegram that was asked for arrives as recovered and is stored. */
  lemma RecoversOne(s: State, self: CString, ch: Channel, destination: int32, row: Db.Row, now: int)
    requires Shaped(s.queue) && s.tracker.Some? && SnValid(s.tracker.value.expected)
    requires Connected(self, ch)
    requires Replayable(row) && row.sn in s.tracker.value.pending
    ensures var (s', outcome) := Receive(s, self, ch, destination, ReplyWire(self, ch.peer.value, row), now);
            && outcome == RecoveredRecord
            && s' == s.(tracker := Some(Accept(s.tracker.value, row.sn, RELAY_MAX_GAP).tracker),
                        archive := Db.Add(s.archive, ch.number, row.sn, row.time, ch.peer.value, Db.Incoming,
                                          row.message).0,
                        noted := s'.noted)
  {
    hide Decode, ReplyWire, FieldOk, Accept, Db.Add, CStr, Deliver, SafeBody, NoRecordEnd, Lines;
    ReplyDecodes(self, ch.peer.value, row);
    DeliversRecovered(s, self, ch, Text(self, ch.peer.value, row.sn, row.time, row.message), now);
    Whole(ch.peer.value);
    Whole(row.message);
  }

  lemma Whole(c: CString)
    ensures CStr(c) == c
  {
  }

  // ---------------------------------------------------------------------
  // Many replies
  // ---------------------------------------------------------------------

  /** A record as it is received. */
  datatype Hop = Hop(wire: bytes, destination: int32, now: int)

  /** Records received one after the other. */
  function ReceiveEach(s: State, self: CString, ch: Channel, hops: seq<Hop>): (r: (State, seq<RelayOutcome>))
    requires Shaped(s.queue) && (s.tracker.Some? ==> SnValid(s.tracker.value.expected))
    decreases |hops|
  {
    if hops == [] then (s, [])
    else
      var (s1, outcome) := Receive(s, self, ch, hops[0].destination, hops[0].wire, hops[0].now);
      var (s2, outcomes) := ReceiveEach(s1, self, ch, hops[1..]);
      (s2, [outcome] + outcomes)
  }

  /** These records are the replies made from these rows, whenever and wherever they
      come in. */
  ghost predicate Carries(hops: seq<Hop>, self: CString, peer: CString, rows: seq<Db.Row>) {
    && |hops| == |rows| && AllReplayable(rows)
    && forall i :: 0 <= i < |rows| ==> hops[i].wire == ReplyWire(self, peer, rows[i])
  }

  /** The rows that find their serial still outstanding when they come in. */
  function Taken(pending: multiset<int>, rows: seq<Db.Row>): seq<Db.Row> {
    if rows == [] then []
    else if rows[0].sn in pending then [rows[0]] + Taken(pending - multiset{rows[0].sn}, rows[1..])
    else Taken(pending, rows[1..])
  }

  function Outcomes(pending: multiset<int>, rows: seq<Db.Row>): (o: seq<RelayOutcome>)
    ensures |o| == |rows|
  {
    if rows == [] then []
    else if rows[0].sn in pending then [RecoveredRecord] + Outcomes(pending - multiset{rows[0].sn}, rows[1..])
    else [DuplicateRecord] + Outcomes(pending, rows[1..])
  }

  /** A serial that is not outstanding, but behind the expected one. */
  predicate Past(t: Tracker, sn: int) {
    t.synced && SnValid(t.expected) && Distance(t.expected, sn) > SN_RANGE / 2
  }

  /** Every row finds its serial outstanding or in the past. */
  predicate Replays(t: Tracker, pending: multiset<int>, rows: seq<Db.Row>) {
    if rows == [] then true
    else if rows[0].sn in pending then Replays(t, pending - multiset{rows[0].sn}, rows[1..])
    else Past(t, rows[0].sn) && Replays(t, pending, rows[1..])
  }

  lemma {:induction false} PastReplays(t: Tracker, pending: multiset<int>, rows: seq<Db.Row>)
    requires forall i :: 0 <= i < |rows| ==> Past(t, rows[i].sn)
    ensures Replays(t, pending, rows)
    decreases |rows|
  {
    if rows != [] {
      PastReplays(t, if rows[0].sn in pending then pending - multiset{rows[0].sn} else pending, rows[1..]);
    }
  }

  function StoreAll(a: Db.Archive, channel: int32, sender: CString, rows: seq<Db.Row>): Db.Archive
    decreases |rows|
  {
    if rows == [] then a
    else StoreAll(Db.Add(a, channel, rows[0].sn, rows[0].time, sender, Db.Incoming, rows[0].message).0, channel,
                  sender, rows[1..])
  }

  /** What replies leave: these rows stored, their serials no longer outstanding, and
      nothing else changed but what the serial hook was told. */
  ghost predicate Settles(s: State, s': State, channel: int32, sender: CString, taken: seq<Db.Row>) {
    && s'.queue == s.queue && s.tracker.Some? && s'.tracker.Some?
    && s'.tracker.value.expected == s.tracker.value.expected
    && s'.tracker.value.synced == s.tracker.value.synced
    && multiset(s'.tracker.value.pending) == multiset(s.tracker.value.pending) - multiset(SerialsOf(taken))
    && s'.archive == StoreAll(s.archive, channel, sender, taken)
  }

  lemma SerialsCons(row: Db.Row, rows: seq<Db.Row>)
    ensures multiset(SerialsOf([row] + rows)) == multiset{row.sn} + multiset(SerialsOf(rows))
  {
    assert SerialsOf([row] + rows) == [row.sn] + SerialsOf(rows);
  }

  lemma SettlesNothing(s: State, channel: int32, sender: CString)
    requires s.tracker.Some?
    ensures Settles(s, s, channel, sender, [])
  {
    assert SerialsOf([]) == [];
  }

  lemma SettlesOneMore(s: State, s1: State, s2: State, channel: int32, sender: CString, row: Db.Row, rows: seq<Db.Row>)
    requires Settles(s, s1, channel, sender, [row]) && Settles(s1, s2, channel, sender, rows)
    ensures Settles(s, s2, channel, sender, [row] + rows)
  {
    SerialsCons(row, rows);
    SerialsCons(row, []);
    StoreAllCons(s.archive, channel, sender, row, rows);
    StoreAllCons(s.archive, channel, sender, row, []);
    assert SerialsOf([]) == [] && [row] + [] == [row];
    hide StoreAll, Db.Add, SerialsOf;
    TakenApart(multiset(s.tracker.value.pending), multiset{row.sn}, multiset(SerialsOf(rows)));
  }

  lemma TakenApart(p: multiset<int>, a: multiset<int>, b: multiset<int>)
    ensures p - a - b == p - (a + b)
  {
  }

  lemma StoreAllCons(a: Db.Archive, channel: int32, sender: CString, row: Db.Row, rows: seq<Db.Row>)
    ensures StoreAll(a, channel, sender, [row] + rows)
         == StoreAll(Db.Add(a, channel, row.sn, row.time, sender, Db.Incoming, row.message).0, channel, sender, rows)
    ensures StoreAll(a, channel, sender, []) == a
  {
    assert ([row] + rows)[1..] == rows;
    hide Db.Add;
  }

  /** One reply is taken, if its serial is outstanding, or refused as a duplicate. */
  lemma OneReply(s: State, self: CString, peer: CString, ch: Channel, hop: Hop, row: Db.Row)
    requires Shaped(s.queue) && s.tracker.Some? && SnValid(s.tracker.value.expected)
    requires ch.peer == Some(peer) && Connected(self, ch) && Replayable(row)
    requires row.sn in s.tracker.value.pending || Past(s.tracker.value, row.sn)
    requires hop.wire == ReplyWire(self, peer, row)
    ensures var (s1, outcome) := Receive(s, self, ch, hop.destination, hop.wire, hop.now);
            if row.sn in s.tracker.value.pending
            then outcome == RecoveredRecord && Settles(s, s1, ch.number, peer, [row])
            else outcome == DuplicateRecord && Settles(s, s1, ch.number, peer, [])
  {
    hide ReplyWire, FieldOk, Accept, Db.Add, Receive, SafeBody, NoRecordEnd, Lines, Distance;
    if row.sn in s.tracker.value.pending {
      RecoversOne(s, self, ch, hop.destination, row, hop.now);
      TakesOne(s.tracker.value, row.sn);
      StoreAllCons(s.archive, ch.number, peer, row, []);
      hide StoreAll;
      assert [row] + [] == [row] && SerialsOf([row]) == [row.sn];
    } else {
      RefusesOne(s, self, ch, hop.destination, row, hop.now);
      SettlesNothing(s, ch.number, peer);
    }
  }

  /** A serial that is neither outstanding nor ahead is a duplicate. */
  lemma RefusesOne(s: State, self: CString, ch: Channel, destination: int32, row: Db.Row, now: int)
    requires Shaped(s.queue) && s.tracker.Some? && SnValid(s.tracker.value.expected)
    requires Connected(self, ch) && Replayable(row)
    requires row.sn !in s.tracker.value.pending && Past(s.tracker.value, row.sn)
    ensures Receive(s, self, ch, destination, ReplyWire(self, ch.peer.value, row), now) == (s, DuplicateRecord)
  {
    hide Decode, ReplyWire, FieldOk, SafeBody, NoRecordEnd, Lines;
    ReplyDecodes(self, ch.peer.value, row);
    RefusesSerial(s.tracker.value, row.sn);
    hide Accept;
  }

  lemma RefusesSerial(t: Tracker, sn: int)
    requires SnValid(sn) && sn !in t.pending && Past(t, sn)
    ensures Accept(t, sn, RELAY_MAX_GAP) == Arrival(t, Duplicate, 0, 0)
  {
    hide Distance;
    assert 0 < SN_RANGE / 2;
  }

  lemma CarriesTail(hops: seq<Hop>, self: CString, peer: CString, rows: seq<Db.Row>)
    requires Carries(hops, self, peer, rows) && rows != []
    ensures Carries(hops[1..], self, peer, rows[1..]) && Replayable(rows[0])
    ensures hops[0].wire == ReplyWire(self, peer, rows[0])
  {
    hide Replayable, ReplyWire;
  }

  /** What any sequence of replies does, repeated and stale ones included. */
  lemma {:induction false} RepliesTake(s: State, self: CString, peer: CString, ch: Channel, hops: seq<Hop>,
                                       rows: seq<Db.Row>)
    requires Shaped(s.queue) && s.tracker.Some? && SnValid(s.tracker.value.expected)
    requires ch.peer == Some(peer) && Connected(self, ch) && Carries(hops, self, peer, rows)
    requires Replays(s.tracker.value, multiset(s.tracker.value.pending), rows)
    ensures var pending := multiset(s.tracker.value.pending);
            var (s', outcomes) := ReceiveEach(s, self, ch, hops);
            outcomes == Outcomes(pending, rows) && Settles(s, s', ch.number, peer, Taken(pending, rows))
    decreases |rows|
  {
    hide Receive, Carries, Connected, Replayable, Settles, Past;
    if rows == [] {
      assert hops == [] by { CarriesSize(hops, self, peer, rows); }
      SettlesNothing(s, ch.number, peer);
    } else {
      CarriesSize(hops, self, peer, rows);
      CarriesTail(hops, self, peer, rows);
      OneReply(s, self, peer, ch, hops[0], rows[0]);
      var s1 := Receive(s, self, ch, hops[0].destination, hops[0].wire, hops[0].now).0;
      StillReplays(s, s1, ch.number, peer, rows);
      RepliesTake(s1, self, peer, ch, hops[1..], rows[1..]);
      RepliesTakeOn(s, s1, self, peer, ch, hops, rows);
    }
  }

  lemma CarriesSize(hops: seq<Hop>, self: CString, peer: CString, rows: seq<Db.Row>)
    requires Carries(hops, self, peer, rows)
    ensures |hops| == |rows|
  {
  }

  /** The rest of the replies after the first. */
  lemma StillReplays(s: State, s1: State, channel: int32, peer: CString, rows: seq<Db.Row>)
    requires s.tracker.Some? && rows != []
    requires Replays(s.tracker.value, multiset(s.tracker.value.pending), rows)
    requires Settles(s, s1, channel, peer, if rows[0].sn in s.tracker.value.pending then [rows[0]] else [])
    ensures s1.tracker.Some? && s1.queue == s.queue && s1.tracker.value.expected == s.tracker.value.expected
    ensures var pending := multiset(s.tracker.value.pending);
            multiset(s1.tracker.value.pending)
            == if rows[0].sn in pending then pending - multiset{rows[0].sn} else pending
    ensures Replays(s1.tracker.value, multiset(s1.tracker.value.pending), rows[1..])
  {
    hide Past, Replays, Db.Add;
    var pending := multiset(s.tracker.value.pending);
    ReplaysTail(s.tracker.value, pending, rows);
    if rows[0].sn in pending {
      assert SerialsOf([rows[0]]) == [rows[0].sn];
      assert multiset(s1.tracker.value.pending) == pending - multiset{rows[0].sn};
    } else {
      assert SerialsOf([]) == [];
      assert multiset(s1.tracker.value.pending) == pending;
    }
    SameTracker(s.tracker.value, s1.tracker.value, multiset(s1.tracker.value.pending), rows[1..]);
  }

  lemma ReplaysTail(t: Tracker, pending: multiset<int>, rows: seq<Db.Row>)
    requires rows != [] && Replays(t, pending, rows)
    ensures Replays(t, if rows[0].sn in pending then pending - multiset{rows[0].sn} else pending, rows[1..])
  {
    hide Past;
  }

  lemma {:induction false} SameTracker(t: Tracker, t': Tracker, pending: multiset<int>, rows: seq<Db.Row>)
    requires t'.expected == t.expected && t'.synced == t.synced && Replays(t, pending, rows)
    ensures Replays(t', pending, rows)
    decreases |rows|
  {
    hide Distance;
    if rows != [] {
      SameTracker(t, t', if rows[0].sn in pending then pending - multiset{rows[0].sn} else pending, rows[1..]);
    }
  }

  lemma {:induction false} RepliesTakeOn(s: State, s1: State, self: CString, peer: CString, ch: Channel, hops: seq<Hop>,
                      rows: seq<Db.Row>)
    requires Shaped(s.queue) && s.tracker.Some? && SnValid(s.tracker.value.expected)
    requires Shaped(s1.queue) && s1.tracker.Some? && SnValid(s1.tracker.value.expected)
    requires rows != [] && hops != []
    requires var pending := multiset(s.tracker.value.pending);
             var taken := rows[0].sn in pending;
             && Receive(s, self, ch, hops[0].destination, hops[0].wire, hops[0].now)
                == (s1, if taken then RecoveredRecord else DuplicateRecord)
             && Settles(s, s1, ch.number, peer, if taken then [rows[0]] else [])
             && multiset(s1.tracker.value.pending) == if taken then pending - multiset{rows[0].sn} else pending
    requires var pending := multiset(s1.tracker.value.pending);
             var (s', outcomes) := ReceiveEach(s1, self, ch, hops[1..]);
             outcomes == Outcomes(pending, rows[1..]) && Settles(s1, s', ch.number, peer, Taken(pending, rows[1..]))
    ensures var pending := multiset(s.tracker.value.pending);
            var (s', outcomes) := ReceiveEach(s, self, ch, hops);
            outcomes == Outcomes(pending, rows) && Settles(s, s', ch.number, peer, Taken(pending, rows))
  {
    hide Receive, Settles, SerialsOf;
    var rest := Taken(multiset(s1.tracker.value.pending), rows[1..]);
    var s' := ReceiveEach(s1, self, ch, hops[1..]).0;
    if rows[0].sn in s.tracker.value.pending {
      SettlesOneMore(s, s1, s', ch.number, peer, rows[0], rest);
    } else {
      SettlesNoMore(s, s1, s', ch.number, peer, rest);
    }
  }

  lemma SettlesNoMore(s: State, s1: State, s2: State, channel: int32, sender: CString, rows: seq<Db.Row>)
    requires Settles(s, s1, channel, sender, []) && Settles(s1, s2, channel, sender, rows)
    ensures Settles(s, s2, channel, sender, rows)
  {
    assert SerialsOf([]) == [];
    hide Db.Add;
  }

  predicate AllRecovered(outcomes: seq<RelayOutcome>) {
    forall i :: 0 <= i < |outcomes| ==> outcomes[i] == RecoveredRecord
  }

  lemma SerialsSplit(rows: seq<Db.Row>)
    requires rows != []
    ensures multiset(SerialsOf(rows)) == multiset{rows[0].sn} + multiset(SerialsOf(rows[1..]))
  {
    assert [rows[0]] + rows[1..] == rows;
    SerialsCons(rows[0], rows[1..]);
  }

  lemma Peel(all: multiset<int>, x: int, rest: multiset<int>)
    requires multiset{x} + rest <= all
    ensures x in all && rest <= all - multiset{x}
  {
    assert (multiset{x} + rest)[x] <= all[x];
  }

  /** Rows whose serials are all outstanding are all taken. */
  lemma {:induction false} AllAreTaken(t: Tracker, pending: multiset<int>, rows: seq<Db.Row>)
    requires multiset(SerialsOf(rows)) <= pending
    ensures Taken(pending, rows) == rows && AllRecovered(Outcomes(pending, rows)) && Replays(t, pending, rows)
    decreases |rows|
  {
    if rows != [] {
      hide SerialsOf, Past, Taken, Outcomes, AllRecovered, Replays;
      SerialsSplit(rows);
      Peel(pending, rows[0].sn, multiset(SerialsOf(rows[1..])));
      AllAreTaken(t, pending - multiset{rows[0].sn}, rows[1..]);
      OneMoreTaken(t, pending, rows);
    }
  }

  lemma OneMoreTaken(t: Tracker, pending: multiset<int>, rows: seq<Db.Row>)
    requires rows != [] && rows[0].sn in pending
    requires var rest := pending - multiset{rows[0].sn};
             && Taken(rest, rows[1..]) == rows[1..] && AllRecovered(Outcomes(rest, rows[1..]))
             && Replays(t, rest, rows[1..])
    ensures Taken(pending, rows) == rows && AllRecovered(Outcomes(pending, rows)) && Replays(t, pending, rows)
  {
    hide Past;
    assert [rows[0]] + rows[1..] == rows;
  }

  /** Each of the replayed telegrams arrives as recovered, in whatever order they
      come; together they clear exactly their serials. */
  lemma RecoversEach(s: State, self: CString, peer: CString, ch: Channel, hops: seq<Hop>, rows: seq<Db.Row>)
    requires Shaped(s.queue) && s.tracker.Some? && SnValid(s.tracker.value.expected)
    requires ch.peer == Some(peer) && Connected(self, ch) && Carries(hops, self, peer, rows)
    requires multiset(SerialsOf(rows)) <= multiset(s.tracker.value.pending)
    ensures var (s', outcomes) := ReceiveEach(s, self, ch, hops);
            AllRecovered(outcomes) && |outcomes| == |rows| && Settles(s, s', ch.number, peer, rows)
  {
    hide ReceiveEach, Carries, Connected, SerialsOf, Settles, Taken;
    AllAreTaken(s.tracker.value, multiset(s.tracker.value.pending), rows);
    RepliesTake(s, self, peer, ch, hops, rows);
  }

  // ---------------------------------------------------------------------
  // The whole cycle
  // ---------------------------------------------------------------------

  /** near lost telegrams from far, and the telegram m reveals it. */
  ghost predicate Reveals(near: State, nearKey: CString, toFar: Channel, m: Message, farKey: CString, toNear: Channel) {
    && Connected(nearKey, toFar) && toFar.peer == Some(farKey)
    && Connected(farKey, toNear) && toNear.peer == Some(nearKey)
    && m.Text? && near.tracker.Some? && SnValid(near.tracker.value.expected)
    && Accept(near.tracker.value, m.sn, RELAY_MAX_GAP).verdict == Gap
    && Inv(near.queue) && near.queue.count < |near.queue.ring|
  }

  /** The serials that are missing, and the rows far answers with. */
  function Missing(t: Tracker, sn: int): seq<int>
    requires SnValid(t.expected)
  {
    Successive(t.expected, Distance(t.expected, sn))
  }

  function Answer(far: State, channel: int32, t: Tracker, sn: int): seq<Db.Row>
    requires SnValid(t.expected)
  {
    var a := Accept(t, sn, RELAY_MAX_GAP);
    Hits(far.archive, channel, a.gapFrom, a.gapTo)
  }

  /** far can answer: its archive is open, has something to send, and there is room. */
  ghost predicate CanServe(far: State, answer: seq<Db.Row>) {
    && Inv(far.queue) && far.archive.ready && (far.tracker.Some? ==> SnValid(far.tracker.value.expected))
    && answer != [] && AllReplayable(answer) && far.queue.count + |answer| <= |far.queue.ring|
  }

  /** The first half: near asks for exactly the missing range, and far answers with its
      oldest rows of that range. */
  lemma AskedAndServed(near: State, nearKey: CString, toFar: Channel, m: Message, askedAt: int,
                       far: State, farKey: CString, toNear: Channel, destination: int32, servedAt: int)
    requires Reveals(near, nearKey, toFar, m, farKey, toNear)
    requires CanServe(far, Answer(far, toNear.number, near.tracker.value, m.sn))
    ensures var t := near.tracker.value;
            var a := Accept(t, m.sn, RELAY_MAX_GAP);
            var request := CmdWire(farKey, nearKey, a.gapFrom, a.gapTo);
            var answer := Answer(far, toNear.number, t, m.sn);
            var (near1, asked) := Deliver(near, nearKey, toFar, m, askedAt);
            var (far1, served) := Receive(far, farKey, toNear, destination, request, servedAt);
            && asked == GapRequested
            && near1.tracker == Some(a.tracker)
            && near1.queue == Enqueue(near.queue, toFar.number, request, askedAt).0
            && served == ReplayServed
            && far1.queue == EnqueueAll(far.queue, Replies(nearKey, farKey, toNear.number, answer), servedAt)
  {
    hide Receive, Replies, CmdWire, Enqueue, EnqueueAll, Hits, Accept, Connected, Deliver;
    MissingRangesAgree(near.tracker.value, m.sn);
    var a := Accept(near.tracker.value, m.sn, RELAY_MAX_GAP);
    GapIsRequested(near, nearKey, toFar, m, askedAt);
    RequestIsServed(far, farKey, toNear, destination, a.gapFrom, a.gapTo, servedAt);
  }

  /** The archive answers with one row for each serial of the gap. */
  ghost predicate OneRowEach(answer: seq<Db.Row>, missing: seq<int>) {
    multiset(SerialsOf(answer)) == multiset(missing)
  }

  /** The replay closes the gap. When far's archive has one row for each missing serial,
      the replies, delivered in any order and at any time, all arrive as recovered,
      leave `expected` where it was, and leave outstanding exactly what was
      outstanding before the gap. */
  lemma ReplayClosesGap(near: State, nearKey: CString, toFar: Channel, m: Message, askedAt: int,
                        far: State, farKey: CString, toNear: Channel, destination: int32, servedAt: int,
                        arrived: seq<Db.Row>, hops: seq<Hop>)
    requires Reveals(near, nearKey, toFar, m, farKey, toNear)
    requires var answer := Answer(far, toNear.number, near.tracker.value, m.sn);
             && OneRowEach(answer, Missing(near.tracker.value, m.sn))
             && CanServe(far, answer)
             && multiset(arrived) == multiset(answer) && Carries(hops, nearKey, farKey, arrived)
    ensures var t := near.tracker.value;
            var a := Accept(t, m.sn, RELAY_MAX_GAP);
            var request := CmdWire(farKey, nearKey, a.gapFrom, a.gapTo);
            var answer := Answer(far, toNear.number, t, m.sn);
            var (near1, asked) := Deliver(near, nearKey, toFar, m, askedAt);
            var (far1, served) := Receive(far, farKey, toNear, destination, request, servedAt);
            && asked == GapRequested
            && near1.queue == Enqueue(near.queue, toFar.number, request, askedAt).0
            && served == ReplayServed
            && far1.queue == EnqueueAll(far.queue, Replies(nearKey, farKey, toNear.number, answer), servedAt)
            && near1.tracker.Some?
            && var (near2, outcomes) := ReceiveEach(near1, nearKey, toFar, hops);
               && AllRecovered(outcomes) && |outcomes| == Distance(t.expected, m.sn)
               && near2.tracker.Some?
               && near2.tracker.value.expected == Next(m.sn)
               && multiset(near2.tracker.value.pending) == multiset(t.pending)
               && near2.archive == StoreAll(near1.archive, toFar.number, farKey, arrived)
  {
    hide Deliver, Receive, ReceiveEach, Replies, CmdWire, Connected, Enqueue, EnqueueAll, Replayable, Hits,
         Carries, StoreAll, CanServe;
    var t := near.tracker.value;
    var missing := Missing(t, m.sn);
    MissingRangesAgree(t, m.sn);
    AskedAndServed(near, nearKey, toFar, m, askedAt, far, farKey, toNear, destination, servedAt);
    SameSerials(Answer(far, toNear.number, t, m.sn), arrived);
    SameSize(SerialsOf(arrived), missing);
    GapIsPositive(t, m.sn);
    var near1 := Deliver(near, nearKey, toFar, m, askedAt).0;
    assert multiset(t.pending + missing) == multiset(t.pending) + multiset(missing);
    RecoversEach(near1, nearKey, farKey, toFar, hops, arrived);
  }

  // ---------------------------------------------------------------------
  // Archives older than a lap
  // ---------------------------------------------------------------------

  /** The first row with this serial. */
  function FirstRow(rows: seq<Db.Row>, sn: int): Option<Db.Row> {
    if rows == [] then None else if rows[0].sn == sn then Some(rows[0]) else FirstRow(rows[1..], sn)
  }

  lemma {:induction false} FirstRowFound(rows: seq<Db.Row>, sn: int)
    ensures FirstRow(rows, sn).Some? <==> exists i :: 0 <= i < |rows| && rows[i].sn == sn
    ensures FirstRow(rows, sn).Some? ==> FirstRow(rows, sn).value.sn == sn && FirstRow(rows, sn).value in rows
    decreases |rows|
  {
    if rows != [] {
      FirstRowFound(rows[1..], sn);
      if i :| 0 <= i < |rows[1..]| && rows[1..][i].sn == sn {
        assert rows[i + 1].sn == sn;
      }
      if i :| 0 <= i < |rows| && rows[i].sn == sn {
        assert 0 < i ==> rows[1..][i - 1].sn == sn;
      }
    }
  }

  /** Of several rows with a serial that is outstanding once, the first is taken. */
  lemma {:induction false} TakenAreFirst(pending: multiset<int>, rows: seq<Db.Row>, x: Db.Row)
    requires pending[x.sn] <= 1
    ensures x in Taken(pending, rows) <==> x.sn in pending && FirstRow(rows, x.sn) == Some(x)
    decreases |rows|
  {
    if rows != [] {
      var row := rows[0];
      if row.sn in pending {
        TakenAreFirst(pending - multiset{row.sn}, rows[1..], x);
      } else {
        TakenAreFirst(pending, rows[1..], x);
      }
    }
  }

  /** Of each serial as many rows are taken as it is outstanding and arrives. */
  lemma {:induction false} TakenCounts(pending: multiset<int>, rows: seq<Db.Row>, sn: int)
    ensures multiset(SerialsOf(Taken(pending, rows)))[sn] == Min(pending[sn], multiset(SerialsOf(rows))[sn])
    decreases |rows|
  {
    if rows == [] {
      assert SerialsOf(rows) == [];
    } else {
      SerialsSplit(rows);
      hide SerialsOf;
      if rows[0].sn in pending {
        var rest := Taken(pending - multiset{rows[0].sn}, rows[1..]);
        SerialsCons(rows[0], rest);
        TakenCounts(pending - multiset{rows[0].sn}, rows[1..], sn);
      } else {
        TakenCounts(pending, rows[1..], sn);
      }
    }
  }

  /** After a gap was reported its serials are in the past. */
  lemma MissingIsPast(t: Tracker, sn: int, s: int)
    requires SnValid(t.expected) && Accept(t, sn, RELAY_MAX_GAP).verdict == Gap && s in Missing(t, sn)
    ensures Past(Accept(t, sn, RELAY_MAX_GAP).tracker, s)
  {
    GapIsPositive(t, sn);
    GapSynced(t, sn);
    hide Accept, Distance, Wrap, Steps;
    var d := Distance(t.expected, sn);
    var i :| 0 <= i < d && Missing(t, sn)[i] == s;
    SuccessiveAt(t.expected, d, i);
    DistanceIsLeastSteps(t.expected, sn);
    WrapIdentity(t.expected);
    WrapSteps(t.expected, d);
    WrapNext(t.expected + d);
    BehindDistance(t.expected + d + 1, d + 1 - i);
  }

  lemma BehindDistance(t: int, k: nat)
    requires 0 < k <= RELAY_MAX_GAP + 1
    ensures Distance(Wrap(t), Wrap(t - k)) > SN_RANGE / 2
  {
    WrapDistance(t, t - k);
  }

  lemma GapSynced(t: Tracker, sn: int)
    requires SnValid(t.expected) && Accept(t, sn, RELAY_MAX_GAP).verdict == Gap
    ensures SnValid(sn) && Accept(t, sn, RELAY_MAX_GAP).tracker.synced
    ensures Distance(t.expected, sn) <= RELAY_MAX_GAP
  {
  }

  /** What arrives are replies far made: some may be lost on the way, others repeated. */
  ghost predicate FromAnswer(arrived: seq<Db.Row>, answer: seq<Db.Row>) {
    forall i :: 0 <= i < |arrived| ==> arrived[i] in answer
  }

  lemma ArrivedIsMissing(far: State, channel: int32, t: Tracker, sn: int, arrived: seq<Db.Row>)
    requires SnValid(t.expected) && Accept(t, sn, RELAY_MAX_GAP).verdict == Gap
    requires FromAnswer(arrived, Answer(far, channel, t, sn)) && AllReplayable(Answer(far, channel, t, sn))
    ensures forall i :: 0 <= i < |arrived| ==> arrived[i].sn in Missing(t, sn)
  {
    MissingRangesAgree(t, sn);
    hide Accept, Successive, Distance, Db.Select, SafeBody, BodyOk;
    var answer := Answer(far, channel, t, sn);
    forall i | 0 <= i < |arrived|
      ensures arrived[i].sn in Missing(t, sn)
    {
      assert arrived[i] in answer;
      var j :| 0 <= j < |answer| && answer[j] == arrived[i];
      assert Replayable(answer[j]);
      AnswerInRange(far, channel, t, sn, arrived[i]);
    }
  }

  lemma AnswerInRange(far: State, channel: int32, t: Tracker, sn: int, row: Db.Row)
    requires SnValid(t.expected) && row in Answer(far, channel, t, sn)
    ensures var a := Accept(t, sn, RELAY_MAX_GAP); Db.InRange(row.sn, a.gapFrom, a.gapTo)
  {
    hide Accept;
    var a := Accept(t, sn, RELAY_MAX_GAP);
    var selected := Db.Select(far.archive.rows, channel, Db.Outgoing, a.gapFrom, a.gapTo);
    assert row in selected;
  }

  /** The outstanding serials that are left when each missing one arrived: those from
      before the gap. */
  lemma LeftOutstanding(before: seq<int>, missing: seq<int>, arrived: seq<Db.Row>)
    requires NoRepeats(before + missing)
    requires forall i :: 0 <= i < |arrived| ==> arrived[i].sn in missing
    requires forall s :: s in missing ==> FirstRow(arrived, s).Some?
    ensures var pending := multiset(before + missing);
            pending - multiset(SerialsOf(Taken(pending, arrived))) == multiset(before)
  {
    hide Taken, NoRepeats, SerialsOf;
    var pending := multiset(before + missing);
    var taken := multiset(SerialsOf(Taken(pending, arrived)));
    assert pending == multiset(before) + multiset(missing);
    forall s
      ensures taken[s] == multiset(missing)[s]
    {
      TakenOnce(before, missing, arrived, s);
    }
    SameCounts(taken, multiset(missing));
  }

  lemma SameCounts<T>(a: multiset<T>, b: multiset<T>)
    requires forall x :: a[x] == b[x]
    ensures a == b
  {
  }

  lemma TakenOnce(before: seq<int>, missing: seq<int>, arrived: seq<Db.Row>, s: int)
    requires NoRepeats(before + missing)
    requires forall i :: 0 <= i < |arrived| ==> arrived[i].sn in missing
    requires forall s :: s in missing ==> FirstRow(arrived, s).Some?
    ensures multiset(SerialsOf(Taken(multiset(before + missing), arrived)))[s] == multiset(missing)[s]
  {
    hide Taken, NoRepeats, SerialsOf;
    var pending := multiset(before + missing);
    assert pending == multiset(before) + multiset(missing);
    TakenCounts(pending, arrived, s);
    CountsOnce(before + missing, s);
    ArrivesIff(arrived, s);
    FirstRowFound(arrived, s);
    assert s in missing <==> 0 < multiset(missing)[s];
  }

  lemma CountsOnce(s: seq<int>, x: int)
    requires NoRepeats(s)
    ensures multiset(s)[x] <= 1
  {
    if i :| 0 <= i < |s| && s[i] == x {
      assert s == s[..i] + [s[i]] + s[i + 1..];
      assert x !in s[..i] && x !in s[i + 1..];
    }
  }

  lemma ArrivesIff(rows: seq<Db.Row>, sn: int)
    ensures 0 < multiset(SerialsOf(rows))[sn] <==> exists i :: 0 <= i < |rows| && rows[i].sn == sn
  {
    var s := SerialsOf(rows);
    assert 0 < multiset(s)[sn] <==> sn in s;
    if i :| 0 <= i < |rows| && rows[i].sn == sn {
      assert s[i] == sn;
    }
  }

  /** The second half, for archives with any number of rows per serial, and for replies
      that are lost, repeated or reordered as long as each serial arrives. The gap is
      closed in any case. The rows stored are those that were lost if and only if of
      each serial the lost one arrives first. */
  lemma ReplayRestoresIff(near: State, nearKey: CString, toFar: Channel, m: Message, askedAt: int,
                          far: State, farKey: CString, toNear: Channel,
                          arrived: seq<Db.Row>, hops: seq<Hop>, lost: int -> Db.Row)
    requires Reveals(near, nearKey, toFar, m, farKey, toNear)
    requires NoRepeats(Accept(near.tracker.value, m.sn, RELAY_MAX_GAP).tracker.pending)
    requires var answer := Answer(far, toNear.number, near.tracker.value, m.sn);
             && CanServe(far, answer) && FromAnswer(arrived, answer) && Carries(hops, nearKey, farKey, arrived)
    requires forall s :: s in Missing(near.tracker.value, m.sn) ==> FirstRow(arrived, s).Some?
    ensures var t := near.tracker.value;
            var near1 := Deliver(near, nearKey, toFar, m, askedAt).0;
            && near1.tracker == Some(Accept(t, m.sn, RELAY_MAX_GAP).tracker)
            && var near2 := ReceiveEach(near1, nearKey, toFar, hops).0;
               var taken := Taken(multiset(near1.tracker.value.pending), arrived);
               && near2.tracker.Some?
               && near2.tracker.value.expected == Next(m.sn)
               && multiset(near2.tracker.value.pending) == multiset(t.pending)
               && near2.archive == StoreAll(near1.archive, toFar.number, farKey, taken)
               && ((forall x :: x in taken ==> x == lost(x.sn))
                   <==> forall s :: s in Missing(t, m.sn) ==> FirstRow(arrived, s) == Some(lost(s)))
  {
    hide Deliver, Receive, ReceiveEach, Replies, CmdWire, Connected, Enqueue, EnqueueAll, Replayable,
         Carries, StoreAll, Past, Taken, Answer, Accept, Settles, NoRepeats;
    var t := near.tracker.value;
    var a := Accept(t, m.sn, RELAY_MAX_GAP);
    var missing := Missing(t, m.sn);
    AskedAndServed(near, nearKey, toFar, m, askedAt, far, farKey, toNear, 0, 0);
    MissingRangesAgree(t, m.sn);
    GapIsPositive(t, m.sn);
    ArrivedIsMissing(far, toNear.number, t, m.sn, arrived);
    forall i | 0 <= i < |arrived|
      ensures Past(a.tracker, arrived[i].sn)
    {
      MissingIsPast(t, m.sn, arrived[i].sn);
    }
    PastReplays(a.tracker, multiset(a.tracker.pending), arrived);
    var near1 := Deliver(near, nearKey, toFar, m, askedAt).0;
    RepliesTake(near1, nearKey, farKey, toFar, hops, arrived);
    LeftOutstanding(t.pending, missing, arrived);
    SettlesFields(near1, ReceiveEach(near1, nearKey, toFar, hops).0, toFar.number, farKey,
                  Taken(multiset(a.tracker.pending), arrived));
    RestoredIff(a.tracker.pending, missing, arrived, lost);
  }

  lemma SettlesFields(s: State, s': State, channel: int32, sender: CString, taken: seq<Db.Row>)
    requires Settles(s, s', channel, sender, taken)
    ensures s.tracker.Some? && s'.tracker.Some?
    ensures s'.tracker.value.expected == s.tracker.value.expected
    ensures multiset(s'.tracker.value.pending) == multiset(s.tracker.value.pending) - multiset(SerialsOf(taken))
    ensures s'.archive == StoreAll(s.archive, channel, sender, taken)
  {
  }

  lemma RestoredIff(pending: seq<int>, missing: seq<int>, arrived: seq<Db.Row>, lost: int -> Db.Row)
    requires NoRepeats(pending) && forall s :: s in missing ==> s in pending
    requires forall i :: 0 <= i < |arrived| ==> arrived[i].sn in missing
    requires forall s :: s in missing ==> FirstRow(arrived, s).Some?
    ensures (forall x :: x in Taken(multiset(pending), arrived) ==> x == lost(x.sn))
       <==> forall s :: s in missing ==> FirstRow(arrived, s) == Some(lost(s))
  {
    forall x | x in Taken(multiset(pending), arrived)
      ensures x.sn in missing && FirstRow(arrived, x.sn) == Some(x)
    {
      CountsOnce(pending, x.sn);
      TakenAreFirst(multiset(pending), arrived, x);
      FirstRowFound(arrived, x.sn);
      var i :| 0 <= i < |arrived| && arrived[i] == x;
    }
    forall s | s in missing
      ensures FirstRow(arrived, s).value in Taken(multiset(pending), arrived)
      ensures FirstRow(arrived, s).value.sn == s
    {
      var x := FirstRow(arrived, s).value;
      FirstRowFound(arrived, s);
      CountsOnce(pending, s);
      TakenAreFirst(multiset(pending), arrived, x);
    }
  }

  /** An archive with a row of an earlier lap. Serial 2 was sent at time 10 and, a lap
      later, at time 2000, and the second one is lost: telegram 3 reveals it. The
      answer has both rows, the older one first; that one is stored as the lost
      telegram, and the lost one is then refused. */
  lemma OldRowWins(near: State, nearKey: CString, toFar: Channel, farKey: CString, hops: seq<Hop>)
    requires Connected(nearKey, toFar) && toFar.peer == Some(farKey) && KeyOk(farKey)
    requires Shaped(near.queue) && near.tracker == Some(Tracker(4, true, [2]))
    requires Carries(hops, nearKey, farKey, [SentAt(10, 65), SentAt(2000, 66)])
    ensures Accept(Tracker(2, true, []), 3, RELAY_MAX_GAP) == Arrival(Tracker(4, true, [2]), Gap, 2, 2)
    ensures Hits(Db.Archive(true, [SentAt(10, 65), SentAt(2000, 66)]), 0, 2, 2) == [SentAt(10, 65), SentAt(2000, 66)]
    ensures var (near', outcomes) := ReceiveEach(near, nearKey, toFar, hops);
            && outcomes == [RecoveredRecord, DuplicateRecord]
            && near'.archive == StoreAll(near.archive, toFar.number, farKey, [SentAt(10, 65)])
  {
    var older, lost := SentAt(10, 65), SentAt(2000, 66);
    assert [] + Successive(2, 1) == [2];
    BothSelected(older, lost);
    OlderTaken(older, lost);
    hide ReceiveEach, Carries, Connected, Hits, StoreAll, Taken, Outcomes, Accept;
    RepliesTake(near, nearKey, farKey, toFar, hops, [older, lost]);
  }

  lemma BothSelected(a: Db.Row, b: Db.Row)
    requires Db.Selected(a, 0, Db.Outgoing, 2, 2) && Db.Selected(b, 0, Db.Outgoing, 2, 2)
    ensures Hits(Db.Archive(true, [a, b]), 0, 2, 2) == [a, b]
  {
    assert [a, b][1..] == [b] && [b][1..] == [];
    assert Db.Select([b], 0, Db.Outgoing, 2, 2) == [b];
  }

  lemma OlderTaken(a: Db.Row, b: Db.Row)
    requires a.sn == b.sn == 2
    ensures Taken(multiset([2]), [a, b]) == [a]
    ensures Outcomes(multiset([2]), [a, b]) == [RecoveredRecord, DuplicateRecord]
    ensures Replays(Tracker(4, true, [2]), multiset([2]), [a, b])
  {
    assert [a, b][1..] == [b] && [b][1..] == [];
    assert multiset([2]) - multiset{2} == multiset{};
    assert Taken(multiset{}, [b]) == [];
    assert Outcomes(multiset{}, [b]) == [DuplicateRecord];
    assert Past(Tracker(4, true, [2]), 2);
    assert Replays(Tracker(4, true, [2]), multiset{}, [b]);
  }

  /** A row of channel 0 with serial 2. */
  function SentAt(time: int64, text: byte): Db.Row
    requires text != 0
  {
    Db.Row(time, [65], 2, 0, Db.Outgoing, [text])
  }

  lemma GapIsPositive(t: Tracker, sn: int)
    requires SnValid(t.expected) && Accept(t, sn, RELAY_MAX_GAP).verdict == Gap
    ensures 0 < Distance(t.expected, sn)
    ensures Accept(t, sn, RELAY_MAX_GAP).tracker.expected == Next(sn)
  {
  }

  lemma Removed<T>(s: seq<T>, i: nat)
    requires i < |s|
    ensures multiset(s) == multiset(s[..i] + s[i + 1..]) + multiset{s[i]}
  {
    assert s == s[..i] + [s[i]] + s[i + 1..];
  }

  function Dropped<T>(s: seq<T>, i: nat): seq<T>
    requires i < |s|
  {
    s[..i] + s[i + 1..]
  }

  lemma SerialsDropped(rows: seq<Db.Row>, i: nat)
    requires i < |rows|
    ensures multiset(SerialsOf(rows)) == multiset(SerialsOf(Dropped(rows, i))) + multiset{rows[i].sn}
  {
    Removed(SerialsOf(rows), i);
    assert SerialsOf(Dropped(rows, i)) == Dropped(SerialsOf(rows), i);
  }

  lemma DroppedSame<T>(a: seq<T>, b: seq<T>, i: nat)
    requires a != [] && i < |b| && b[i] == a[0] && multiset(a) == multiset(b)
    ensures multiset(Dropped(a, 0)) == multiset(Dropped(b, i))
  {
    Removed(a, 0);
    Removed(b, i);
    var x, y := multiset(Dropped(a, 0)), multiset(Dropped(b, i));
    forall k
      ensures x[k] == y[k]
    {
      assert (x + multiset{a[0]})[k] == (y + multiset{a[0]})[k];
    }
  }

  lemma {:induction false} SameSerials(a: seq<Db.Row>, b: seq<Db.Row>)
    requires multiset(a) == multiset(b)
    ensures multiset(SerialsOf(a)) == multiset(SerialsOf(b)) && |a| == |b|
    decreases |a|
  {
    assert |a| == |multiset(a)| == |multiset(b)| == |b|;
    if a != [] {
      assert a[0] in multiset(b);
      var i :| 0 <= i < |b| && b[i] == a[0];
      hide SerialsOf;
      DroppedSame(a, b, i);
      SameSerials(Dropped(a, 0), Dropped(b, i));
      SerialsDropped(a, 0);
      SerialsDropped(b, i);
    } else {
      assert b == a;
    }
  }

  lemma SameSize(a: seq<int>, b: seq<int>)
    requires multiset(a) == multiset(b)
    ensures |a| == |b|
  {
    assert |multiset(a)| == |a| && |multiset(b)| == |b|;
  }
}
