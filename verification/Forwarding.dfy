/** What the relay does with every record it receives: telegrams for others go to where
    they belong, telegrams for itself are filed, and the rest is left alone. */
module Forwarding {
  import opened Bytes
  import opened Serials
  import opened TgLines
  import opened Telegram
  import opened TgRoundTrip
  import opened TgReference
  import opened SnTracking
  import opened RelayModel
  import opened MqModel
  import opened MqDelivery
  import opened Replay
  import Db = MsgDatabase

  // ---------------------------------------------------------------------
  // Telegrams for others
  // ---------------------------------------------------------------------

  /** What travels on: between relays the record as it came, up to a NUL; to anybody else
      the body. */
  function Passed(ch: Channel, raw: bytes, body: bytes): bytes {
    if ch.hooks.isMetacom && ch.metacom then Held(raw, |raw|) else Held(body, |body|)
  }

  lemma HeldAll(s: bytes)
    ensures CStr(s) == Held(s, |s|)
  {
    HeldIs(s, |s|);
    assert Cut(s, |s|) == s;
  }

  /** One message was added, waiting for this friend with this payload. */
  ghost predicate Added(ms: seq<Entry>, ms': seq<Entry>, friendnum: int, payload: bytes) {
    exists p: nat, e ::
      && p <= |ms| && ms' == ms[..p] + [e] + ms[p..]
      && e.friendnum == friendnum && e.payload == payload && e.state == Pending && e.attempts == 0
  }

  /** A telegram for somebody else, exactly. It leaves tracker, archive and notes alone;
      it is relayed if and only if its receiver is found and the queue can take it, and
      then exactly one message is added, for the channel the receiver is found at. */
  lemma ForwardsExactly(s: State, self: CString, ch: Channel, destination: int32, raw: bytes, now: int)
    requires Inv(s.queue) && (s.tracker.Some? ==> SnValid(s.tracker.value.expected))
    requires raw != [] && 0 <= ch.number && ch.hooks.selfKey
    requires Decode(raw).Some? && Decode(raw).value.Text? && Decode(raw).value.receiver != self
    ensures var payload := Passed(ch, raw, Decode(raw).value.body);
            var (s', outcome) := Receive(s, self, ch, destination, raw, now);
            var ms := Messages(s.queue);
            var found := ch.hooks.resolve && ch.hooks.enqueue && 0 <= destination;
            && s'.tracker == s.tracker && s'.archive == s.archive && s'.noted == s.noted
            && (outcome == Relayed <==> found && 0 < |payload| < 1372 && |ms| < |s.queue.ring|)
            && (outcome == NoRoute <==> ch.hooks.resolve && ch.hooks.enqueue && destination < 0)
            && (outcome in {Relayed, NoRoute, Discarded})
            && (outcome == Relayed ==> Added(ms, Messages(s'.queue), destination, payload))
            && (outcome != Relayed ==> Messages(s'.queue) == ms)
  {
    var body := Decode(raw).value.body;
    HeldAll(raw);
    HeldAll(body);
    var payload := Passed(ch, raw, body);
    EnqueueExactly(s.queue, destination, payload, now);
    hide Decode, Messages, Enqueue, Sound, DistinctStamps, CountState, CStr, Held;
    if Receive(s, self, ch, destination, raw, now).1 == Relayed {
      var q' := Enqueue(s.queue, destination, payload, now).0;
      var p: nat, e :| p <= |Messages(s.queue)|
        && Messages(q') == Messages(s.queue)[..p] + [e] + Messages(s.queue)[p..]
        && e.friendnum == destination && e.payload == payload && e.state == Pending && e.attempts == 0;
      assert Added(Messages(s.queue), Messages(q'), destination, payload);
    }
  }

  lemma {:induction false} HeldPlain(s: bytes, n: nat)
    requires 0 !in s && |s| <= n
    ensures Held(s, n) == s
  {
    if s != [] {
      assert s[0] in s;
      HeldPlain(s[1..], n - 1);
    }
  }

  /** A telegram sent on between relays arrives: what is added to the queue is the record
      itself, and its receiver decodes and delivers the telegram that was sent. */
  lemma ForwardedArrives(s: State, self: CString, ch: Channel, destination: int32, m: Message, now: int,
                         there: State, far: Channel, elsewhere: int32, later: int)
    requires Inv(s.queue) && |Messages(s.queue)| < |s.queue.ring|
    requires s.tracker.Some? ==> SnValid(s.tracker.value.expected)
    requires Sendable(m) && m.Text? && m.receiver != self
    requires 0 <= ch.number && 0 <= destination && ch.metacom
    requires ch.hooks.selfKey && ch.hooks.resolve && ch.hooks.enqueue && ch.hooks.isMetacom
    requires Shaped(there.queue) && (there.tracker.Some? ==> SnValid(there.tracker.value.expected))
    requires 0 <= far.number && far.hooks.selfKey
    ensures NUL !in m.receiver
    ensures var (s', outcome) := Receive(s, self, ch, destination, WireOf(m), now);
            outcome == Relayed && Added(Messages(s.queue), Messages(s'.queue), destination, WireOf(m))
    ensures Receive(there, m.receiver, far, elsewhere, WireOf(m), later) == Deliver(there, m.receiver, far, m, later)
  {
    WireDecodes(m);
    TextFits(m);
    WireHoldsNoNul(m);
    hide Decode, WireOf, Sendable, Messages, Deliver, Added, Inv;
    HeldPlain(WireOf(m), |WireOf(m)|);
    hide Held;
    assert Passed(ch, WireOf(m), m.body) == WireOf(m);
    ForwardsExactly(s, self, ch, destination, WireOf(m), now);
    hide Passed, Forward;
    LeavesTheRest(there, m.receiver, far, elsewhere, WireOf(m), later);
  }

  lemma WireDecodes(m: Message)
    requires Sendable(m)
    ensures NUL !in m.receiver && Decode(WireOf(m)) == Some(m)
  {
    hide Decode, WireOf;
    Received(m, []);
    assert WireOf(m) + [] == WireOf(m);
  }

  lemma TextFits(m: Message)
    requires Sendable(m) && m.Text?
    ensures 0 < |WireOf(m)| < 1372
  {
    hide TextWire, Lines, NoRecordEnd, FieldOk;
    WireFits(m.receiver, m.sender, m.sn, m.timestamp, m.body, 1, 1);
  }

  lemma WireHoldsNoNul(m: Message)
    requires Sendable(m) && m.Text?
    ensures 0 !in WireOf(m)
  {
    MetaPlain(m.sn, m.timestamp);
    hide Meta, Lines, NoRecordEnd;
  }

  // ---------------------------------------------------------------------
  // Telegrams for this relay
  // ---------------------------------------------------------------------

  /** The row that is filed: time, sender, serial from 0 to 999, channel and text. */
  function Filed(channel: int32, m: Message): Db.Row
    requires m.Text? && 0 !in m.sender && 0 !in m.body
  {
    Db.Row(m.timestamp, m.sender, if m.sn < 0 then 0 else if m.sn > 999 then 999 else m.sn, channel, Db.Incoming,
           m.body)
  }

  lemma PlainHeld(s: bytes)
    requires 0 !in s
    ensures CStr(s) == s
  {
    HeldAll(s);
    HeldPlain(s, |s|);
  }

  /** A telegram for this relay, exactly: outcome by verdict, and what is filed, noted and
      asked for. */
  lemma DeliversExactly(s: State, self: CString, ch: Channel, m: Message, now: int)
    requires m.Text? && 0 !in m.sender && 0 !in m.body
    requires Shaped(s.queue) && (s.tracker.Some? ==> SnValid(s.tracker.value.expected))
    ensures var (s', outcome) := Deliver(s, self, ch, m, now);
            var verdict := if s.tracker.Some? then Accept(s.tracker.value, m.sn, 64).verdict else InOrder;
            var files := verdict != Duplicate && ch.hooks.store && s.archive.ready && 0 <= ch.number;
            && s'.tracker == (if s.tracker.Some? then Some(Accept(s.tracker.value, m.sn, 64).tracker) else None)
            && s'.archive == (if files then s.archive.(rows := Db.Upsert(s.archive.rows, Filed(ch.number, m)))
                              else s.archive)
            && s'.noted == (if verdict != Duplicate && ch.hooks.remember then s.noted + [Noted(ch.number, m.sn)]
                            else s.noted)
            && (verdict != Gap ==> s'.queue == s.queue)
            && (match verdict
                case InOrder => outcome == StoredRecord
                case Duplicate => outcome == DuplicateRecord
                case Recovered => outcome == RecoveredRecord
                case Resync => outcome == Resynced
                case Gap => outcome == GapRequested || outcome == StoredRecord)
  {
    PlainHeld(m.sender);
    PlainHeld(m.body);
    hide Accept, Db.Upsert, CStr, RequestGap;
  }

  // ---------------------------------------------------------------------
  // The rest
  // ---------------------------------------------------------------------

  /** What is no record, comes from no channel, or is a request to somebody else, changes
      nothing; a request to this relay changes the queue only. */
  lemma LeavesTheRest(s: State, self: CString, ch: Channel, destination: int32, raw: bytes, now: int)
    requires Shaped(s.queue) && (s.tracker.Some? ==> SnValid(s.tracker.value.expected))
    ensures var (s', outcome) := Receive(s, self, ch, destination, raw, now);
            var m := Decode(raw);
            var heard := raw != [] && 0 <= ch.number && ch.hooks.selfKey && m.Some?;
            && (!heard ==> (s', outcome) == (s, Discarded))
            && (heard && m.value.Cmd? && m.value.receiver != self ==> (s', outcome) == (s, Discarded))
            && (heard && m.value.Cmd? ==>
                  s'.tracker == s.tracker && s'.archive == s.archive && s'.noted == s.noted)
            && (heard && m.value.Cmd? && m.value.receiver == self ==>
                  var (q', answer) := ServeReplay(s.archive, s.queue, self, ch, m.value.sn, m.value.snTo, now);
                  s'.queue == q' && outcome == answer)
            && (heard && m.value.Text? && m.value.receiver == self ==>
                  (s', outcome) == Deliver(s, self, ch, m.value, now))
  {
    hide Decode, Deliver, ServeReplay;
  }
}
