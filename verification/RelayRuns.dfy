/** Exactly once, as far as the archive: what a run of deliveries leaves stored, when
    others write to the same table. */
module RelayRuns {
  import opened Bytes
  import opened Serials
  import opened TgLines
  import opened Telegram
  import opened SnTracking
  import opened TrackerSimulation
  import opened RelayPolicy
  import opened ReceiveRuns
  import opened RelayModel
  import opened MqModel
  import Db = MsgDatabase

  type TextMessage = m: Message | m.Text? witness Text([], [], 1, 0, [])

  /** sent(t) is the t-th telegram of the sender, for every true serial t. */
  ghost predicate Numbered(sent: int -> TextMessage) {
    forall t :: sent(t).sn == Wrap(t)
  }

  /** The row a delivered telegram becomes. */
  function RowOf(channel: int32, m: TextMessage): Db.Row {
    Db.Row(m.timestamp, CStr(m.sender), Db.Clamp(m.sn), channel, Db.Incoming, CStr(m.body))
  }

  // ---------------------------------------------------------------------
  // The shared table
  // ---------------------------------------------------------------------

  /** One write to the table: a telegram of the channel we follow, or anything else,
      such as a telegram of another channel or one we sent. */
  datatype Written = Ours(t: int) | Others(row: Db.Row)

  function RowFor(channel: int32, sent: int -> TextMessage, w: Written): Db.Row {
    match w
    case Ours(t) => RowOf(channel, sent(t))
    case Others(row) => row
  }

  /** The table after these writes to one that held `rows`. */
  function Table(rows: seq<Db.Row>, channel: int32, sent: int -> TextMessage, log: seq<Written>): seq<Db.Row> {
    if log == [] then rows
    else Db.Upsert(Table(rows, channel, sent, log[..|log| - 1]), RowFor(channel, sent, log[|log| - 1]))
  }

  /** The last row written with this timestamp. */
  function LastAt(channel: int32, sent: int -> TextMessage, log: seq<Written>, time: int64): Option<Db.Row> {
    if log == [] then None
    else
      var row := RowFor(channel, sent, log[|log| - 1]);
      if row.time == time then Some(row) else LastAt(channel, sent, log[..|log| - 1], time)
  }

  ghost predicate LastWith(channel: int32, sent: int -> TextMessage, log: seq<Written>, i: nat, x: Db.Row) {
    && i < |log| && x == RowFor(channel, sent, log[i])
    && forall j :: i < j < |log| ==> RowFor(channel, sent, log[j]).time != x.time
  }

  /** It is the row of a write after which none carries its timestamp. */
  lemma {:induction false} LastAtIff(channel: int32, sent: int -> TextMessage, log: seq<Written>, x: Db.Row)
    ensures LastAt(channel, sent, log, x.time) == Some(x) <==> exists i :: LastWith(channel, sent, log, i, x)
  {
    if log != [] {
      var n := |log| - 1;
      var before, row := log[..n], RowFor(channel, sent, log[n]);
      LastAtIff(channel, sent, before, x);
      if row.time != x.time {
        if i :| LastWith(channel, sent, before, i, x) {
          assert LastWith(channel, sent, log, i, x);
        }
        if i :| LastWith(channel, sent, log, i, x) {
          assert LastWith(channel, sent, before, i, x);
        }
      } else if row == x {
        assert LastWith(channel, sent, log, n, x);
      }
    }
  }

  /** What the table holds: for every timestamp the last row written with it, and
      where none was written, what was there. */
  lemma {:induction false} TableContents(rows: seq<Db.Row>, channel: int32, sent: int -> TextMessage,
                                         log: seq<Written>)
    requires Db.Sorted(rows)
    ensures Db.Sorted(Table(rows, channel, sent, log))
    ensures forall x :: x in Table(rows, channel, sent, log)
                   <==> LastAt(channel, sent, log, x.time) == Some(x) ||
                        (LastAt(channel, sent, log, x.time) == None && x in rows)
    decreases |log|
  {
    if log != [] {
      var before := log[..|log| - 1];
      TableContents(rows, channel, sent, before);
      Db.UpsertContents(Table(rows, channel, sent, before), RowFor(channel, sent, log[|log| - 1]));
    }
  }

  // ---------------------------------------------------------------------
  // Runs
  // ---------------------------------------------------------------------

  type Ring = q: Queue | Shaped(q) witness Fresh(1)

  /** A telegram of the channel we follow arrives, or something else happens: a row
      may be written, and the queue may be in any state afterwards. */
  datatype Event = Arrives(t: int, now: int) | Elsewhere(row: Option<Db.Row>, queue: Ring)

  ghost function Happen(s: State, self: CString, ch: Channel, sent: int -> TextMessage, e: Event): (s': State)
    requires Shaped(s.queue) && (s.tracker.Some? ==> SnValid(s.tracker.value.expected))
    ensures Shaped(s'.queue) && (s'.tracker.Some? ==> SnValid(s'.tracker.value.expected))
  {
    match e
    case Arrives(t, now) => Deliver(s, self, ch, sent(t), now).0
    case Elsewhere(row, queue) =>
      var rows := if row.None? then s.archive.rows else Db.Upsert(s.archive.rows, row.value);
      s.(queue := queue, archive := s.archive.(rows := rows))
  }

  ghost function HappenAll(s: State, self: CString, ch: Channel, sent: int -> TextMessage, es: seq<Event>): State
    requires Shaped(s.queue) && (s.tracker.Some? ==> SnValid(s.tracker.value.expected))
    decreases |es|
  {
    if es == [] then s else HappenAll(Happen(s, self, ch, sent, es[0]), self, ch, sent, es[1..])
  }

  /** The arrivals of a run. */
  function Arrivals(es: seq<Event>): seq<int> {
    if es == [] then []
    else match es[0]
      case Arrives(t, _) => [t] + Arrivals(es[1..])
      case Elsewhere(_, _) => Arrivals(es[1..])
  }

  /** The receiver of the accounting, and the writes so far. */
  datatype Ledger = Ledger(receiver: Receiver, log: seq<Written>)

  function Enter(l: Ledger, e: Event): (l': Ledger)
    requires SnValid(l.receiver.tracker.expected)
    ensures SnValid(l'.receiver.tracker.expected)
  {
    match e
    case Arrives(t, _) =>
      var stores := Stores(Accept(l.receiver.tracker, Wrap(t), RELAY_MAX_GAP).verdict);
      Ledger(ReceiveRuns.Receive(l.receiver, t), if stores then l.log + [Ours(t)] else l.log)
    case Elsewhere(row, _) =>
      if row.None? then l else l.(log := l.log + [Others(row.value)])
  }

  function EnterAll(l: Ledger, es: seq<Event>): (l': Ledger)
    requires SnValid(l.receiver.tracker.expected)
    ensures SnValid(l'.receiver.tracker.expected)
    decreases |es|
  {
    if es == [] then l else EnterAll(Enter(l, es[0]), es[1..])
  }

  /** The telegrams of the followed channel among the writes. */
  function Telegrams(log: seq<Written>): seq<int> {
    if log == [] then []
    else Telegrams(log[..|log| - 1]) + match log[|log| - 1] case Ours(t) => [t] case Others(_) => []
  }

  /** The relay holds what the ledger says, on top of the rows it began with. */
  ghost predicate Holds(s: State, ch: Channel, sent: int -> TextMessage, rows: seq<Db.Row>, l: Ledger) {
    && s.tracker == Some(l.receiver.tracker) && SnValid(l.receiver.tracker.expected)
    && Shaped(s.queue)
    && s.archive == Db.Archive(true, Table(rows, ch.number, sent, l.log))
    && Telegrams(l.log) == l.receiver.stored
  }

  /** What a delivery does to tracker and archive, whatever it asks for. */
  lemma DeliverTracks(s: State, self: CString, ch: Channel, m: TextMessage, now: int)
    requires Shaped(s.queue) && s.tracker.Some? && SnValid(s.tracker.value.expected) && ch.hooks.store
    ensures var s' := Deliver(s, self, ch, m, now).0;
            var a := Accept(s.tracker.value, m.sn, RELAY_MAX_GAP);
            && s'.tracker == Some(a.tracker)
            && s'.archive == if Stores(a.verdict)
                             then Db.Add(s.archive, ch.number, m.sn, m.timestamp, CStr(m.sender), Db.Incoming,
                                         CStr(m.body)).0
                             else s.archive
  {
    hide Accept, RequestGap, Db.Add, CStr;
  }

  lemma LogGrows(rows: seq<Db.Row>, channel: int32, sent: int -> TextMessage, log: seq<Written>, w: Written)
    ensures Table(rows, channel, sent, log + [w])
         == Db.Upsert(Table(rows, channel, sent, log), RowFor(channel, sent, w))
    ensures Telegrams(log + [w]) == Telegrams(log) + match w case Ours(t) => [t] case Others(_) => []
  {
    assert (log + [w])[..|log|] == log;
  }

  lemma {:induction false} TelegramIsWritten(channel: int32, sent: int -> TextMessage, log: seq<Written>, t: int)
    requires t in Telegrams(log)
    ensures LastAt(channel, sent, log, sent(t).timestamp) != None
  {
    var before := log[..|log| - 1];
    if t in Telegrams(before) {
      TelegramIsWritten(channel, sent, before, t);
    }
  }

  lemma HappenHolds(s: State, self: CString, ch: Channel, sent: int -> TextMessage, e: Event, rows: seq<Db.Row>,
                    l: Ledger)
    requires Numbered(sent) && Holds(s, ch, sent, rows, l) && 0 <= ch.number && ch.hooks.store
    ensures Holds(Happen(s, self, ch, sent, e), ch, sent, rows, Enter(l, e))
  {
    hide Accept, Deliver, Db.Upsert, Db.Clamp, CStr, Table, Telegrams, Wrap;
    match e
    case Arrives(t, now) =>
      assert sent(t).sn == Wrap(t);
      DeliverTracks(s, self, ch, sent(t), now);
      LogGrows(rows, ch.number, sent, l.log, Ours(t));
    case Elsewhere(row, _) =>
      if row.Some? {
        LogGrows(rows, ch.number, sent, l.log, Others(row.value));
        assert Telegrams(l.log) + [] == Telegrams(l.log);
      }
  }

  /** Over every run the relay's tracker and archive are those of the ledger. */
  lemma {:induction false} HappenAllHolds(s: State, self: CString, ch: Channel, sent: int -> TextMessage,
                                          es: seq<Event>, rows: seq<Db.Row>, l: Ledger)
    requires Numbered(sent) && Holds(s, ch, sent, rows, l) && 0 <= ch.number && ch.hooks.store
    ensures Holds(HappenAll(s, self, ch, sent, es), ch, sent, rows, EnterAll(l, es))
    decreases |es|
  {
    if es != [] {
      hide Happen, Enter, Table, Numbered;
      HappenHolds(s, self, ch, sent, es[0], rows, l);
      HappenAllHolds(Happen(s, self, ch, sent, es[0]), self, ch, sent, es[1..], rows, Enter(l, es[0]));
    }
  }

  /** The ledger's receiver is that of the accounting: the rest of the run does not
      concern it. */
  lemma {:induction false} LedgerReceives(l: Ledger, es: seq<Event>)
    requires SnValid(l.receiver.tracker.expected)
    ensures EnterAll(l, es).receiver == ReceiveAll(l.receiver, Arrivals(es))
    decreases |es|
  {
    hide Accept, ReceiveRuns.Receive;
    if es != [] {
      LedgerReceives(Enter(l, es[0]), es[1..]);
      if es[0].Arrives? {
        ReceiveFirst(l.receiver, es[0].t, Arrivals(es[1..]));
      }
    }
  }

  /** Whatever else is written in between: as long as arrivals are near and not
      mistaken, every telegram is written once, outstanding or given up, and its row
      is in the archive if and only if it is the last one with its timestamp. */
  lemma ArchiveHoldsEachOnce(s: State, self: CString, ch: Channel, sent: int -> TextMessage, es: seq<Event>,
                             rows: seq<Db.Row>, l: Ledger, b: Books)
    requires Numbered(sent) && Db.Sorted(rows) && Holds(s, ch, sent, rows, l) && 0 <= ch.number && ch.hooks.store
    requires Consistent(l.receiver, b) && RunNear(b.ideal, Arrivals(es)) && RunNotMistaken(b.ideal, Arrivals(es))
    ensures var log, b' := EnterAll(l, es).log, RecordAll(b, Arrivals(es));
            var table := HappenAll(s, self, ch, sent, es).archive.rows;
            && Accounted(Telegrams(log), b')
            && Db.Sorted(table)
            && (forall t :: t in Telegrams(log) ==>
                  var row := RowOf(ch.number, sent(t));
                  (row in table <==> LastAt(ch.number, sent, log, row.time) == Some(row)))
            && (forall x :: x in table <==>
                  LastAt(ch.number, sent, log, x.time) == Some(x) ||
                  (LastAt(ch.number, sent, log, x.time) == None && x in rows))
  {
    hide Table, HappenAll, EnterAll, ReceiveAll, RecordAll, RunNear, RunNotMistaken, Represents, LastAt, Accounted;
    ExactlyOnce(l.receiver, b, Arrivals(es));
    LedgerReceives(l, es);
    HappenAllHolds(s, self, ch, sent, es, rows, l);
    var log := EnterAll(l, es).log;
    TableContents(rows, ch.number, sent, log);
    forall t | t in Telegrams(log)
      ensures LastAt(ch.number, sent, log, sent(t).timestamp) != None
    {
      TelegramIsWritten(ch.number, sent, log, t);
    }
  }
}
