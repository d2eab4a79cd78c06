/** The delivery queue on values: what each operation does to the whole state. */
module MqModel {
  import opened Bytes

  const MQ_PAYLOAD_MAX := 1372
  const MQ_ACK_TIMEOUT_SEC := 25
  const MQ_RETRY_BACKOFF_SEC := 1
  const MQ_MAX_ATTEMPTS := 8
  const MQ_SEND_FATAL := -1

  datatype Code = Ok | ErrRange | ErrFull | ErrNotFound

  datatype Outcome = Idle | Sent | Deferred | Dropped

  datatype SlotState = Free | Pending | AwaitingAck

  /** One slot. `stamp` is the number of messages accepted before this one: no
      operation reads it, it only tells messages apart in statements. */
  datatype Entry = Entry(state: SlotState, friendnum: int32, payload: bytes, enqueuedAt: int,
                         lastAttempt: int, attempted: bool, attempts: nat, receipt: int, stamp: nat)

  datatype Stats = Stats(enqueued: nat, sent: nat, confirmed: nat, dropped: nat, fullRejections: nat)

  /** A call of the drop hook. */
  datatype Drop = Drop(friendnum: int32, attempts: nat)

  /** The whole state. `dirty` is the flag the change hook sets, and `drops` what
      the drop hook was told. */
  datatype Queue = Queue(ring: seq<Entry>, head: nat, tail: nat, count: nat, inFlight: nat,
                         stats: Stats, dirty: bool, drops: seq<Drop>)

  const EMPTY_SLOT := Entry(Free, 0, [], 0, 0, false, 0, -1, 0)

  // ---------------------------------------------------------------------
  // Scanning the ring
  // ---------------------------------------------------------------------

  /** The slot reached from start after i steps round a ring of n slots. */
  function At(start: nat, i: nat, n: nat): (r: nat)
    requires start < n && i <= n
    ensures r < n
  {
    if start + i < n then start + i else start + i - n
  }

  lemma AtIsRemainder(start: nat, i: nat, n: nat)
    requires start < n && i <= n
    ensures At(start, i, n) == (start + i) % n
  {
  }

  predicate Occupied(e: Entry) {
    e.state != Free
  }

  /** The message may be acted upon now: its window has expired. */
  predicate Eligible(e: Entry, now: int) {
    match e.state
    case Free => false
    case AwaitingAck => now - e.lastAttempt >= MQ_ACK_TIMEOUT_SEC
    case Pending => e.attempted ==> now - e.lastAttempt >= MQ_RETRY_BACKOFF_SEC
  }

  datatype Sought = AnyFree | AnyOccupied | AnyEligible(now: int)

  predicate Matches(e: Entry, what: Sought) {
    match what
    case AnyFree => !Occupied(e)
    case AnyOccupied => Occupied(e)
    case AnyEligible(now) => Eligible(e, now)
  }

  /** The least number of steps >= k from start to a matching slot; n if none. */
  function First(ring: seq<Entry>, start: nat, k: nat, what: Sought): (r: nat)
    requires start < |ring| && k <= |ring|
    ensures k <= r <= |ring|
    ensures r < |ring| ==> Matches(ring[At(start, r, |ring|)], what)
    ensures forall j :: k <= j < r ==> !Matches(ring[At(start, j, |ring|)], what)
    decreases |ring| - k
  {
    if k == |ring| || Matches(ring[At(start, k, |ring|)], what) then k
    else First(ring, start, k + 1, what)
  }

  // ---------------------------------------------------------------------
  // Operations
  // ---------------------------------------------------------------------

  predicate Shaped(q: Queue) {
    0 < |q.ring| && q.head < |q.ring| && q.tail < |q.ring|
  }

  function Fresh(n: nat): (q: Queue)
    requires 0 < n
  {
    Queue(seq(n, i => EMPTY_SLOT), 0, 0, 0, 0, Stats(0, 0, 0, 0, 0), false, [])
  }

  /** head moved past released slots; at tail when nothing is stored. */
  function Settled(ring: seq<Entry>, head: nat, tail: nat, count: nat): (h: nat)
    requires head < |ring| && tail < |ring|
    ensures h < |ring|
  {
    if count == 0 then tail else At(head, First(ring, head, 0, AnyOccupied), |ring|)
  }

  predicate Acceptable(friendnum: int32, payload: bytes) {
    0 <= friendnum && 0 < |payload| < MQ_PAYLOAD_MAX
  }

  function Enqueue(q: Queue, friendnum: int32, payload: bytes, now: int): (r: (Queue, Code))
    requires Shaped(q)
    ensures Shaped(r.0) && |r.0.ring| == |q.ring|
  {
    var n := |q.ring|;
    var k := First(q.ring, q.tail, 0, AnyFree);
    if !Acceptable(friendnum, payload) then
      (q, ErrRange)
    else if k == n then
      (q.(stats := q.stats.(fullRejections := q.stats.fullRejections + 1)), ErrFull)
    else
      var slot := At(q.tail, k, n);
      var e := Entry(Pending, friendnum, payload, now, 0, false, 0, -1, q.stats.enqueued);
      (q.(ring := q.ring[slot := e],
          head := if q.count == 0 then slot else q.head,
          tail := At(slot, 1, n),
          count := q.count + 1,
          stats := q.stats.(enqueued := q.stats.enqueued + 1),
          dirty := true), Ok)
  }

  function Released(e: Entry): Entry {
    e.(state := Free, receipt := -1, payload := [], attempts := 0, attempted := false)
  }

  predicate Acknowledges(e: Entry, friendnum: int, receipt: int) {
    e.state.AwaitingAck? && e.friendnum == friendnum && e.receipt == receipt
  }

  /** The lowest slot that (friendnum, receipt) acknowledges; |ring| if none. */
  function FindAcknowledged(ring: seq<Entry>, i: nat, friendnum: int, receipt: int): (r: nat)
    requires i <= |ring|
    ensures i <= r <= |ring|
    ensures r < |ring| ==> Acknowledges(ring[r], friendnum, receipt)
    ensures forall j :: i <= j < r ==> !Acknowledges(ring[j], friendnum, receipt)
    decreases |ring| - i
  {
    if i == |ring| || Acknowledges(ring[i], friendnum, receipt) then i
    else FindAcknowledged(ring, i + 1, friendnum, receipt)
  }

  function Confirm(q: Queue, friendnum: int, receipt: int): (r: (Queue, Code))
    requires Shaped(q)
    ensures Shaped(r.0) && |r.0.ring| == |q.ring|
  {
    var i := FindAcknowledged(q.ring, 0, friendnum, receipt);
    if friendnum < 0 || receipt < 0 then (q, ErrRange)
    else if i == |q.ring| then (q, ErrNotFound)
    else
      var ring := q.ring[i := Released(q.ring[i])];
      var count := Less(q.count);
      (q.(ring := ring, head := Settled(ring, q.head, q.tail, count), count := count,
          inFlight := Less(q.inFlight),
          stats := q.stats.(confirmed := q.stats.confirmed + 1), dirty := true), Ok)
  }

  /** One less, for counters that are positive here. */
  function Less(n: nat): nat {
    if n == 0 then 0 else n - 1
  }

  /** What one attempt makes of an eligible entry, given the transport's code; `handed` is
      what the transport was given, if it was called. */
  datatype Attempt = Attempt(entry: Entry, outcome: Outcome, handed: Option<Record>)

  /** The acknowledgement never came: the packet counts as lost. */
  function Expired(e: Entry): Entry {
    e.(receipt := -1, state := Pending, attempts := e.attempts + 1)
  }

  /** A pending entry is handed to the transport, which answers with code. */
  function Hand(e: Entry, code: int, now: int): Attempt {
    var packet := Some(Record(e.friendnum, e.payload));
    var e1 := e.(lastAttempt := now, attempted := true);
    var e2 := e1.(attempts := e1.attempts + 1);
    if code >= 0 then
      Attempt(e1.(receipt := code, state := AwaitingAck), Sent, packet)
    else if code == MQ_SEND_FATAL || e2.attempts >= MQ_MAX_ATTEMPTS then
      Attempt(e2, Dropped, packet)
    else
      Attempt(e2, Deferred, packet)
  }

  function Try(e: Entry, code: int, now: int): Attempt {
    if !e.state.AwaitingAck? then Hand(e, code, now)
    else if Expired(e).attempts >= MQ_MAX_ATTEMPTS then Attempt(Expired(e), Dropped, None)
    else Hand(Expired(e), code, now)
  }

  /** The queue after an attempt at the message in slot. */
  function Applied(q: Queue, slot: nat, a: Attempt): (q': Queue)
    requires Shaped(q) && slot < |q.ring|
    ensures Shaped(q') && |q'.ring| == |q.ring|
  {
    match a.outcome
    case Dropped =>
      var ring := q.ring[slot := Released(a.entry)];
      var count := Less(q.count);
      q.(ring := ring, head := Settled(ring, q.head, q.tail, count), count := count,
         stats := q.stats.(dropped := q.stats.dropped + 1), dirty := true,
         drops := q.drops + [Drop(a.entry.friendnum, a.entry.attempts)])
    case Sent =>
      q.(ring := q.ring[slot := a.entry], inFlight := q.inFlight + 1,
         stats := q.stats.(sent := q.stats.sent + 1))
    case _ =>
      q.(ring := q.ring[slot := a.entry])
  }

  /** A service call: the new state, the outcome, and what was done to which slot. */
  datatype Served = Served(queue: Queue, outcome: Outcome, handed: Option<Record>, timedOut: bool, slot: nat)

  /** The effect of acting on one eligible slot. */
  function Act(q: Queue, slot: nat, code: int, now: int): (r: Served)
    requires Shaped(q) && slot < |q.ring|
    ensures Shaped(r.queue) && |r.queue.ring| == |q.ring| && r.slot == slot
  {
    var timedOut := q.ring[slot].state.AwaitingAck?;
    var a := Try(q.ring[slot], code, now);
    var q1 := if timedOut then q.(inFlight := Less(q.inFlight)) else q;
    Served(Applied(q1, slot, a), a.outcome, a.handed, timedOut, slot)
  }

  function Service(q: Queue, ready: bool, code: int, now: int): (r: Served)
    requires Shaped(q)
    ensures Shaped(r.queue) && |r.queue.ring| == |q.ring| && r.slot < |q.ring|
  {
    if !ready || q.count == 0 then
      Served(q, Idle, None, false, 0)
    else
      var q1 := q.(head := Settled(q.ring, q.head, q.tail, q.count));
      var k := First(q.ring, q1.head, 0, AnyEligible(now));
      if k == |q.ring| then Served(q1, Idle, None, false, 0)
      else Act(q1, At(q1.head, k, |q.ring|), code, now)
  }

  // ---------------------------------------------------------------------
  // What is stored
  // ---------------------------------------------------------------------

  /** What a visitor of the queue is shown, and what the file keeps of a message. */
  datatype Record = Record(friendnum: int32, payload: bytes)

  function Records(es: seq<Entry>): (rs: seq<Record>)
    ensures |rs| == |es|
    ensures forall i :: 0 <= i < |es| ==> rs[i] == Record(es[i].friendnum, es[i].payload)
  {
    seq(|es|, i requires 0 <= i < |es| => Record(es[i].friendnum, es[i].payload))
  }

  /** The occupied entries of a stretch of slots, in order. */
  function Stored(es: seq<Entry>): (s: seq<Entry>) {
    if es == [] then []
    else if Occupied(es[0]) then [es[0]] + Stored(es[1..])
    else Stored(es[1..])
  }

  /** The ring read from head round to head. */
  function Rotated(ring: seq<Entry>, head: nat): (r: seq<Entry>)
    requires head <= |ring|
    ensures |r| == |ring|
  {
    ring[head..] + ring[..head]
  }

  /** The stored messages, oldest position first. */
  function Messages(q: Queue): seq<Entry>
    requires Shaped(q)
  {
    Stored(Rotated(q.ring, q.head))
  }

  function CountState(es: seq<Entry>, state: SlotState): (n: nat)
    ensures n <= |es|
  {
    if es == [] then 0
    else (if es[0].state == state then 1 else 0) + CountState(es[1..], state)
  }

  // ---------------------------------------------------------------------
  // Invariant
  // ---------------------------------------------------------------------

  /** A stored message respects the bounds the queue promises. */
  predicate Sound(e: Entry) {
    Occupied(e) ==>
      && Acceptable(e.friendnum, e.payload)
      && e.attempts < MQ_MAX_ATTEMPTS
      && (e.state.AwaitingAck? ==> e.attempted && 0 <= e.receipt)
      && (e.state.Pending? ==> e.receipt == -1 && (e.attempted <==> 0 < e.attempts))
  }

  ghost predicate DistinctStamps(q: Queue) {
    && (forall i :: 0 <= i < |q.ring| && Occupied(q.ring[i]) ==> q.ring[i].stamp < q.stats.enqueued)
    && (forall i, j :: 0 <= i < j < |q.ring| && Occupied(q.ring[i]) && Occupied(q.ring[j])
          ==> q.ring[i].stamp != q.ring[j].stamp)
  }

  /** I1-I4 of the queue, and what they rest on. */
  ghost predicate Inv(q: Queue) {
    && Shaped(q)
    && q.count + CountState(q.ring, Free) == |q.ring|
    && q.inFlight == CountState(q.ring, AwaitingAck)
    && (0 < q.count ==> Occupied(q.ring[q.head]))
    && (q.count == 0 ==> q.head == q.tail)
    && (forall i :: 0 <= i < |q.ring| ==> Sound(q.ring[i]))
    && DistinctStamps(q)
    && q.stats.enqueued == q.stats.confirmed + q.stats.dropped + q.count
  }
}
