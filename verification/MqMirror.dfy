/** The durable mirror as a protocol: queue operations, saves and crashes in any
    order, with the dirty flag deciding when a save is due. */
module MqMirror {
  import opened Bytes
  import opened MqModel
  import opened MqInvariant
  import opened MqOrder
  import opened MqList
  import opened MqRuns
  import opened MqImage
  import opened MqImport
  import opened MqDisk
  import opened MqPersist

  /** The running relayer. `blind` records that the file could not be read at start
      although it may exist. `held` is history: the lists the queue has stored. */
  datatype System = System(queue: Queue, disk: DiskState, blind: bool,
                           initial: Option<bytes>, held: set<seq<Record>>)

  datatype Event =
    | Operate(op: Op)
    | Saved(disk: DiskState, ok: bool)
    | Crashed(mid: DiskState, survivor: Option<bytes>, readable: bool, now: int)

  function Listed(q: Queue): seq<Record>
    requires Shaped(q)
  {
    Records(Messages(q))
  }

  /** What a save may do to the disk, as the contract of Save has it. */
  ghost predicate SaveMay(d: DiskState, image: bytes, d': DiskState, ok: bool) {
    if ok then d'.target == Some(File(image, true)) && Names(d') <= Names(d) + {Some(File(image, true))}
    else d'.target == d.target && d'.earlier == d.earlier
  }

  /** A crash may come at rest, or between any two steps of a save. */
  ghost predicate Possible(s: System, e: Event)
    requires Inv(s.queue) && |s.queue.ring| < TWO32
  {
    match e
    case Operate(_) => true
    case Saved(disk, ok) => SaveMay(s.disk, QueueImage(s.queue), disk, ok)
    case Crashed(mid, survivor, _, _) =>
      Names(mid) <= Names(s.disk) + {Some(File(QueueImage(s.queue), true))} && MaySurvive(mid, survivor)
  }

  function Read(c: Option<bytes>, readable: bool): FileRead {
    if c.None? then Missing else if readable then Contents(c.value) else Unreadable
  }

  function AsFile(c: Option<bytes>): Option<File> {
    if c.None? then None else Some(File(c.value, true))
  }

  function After(s: System, e: Event): (s': System)
    requires Shaped(s.queue)
    ensures Shaped(s'.queue) && |s'.queue.ring| == |s.queue.ring|
  {
    match e
    case Operate(op) =>
      var q := Step(History(s.queue, [], [], 0), op).queue;
      s.(queue := q, held := s.held + {Listed(q)})
    case Saved(disk, ok) =>
      s.(disk := disk, queue := if ok then s.queue.(dirty := false) else s.queue, blind := s.blind && !ok)
    case Crashed(_, survivor, readable, now) =>
      var (q, code) := Load(Fresh(|s.queue.ring|), true, Read(survivor, readable), now);
      System(q, DiskState(AsFile(survivor), None, [], {}), code == IoError, s.initial, s.held + {Listed(q)})
  }

  /** The list a fresh queue of this capacity gets from the file. */
  function Reload(capacity: nat, c: Option<File>): seq<Record> {
    if c.None? then []
    else
      var parsed := ParseFile(c.value.data, capacity);
      if parsed.None? then [] else parsed.value
  }

  /** While the flag is clear the file and the queue hold the same list. */
  ghost predicate Mirrored(s: System) {
    && Inv(s.queue) && |s.queue.ring| < TWO32
    && (!s.queue.dirty && !s.blind ==> Reload(|s.queue.ring|, s.disk.target) == Listed(s.queue))
  }

  /** Whatever a crash leaves under the name is complete: the file found at the very
      start, or the whole image of a list the queue held. */
  ghost predicate Whole(s: System)
    requires Shaped(s.queue)
  {
    && Listed(s.queue) in s.held
    && forall f :: f in Names(s.disk) ==> f == None || Complete(s, f.value)
  }

  ghost predicate Complete(s: System, f: File) {
    f.synced && (Some(f.data) == s.initial || exists l :: l in s.held && IsImage(l, f.data))
  }

  ghost predicate IsImage(l: seq<Record>, data: bytes) {
    Storable(l) && |l| < TWO32 && data == Image(l)
  }

  // ---------------------------------------------------------------------
  // The flag misses no change
  // ---------------------------------------------------------------------

  lemma TryKeepsMessage(e: Entry, code: int, now: int)
    ensures Try(e, code, now).entry.friendnum == e.friendnum && Try(e, code, now).entry.payload == e.payload
  {
  }

  lemma ReplacedRecords(ms: seq<Entry>, p: nat, e: Entry)
    requires p < |ms| && e.friendnum == ms[p].friendnum && e.payload == ms[p].payload
    ensures Records(ms[p := e]) == Records(ms)
  {
  }

  lemma TickDirty(q: Queue, ready: bool, code: int, now: int)
    requires Inv(q)
    ensures var s := Service(q, ready, code, now);
            if s.outcome == Dropped then s.queue.dirty
            else s.queue.dirty == q.dirty && Listed(s.queue) == Listed(q)
  {
    hide Messages, Sound, DistinctStamps, CountState, FirstEligible, Try, Settled, Records;
    ServiceRefines(q, ready, code, now);
    var s := Service(q, ready, code, now);
    var p := FirstEligible(Messages(q), now);
    if s.outcome == Idle {
      IdleChangesNothing(q, ready, code, now);
    } else if s.outcome != Dropped {
      TryKeepsMessage(Messages(q)[p], code, now);
      ReplacedRecords(Messages(q), p, Try(Messages(q)[p], code, now).entry);
    }
  }

  lemma PutDirty(q: Queue, friendnum: int32, payload: bytes, now: int)
    requires Inv(q)
    ensures var (q', code) := Enqueue(q, friendnum, payload, now);
            if code == Ok then q'.dirty else q'.dirty == q.dirty && Listed(q') == Listed(q)
  {
  }

  lemma AckDirty(q: Queue, friendnum: int, receipt: int)
    requires Inv(q)
    ensures var (q', code) := Confirm(q, friendnum, receipt);
            if code == Ok then q'.dirty else q' == q
  {
  }

  /** Every change of the stored list raises the flag; moving head, retrying and
      refusing do not change it. */
  lemma OperateMirrored(s: System, op: Op)
    requires Mirrored(s)
    ensures Mirrored(After(s, Operate(op)))
  {
    StepInv(History(s.queue, [], [], 0), op);
    hide Inv, Enqueue, Confirm, Service, Listed, Reload;
    match op
    case Put(friendnum, payload, now) => PutDirty(s.queue, friendnum, payload, now);
    case Ack(friendnum, receipt) => AckDirty(s.queue, friendnum, receipt);
    case Tick(ready, code, now) => TickDirty(s.queue, ready, code, now);
  }

  lemma ReloadImage(q: Queue, f: File)
    requires Inv(q) && |q.ring| < TWO32 && f.data == QueueImage(q)
    ensures Reload(|q.ring|, Some(f)) == Listed(q)
  {
    hide Messages, Records, Image, ParseFile;
    MessagesStorable(q);
    ImageRoundTrip(Listed(q), [], |q.ring|);
    assert Image(Listed(q)) + [] == Image(Listed(q));
  }

  lemma DirtyBlind(q: Queue, dirty: bool)
    requires Inv(q)
    ensures Inv(q.(dirty := dirty)) && Listed(q.(dirty := dirty)) == Listed(q)
  {
  }

  lemma SavedMirrored(s: System, disk: DiskState, ok: bool)
    requires Mirrored(s) && Possible(s, Saved(disk, ok))
    ensures Mirrored(After(s, Saved(disk, ok)))
  {
    DirtyBlind(s.queue, false);
    hide Listed, Reload, Messages, Records, QueueImage, DistinctStamps, Sound, CountState;
    if ok {
      ReloadImage(s.queue, disk.target.value);
    }
  }

  /** A restart reads back what the file holds, into a queue of the same capacity. */
  lemma RestartReloads(capacity: nat, survivor: Option<bytes>, readable: bool, now: int)
    requires 0 < capacity < TWO32
    ensures var (q, code) := Load(Fresh(capacity), true, Read(survivor, readable), now);
            Inv(q) && (code != IoError ==> Listed(q) == Reload(capacity, AsFile(survivor)))
            && (code == IoError <==> survivor.Some? && !readable)
  {
    hide Messages, Records, ParseFile;
    FreshInv(capacity);
    if survivor.Some? && readable && ParseFile(survivor.value, capacity).Some? {
      ImportIntoFresh(capacity, ParseFile(survivor.value, capacity).value, now);
    } else {
      MessagesSize(Fresh(capacity));
    }
  }

  lemma CrashedMirrored(s: System, mid: DiskState, survivor: Option<bytes>, readable: bool, now: int)
    requires Mirrored(s)
    ensures Mirrored(After(s, Crashed(mid, survivor, readable, now)))
  {
    hide Listed, Reload, Load, CountState, Sound, DistinctStamps;
    RestartReloads(|s.queue.ring|, survivor, readable, now);
  }

  // ---------------------------------------------------------------------
  // No torn file
  // ---------------------------------------------------------------------

  lemma CompleteGrows(s: System, s': System, f: File)
    requires Complete(s, f) && s.held <= s'.held && s.initial == s'.initial
    ensures Complete(s', f)
  {
    hide IsImage;
    if Some(f.data) != s.initial {
      var l :| l in s.held && IsImage(l, f.data);
      assert l in s'.held;
    }
  }

  lemma CurrentImageComplete(s: System, f: File)
    requires Inv(s.queue) && |s.queue.ring| < TWO32 && Whole(s)
    requires f == File(QueueImage(s.queue), true)
    ensures Complete(s, f)
  {
    MessagesStorable(s.queue);
    assert IsImage(Listed(s.queue), f.data);
  }

  lemma EventWhole(s: System, e: Event)
    requires Mirrored(s) && Whole(s) && Possible(s, e)
    ensures Whole(After(s, e))
  {
    hide Sound, DistinctStamps, CountState, Listed, Reload, QueueImage, Complete, Load, Step;
    var s' := After(s, e);
    CurrentImageComplete(s, File(QueueImage(s.queue), true));
    forall f | f in Names(s'.disk)
      ensures f == None || Complete(s', f.value)
    {
      if f.Some? {
        assert Complete(s, f.value) by {
          if e.Crashed? {
            SurvivorComplete(s, e.mid, e.survivor);
          }
        }
        CompleteGrows(s, s', f.value);
      }
    }
    if e.Saved? {
      DirtyBlind(s.queue, false);
    }
  }

  /** What survives a crash under the name was complete before it. */
  lemma SurvivorComplete(s: System, mid: DiskState, survivor: Option<bytes>)
    requires Inv(s.queue) && |s.queue.ring| < TWO32 && Whole(s)
    requires Names(mid) <= Names(s.disk) + {Some(File(QueueImage(s.queue), true))} && MaySurvive(mid, survivor)
    ensures survivor.Some? ==> Complete(s, File(survivor.value, true))
  {
    hide Inv, Listed, QueueImage, Complete;
    CurrentImageComplete(s, File(QueueImage(s.queue), true));
    var f :| f in Names(mid) && MayRead(f, survivor);
    if survivor.Some? {
      assert Complete(s, f.value);
      CompleteIsSynced(s, f.value);
    }
  }

  lemma CompleteIsSynced(s: System, f: File)
    requires Complete(s, f)
    ensures f.synced && File(f.data, true) == f
  {
  }

  // ---------------------------------------------------------------------
  // Over every run
  // ---------------------------------------------------------------------

  ghost predicate PossibleRun(s: System, es: seq<Event>)
    requires Mirrored(s)
    decreases |es|
  {
    es == [] ||
    (Possible(s, es[0]) &&
     (EventMirrored(s, es[0]); PossibleRun(After(s, es[0]), es[1..])))
  }

  function AfterAll(s: System, es: seq<Event>): (s': System)
    requires Shaped(s.queue)
    ensures Shaped(s'.queue)
    decreases |es|
  {
    if es == [] then s else AfterAll(After(s, es[0]), es[1..])
  }

  lemma EventMirrored(s: System, e: Event)
    requires Mirrored(s) && Possible(s, e)
    ensures Mirrored(After(s, e))
  {
    hide Mirrored;
    match e
    case Operate(op) => OperateMirrored(s, op);
    case Saved(disk, ok) => SavedMirrored(s, disk, ok);
    case Crashed(mid, survivor, readable, now) => CrashedMirrored(s, mid, survivor, readable, now);
  }

  /** Over every run of operations, saves that succeed or fail at any step, and
      crashes at any point: while the flag is clear the file reloads to the current
      list, and the name never stands for a torn file. */
  lemma {:induction false} MirrorHolds(s: System, es: seq<Event>)
    requires Mirrored(s) && Whole(s) && PossibleRun(s, es)
    ensures Mirrored(AfterAll(s, es)) && Whole(AfterAll(s, es))
    decreases |es|
  {
    if es != [] {
      hide After, Possible, Whole;
      EventMirrored(s, es[0]);
      EventWhole(s, es[0]);
      MirrorHolds(After(s, es[0]), es[1..]);
    }
  }

  /** The relayer as it starts: hooks installed, then the file loaded. */
  function Boot(capacity: nat, c: Option<bytes>, readable: bool, now: int): System
    requires 0 < capacity
  {
    var (q, code) := Load(Fresh(capacity), true, Read(c, readable), now);
    System(q, DiskState(AsFile(c), None, [], {}), code == IoError, c, {Listed(q)})
  }

  lemma BootHolds(capacity: nat, c: Option<bytes>, readable: bool, now: int)
    requires 0 < capacity < TWO32
    ensures Mirrored(Boot(capacity, c, readable, now)) && Whole(Boot(capacity, c, readable, now))
  {
    hide Listed, Reload, Load, Inv;
    RestartReloads(capacity, c, readable, now);
  }

  /** With the flag clear and the directory flushed, a crash at rest and a restart
      lose no message and reorder none. */
  lemma CleanCrashLosesNothing(s: System, survivor: Option<bytes>, now: int)
    requires Mirrored(s) && Whole(s) && !s.queue.dirty && !s.blind && s.disk.earlier == {}
    requires Possible(s, Crashed(s.disk, survivor, true, now))
    ensures Listed(After(s, Crashed(s.disk, survivor, true, now)).queue) == Listed(s.queue)
  {
    hide Listed, Reload, Load, Complete, QueueImage;
    assert Names(s.disk) == {s.disk.target};
    assert MayRead(s.disk.target, survivor);
    if survivor.Some? {
      assert Complete(s, s.disk.target.value);
      CompleteIsSynced(s, s.disk.target.value);
    }
    RestartReloads(|s.queue.ring|, survivor, true, now);
  }
}
