/** The part of the event loop that keeps the mirror: start, debounced save, exit. */
module MqMirrorLoop {
  import opened Bytes
  import opened MqImage
  import opened MqDisk
  import opened MqPersist
  import opened MqRestore
  import opened MqMirror
  import opened MsgQueues

  const QUEUE_SAVE_INTERVAL := 5

  predicate TimedOut(since: int, now: int, timeout: int) {
    since < now && now - since >= timeout
  }

  // ---------------------------------------------------------------------
  // When the mirror is brought up to date
  // ---------------------------------------------------------------------

  /** The part of the loop's state that decides about saving. */
  datatype Saving = Saving(dirty: bool, lastSave: int)

  /** One turn of the loop at a time when a save would succeed or fail. */
  datatype Turn = Turn(now: int, succeeds: bool)

  function Turned(s: Saving, t: Turn): Saving {
    if s.dirty && TimedOut(s.lastSave, t.now, QUEUE_SAVE_INTERVAL)
    then Saving(!t.succeeds, t.now) else s
  }

  function TurnedAll(s: Saving, ts: seq<Turn>): Saving
    decreases |ts|
  {
    if ts == [] then s else TurnedAll(Turned(s, ts[0]), ts[1..])
  }

  /** A turn tries a save exactly when the queue changed and five seconds have passed
      since the last one. */
  lemma DueAfterFive(s: Saving, t: Turn)
    ensures Turned(s, t) == if s.dirty && s.lastSave + 5 <= t.now then Saving(!t.succeeds, t.now) else s
  {
  }

  /** Progress: once the queue changed, the first turn that comes five seconds after the
      last save brings the mirror up to date, if the save succeeds; turns before it
      leave everything as it is. */
  lemma {:induction false} ChangesAreSaved(s: Saving, early: seq<Turn>, t: Turn)
    requires s.dirty && t.succeeds && s.lastSave + 5 <= t.now
    requires forall i :: 0 <= i < |early| ==> early[i].now < s.lastSave + 5
    ensures TurnedAll(s, early) == s
    ensures TurnedAll(s, early + [t]) == Saving(false, t.now)
    decreases |early|
  {
    hide Turned;
    if early == [] {
      DueAfterFive(s, t);
      assert early + [t] == [t] && [t][1..] == [];
    } else {
      DueAfterFive(s, early[0]);
      assert (early + [t])[0] == early[0] && (early + [t])[1..] == early[1..] + [t];
      ChangesAreSaved(s, early[1..], t);
    }
  }

  /** However long the disk fails, saves are tried again every five seconds: a failed
      one leaves the change pending, and the next turn that is due can save it. */
  lemma FailureIsRetried(s: Saving, failed: Turn, t: Turn)
    requires s.dirty && !failed.succeeds && s.lastSave + 5 <= failed.now
    requires t.succeeds && failed.now + 5 <= t.now
    ensures TurnedAll(s, [failed, t]) == Saving(false, t.now)
  {
    hide Turned;
    DueAfterFive(s, failed);
    DueAfterFive(Saving(true, failed.now), t);
    assert [failed, t][1..] == [t] && [t][1..] == [];
    assert TurnedAll(Turned(Turned(s, failed), t), []) == Saving(false, t.now);
  }

  class MirrorLoop {
    const queue: MsgQueue
    const disk: Disk
    var lastSave: int

    ghost predicate Valid()
      reads this, queue, queue.ring
    {
      queue.Valid() && queue.ring.Length < TWO32
    }

    /** Start-up: an empty queue with its hooks, then the load. */
    constructor (capacity: nat, c: Option<bytes>, readable: bool, now: int)
      requires 0 < capacity < TWO32
      ensures Valid() && fresh(queue) && fresh(queue.ring) && fresh(disk)
      ensures queue.Model() == Boot(capacity, c, readable, now).queue
      ensures disk.State() == Boot(capacity, c, readable, now).disk
    {
      queue := new MsgQueue(capacity);
      disk := new Disk(AsFile(c));
      lastSave := now;
      new;
      var code := LoadQueue(queue, true, Read(c, readable), now);
    }

    /** Saves when the queue changed, but not more often than the interval; a failed
        save leaves the flag set. What it does is a Saved event of the protocol, and
        every state in between is one a Crashed event allows. */
    method SaveIfDue(now: int, faults: Faults) returns (tried: bool, ok: bool)
      requires Valid()
      modifies this, queue, disk
      ensures Valid()
      ensures tried <==> old(queue.dirty) && old(lastSave) + 5 <= now
      ensures Saving(queue.dirty, lastSave) == Turned(old(Saving(queue.dirty, lastSave)), Turn(now, ok))
      ensures !tried ==> !ok && queue.Model() == old(queue.Model()) && lastSave == old(lastSave)
      ensures !tried ==> disk.State() == old(disk.State()) && disk.trace == old(disk.trace)
      ensures tried ==> lastSave == now
      ensures tried ==> ok == Succeeds(faults, |old(QueueImage(queue.Model()))|)
      ensures tried ==> SaveMay(old(disk.State()), old(QueueImage(queue.Model())), disk.State(), ok)
      ensures tried ==> queue.Model() == old(queue.Model()).(dirty := !ok)
      ensures tried && !faults.open && !faults.flush && !faults.sync && !faults.close && !faults.rename &&
              |old(QueueImage(queue.Model()))| <= faults.room ==>
                !queue.dirty && disk.target == Some(File(old(QueueImage(queue.Model())), true))
      ensures old(disk.trace) <= disk.trace
      ensures NamesWithin(disk.trace, |old(disk.trace)|,
                          old(Names(disk.State())) + {Some(File(old(QueueImage(queue.Model())), true))})
    {
      hide QueueImage;
      tried, ok := false, false;
      if queue.dirty && TimedOut(lastSave, now, QUEUE_SAVE_INTERVAL) {
        tried := true;
        DirtyBlind(queue.Model(), false);
        var code := Save(queue, disk, true, faults);
        if code == SaveOk {
          ok := true;
          queue.dirty := false;
        }
        lastSave := now;
      }
    }

    /** On the way out the queue is saved whatever the flag says; every state in
        between is again one that a Crashed event allows. */
    method Exit(faults: Faults) returns (ok: bool)
      requires Valid()
      modifies disk
      ensures queue.Model() == old(queue.Model())
      ensures ok == Succeeds(faults, |QueueImage(queue.Model())|)
      ensures SaveMay(old(disk.State()), QueueImage(queue.Model()), disk.State(), ok)
      ensures old(disk.trace) <= disk.trace
      ensures NamesWithin(disk.trace, |old(disk.trace)|,
                          old(Names(disk.State())) + {Some(File(QueueImage(queue.Model()), true))})
    {
      hide QueueImage;
      var code := Save(queue, disk, true, faults);
      ok := code == SaveOk;
    }
  }
}
