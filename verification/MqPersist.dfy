/** Saving the delivery queue to its file, and restoring it. */
module MqPersist {
  import opened Bytes
  import opened MqModel
  import opened MqOrder
  import opened MqList
  import opened MqImage
  import opened MqDisk
  import opened MsgQueues

  datatype SaveCode = SaveOk | SavePathError | SaveIoError

  /** Which step of a save fails, and how many bytes the stream accepts. */
  datatype Faults = Faults(open: bool, room: nat, flush: bool, sync: bool, close: bool,
                           rename: bool, unlink: bool, directory: bool)

  predicate Succeeds(f: Faults, size: nat) {
    !f.open && size <= f.room && !f.flush && !f.sync && !f.close && !f.rename
  }

  lemma MessagesStorable(q: Queue)
    requires Inv(q)
    ensures Storable(Records(Messages(q))) && |Records(Messages(q))| == q.count <= |q.ring|
  {
    MessagesAreSlots(q);
    MessagesSize(q);
    hide Messages, CountState, DistinctStamps;
    forall i | 0 <= i < |Messages(q)|
      ensures Acceptable(Messages(q)[i].friendnum, Messages(q)[i].payload)
    {
      assert Messages(q)[i] in Messages(q);
    }
    assert q.count <= |q.ring|;
  }

  /** The image of the queue as it stands. */
  function QueueImage(q: Queue): bytes
    requires Inv(q) && |q.ring| < TWO32
  {
    MessagesStorable(q);
    Image(Records(Messages(q)))
  }

  lemma {:induction false} BodyNext(rs: seq<Record>, i: nat)
    requires Storable(rs) && i < |rs|
    ensures Body(rs[..i + 1]) == Body(rs[..i]) + RecordHead(rs[i]) + rs[i].payload
    decreases |rs|
  {
    hide RecordHead;
    if i == 0 {
      assert rs[..1] == [rs[0]] && rs[..0] == [];
      assert Body([rs[0]][1..]) == [];
    } else {
      BodyNext(rs[1..], i - 1);
      assert rs[..i + 1][1..] == rs[1..][..i];
      assert rs[..i][1..] == rs[1..][..i - 1];
    }
  }

  /** In every state of the trace from position `from` on, the name stands for one
      of these files. */
  ghost predicate NamesWithin(trace: seq<DiskState>, from: nat, files: set<Option<File>>) {
    from <= |trace| && forall i :: from <= i < |trace| ==> Names(trace[i]) <= files
  }

  /** The visitor of a save: one record, head and payload. */
  method WriteRecord(disk: Disk, r: Record, room: nat) returns (ok: bool)
    requires Acceptable(r.friendnum, r.payload)
    modifies disk
    ensures disk.State() == old(disk.State()).(buffer := disk.buffer)
    ensures ok <==> |old(disk.buffer)| + |RecordHead(r)| + |r.payload| <= room
    ensures ok ==> disk.buffer == old(disk.buffer) + RecordHead(r) + r.payload
    ensures old(disk.trace) <= disk.trace
    ensures NamesWithin(disk.trace, |old(disk.trace)|, old(Names(disk.State())))
  {
    hide RecordHead;
    ok := disk.Write(RecordHead(r), room);
    if ok {
      ok := disk.Write(r.payload, room);
    }
  }

  /** Writes the records of the queue behind the header; after a failure the
      remaining ones are skipped. */
  method WriteRecords(disk: Disk, rs: seq<Record>, room: nat) returns (ok: bool)
    requires Storable(rs) && |disk.buffer| <= room
    modifies disk
    ensures disk.State() == old(disk.State()).(buffer := disk.buffer)
    ensures ok <==> |old(disk.buffer)| + |Body(rs)| <= room
    ensures ok ==> disk.buffer == old(disk.buffer) + Body(rs)
    ensures old(disk.trace) <= disk.trace
    ensures NamesWithin(disk.trace, |old(disk.trace)|, old(Names(disk.State())))
  {
    ghost var head := disk.buffer;
    ok := true;
    var i := 0;
    assert rs[..0] == [];
    hide Body, RecordHead;
    EmptyBody();
    while i < |rs|
      invariant 0 <= i <= |rs|
      invariant disk.State() == old(disk.State()).(buffer := disk.buffer)
      invariant ok <==> |head| + |Body(rs[..i])| <= room
      invariant ok ==> disk.buffer == head + Body(rs[..i])
      invariant old(disk.trace) <= disk.trace
      invariant NamesWithin(disk.trace, |old(disk.trace)|, old(Names(disk.State())))
    {
      BodyNext(rs, i);
      if ok {
        ok := WriteRecord(disk, rs[i], room);
      }
      i := i + 1;
    }
    assert rs[..i] == rs;
  }

  lemma EmptyBody()
    ensures Body([]) == []
  {
  }

  /** Header and records, into the stream's buffer. */
  method WriteImage(queue: MsgQueue, disk: Disk, room: nat) returns (ok: bool)
    requires queue.Valid() && queue.ring.Length < TWO32 && disk.buffer == []
    modifies disk
    ensures queue.Model() == old(queue.Model())
    ensures ok <==> |QueueImage(queue.Model())| <= room
    ensures disk.State() == old(disk.State()).(buffer := disk.buffer)
    ensures ok ==> disk.buffer == QueueImage(queue.Model())
    ensures old(disk.trace) <= disk.trace
    ensures NamesWithin(disk.trace, |old(disk.trace)|, old(Names(disk.State())))
  {
    MessagesStorable(queue.Model());
    hide Header, Body, Sound, DistinctStamps, CountState, Messages, Records;
    ok := disk.Write(Header(queue.count), room);
    if ok {
      var rs := queue.ForEach();
      ok := WriteRecords(disk, rs, room);
    }
  }

  /** Flush, fsync, close: what was written is on the device before the rename. */
  method PushOut(disk: Disk, written: bool, faults: Faults) returns (ok: bool)
    requires disk.temp == Some(File([], false))
    modifies disk
    ensures ok <==> written && !faults.flush && !faults.sync && !faults.close
    ensures disk.target == old(disk.target) && disk.earlier == old(disk.earlier) && disk.buffer == []
    ensures disk.temp.Some? && (ok ==> disk.temp == Some(File(old(disk.buffer), true)))
    ensures old(disk.trace) <= disk.trace
    ensures NamesWithin(disk.trace, |old(disk.trace)|, old(Names(disk.State())))
  {
    ok := written;
    assert [] + disk.buffer == disk.buffer;
    if ok {
      ok := disk.Flush(faults.flush);
    }
    if ok {
      ok := disk.Sync(faults.sync);
    }
    var closed := disk.Close(faults.close);
    ok := ok && closed;
  }

  /** Writes the queue to a temporary file, flushes it, and renames it over the
      target. Whatever fails and wherever a crash comes, the name stands for what it
      stood for before, or for the complete new image. */
  method Save(queue: MsgQueue, disk: Disk, pathUsable: bool, faults: Faults) returns (code: SaveCode)
    requires queue.Valid() && queue.ring.Length < TWO32
    modifies disk
    ensures queue.Model() == old(queue.Model())
    ensures code == SavePathError <==> !pathUsable
    ensures code == SaveOk <==> pathUsable && Succeeds(faults, |QueueImage(queue.Model())|)
    ensures code == SaveOk ==>
              var before := old(disk.State());
              disk.State() == DiskState(Some(File(QueueImage(queue.Model()), true)), None, [],
                                        if faults.directory then before.earlier + {before.target} else {})
    ensures code != SaveOk ==>
              disk.target == old(disk.target) && disk.earlier == old(disk.earlier) &&
              (pathUsable && !faults.open && !faults.unlink ==> disk.temp == None)
    ensures old(disk.trace) <= disk.trace
    ensures NamesWithin(disk.trace, |old(disk.trace)|,
                        old(Names(disk.State())) + {Some(File(QueueImage(queue.Model()), true))})
  {
    hide QueueImage, Inv;
    if !pathUsable {
      return SavePathError;
    }
    var ok := disk.Open(faults.open);
    if !ok {
      return SaveIoError;
    }
    ok := WriteImage(queue, disk, faults.room);
    ok := PushOut(disk, ok, faults);
    if !ok {
      disk.Unlink(faults.unlink);
      return SaveIoError;
    }
    ok := disk.Rename(faults.rename);
    if !ok {
      disk.Unlink(faults.unlink);
      return SaveIoError;
    }
    disk.SyncDirectory(faults.directory);
    return SaveOk;
  }
}
