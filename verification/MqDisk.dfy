/** The little of a file system that the durable mirror relies on: buffered
    writing, fsync, atomic rename, and what a crash may leave behind. */
module MqDisk {
  import opened Bytes

  /** File contents; until synced, a crash may leave anything in their place. */
  datatype File = File(data: bytes, synced: bool)

  /** `target` is the file under its name and `temp` the one being written, whose
      stream still holds `buffer`. `earlier` are older bindings of the name that
      the device may fall back to until the directory is flushed. */
  datatype DiskState = DiskState(target: Option<File>, temp: Option<File>, buffer: bytes, earlier: set<Option<File>>)

  /** What the name may stand for after a crash. */
  function Names(d: DiskState): set<Option<File>> {
    d.earlier + {d.target}
  }

  ghost predicate MayRead(f: Option<File>, c: Option<bytes>) {
    match f
    case None => c == None
    case Some(file) => c.Some? && (file.synced ==> c.value == file.data)
  }

  /** A crash in state d may leave contents c under the name. */
  ghost predicate MaySurvive(d: DiskState, c: Option<bytes>) {
    exists f :: f in Names(d) && MayRead(f, c)
  }

  /** The first n bytes, or all there are. */
  function Prefix(b: bytes, n: nat): bytes {
    if n <= |b| then b[..n] else b
  }

  /** Steps of the system calls; each leaves a state in which a crash may occur,
      and the trace collects them. */
  class Disk {
    var target: Option<File>
    var temp: Option<File>
    var buffer: bytes
    var earlier: set<Option<File>>
    ghost var trace: seq<DiskState>

    ghost function State(): DiskState
      reads this
    {
      DiskState(target, temp, buffer, earlier)
    }

    constructor (initial: Option<File>)
      ensures State() == DiskState(initial, None, [], {}) && trace == [State()]
    {
      target, temp, buffer, earlier := initial, None, [], {};
      trace := [DiskState(initial, None, [], {})];
    }

    method Open(fails: bool) returns (ok: bool)
      modifies this
      ensures ok == !fails
      ensures State() == if ok then old(State()).(temp := Some(File([], false)), buffer := []) else old(State())
      ensures trace == old(trace) + [State()]
    {
      if !fails {
        temp, buffer := Some(File([], false)), [];
      }
      trace := trace + [State()];
      return !fails;
    }

    /** Accepts data as long as the stream holds no more than room bytes. */
    method Write(data: bytes, room: nat) returns (ok: bool)
      modifies this
      ensures ok <==> |old(buffer)| + |data| <= room
      ensures State() == old(State()).(buffer := buffer) && trace == old(trace) + [State()]
      ensures ok ==> buffer == old(buffer) + data
    {
      ok := |buffer| + |data| <= room;
      buffer := buffer + Prefix(data, if |buffer| <= room then room - |buffer| else 0);
      trace := trace + [State()];
    }

    method Flush(fails: bool) returns (ok: bool)
      requires temp.Some?
      modifies this
      ensures ok == !fails
      ensures State() == if ok
                         then old(State()).(temp := Some(File(old(temp.value.data + buffer), false)), buffer := [])
                         else old(State())
      ensures trace == old(trace) + [State()]
    {
      if !fails {
        temp, buffer := Some(File(temp.value.data + buffer, false)), [];
      }
      trace := trace + [State()];
      return !fails;
    }

    method Sync(fails: bool) returns (ok: bool)
      requires temp.Some?
      modifies this
      ensures ok == !fails
      ensures State() == if ok then old(State()).(temp := Some(old(temp.value).(synced := true))) else old(State())
      ensures trace == old(trace) + [State()]
    {
      if !fails {
        temp := Some(temp.value.(synced := true));
      }
      trace := trace + [State()];
      return !fails;
    }

    /** Closing writes out what the stream still holds. */
    method Close(fails: bool) returns (ok: bool)
      requires temp.Some?
      modifies this
      ensures ok == !fails
      ensures State() == old(State()).(temp := if old(buffer) == [] then old(temp)
                                               else Some(File(old(temp.value.data + buffer), false)),
                                       buffer := [])
      ensures trace == old(trace) + [State()]
    {
      if buffer != [] {
        temp := Some(File(temp.value.data + buffer, false));
      }
      buffer := [];
      trace := trace + [State()];
      return !fails;
    }

    /** The old binding of the name may come back until the directory is flushed. */
    method Rename(fails: bool) returns (ok: bool)
      requires temp.Some?
      modifies this
      ensures ok == !fails
      ensures State() == if ok then old(State()).(target := old(temp), temp := None, earlier := old(earlier + {target}))
                         else old(State())
      ensures trace == old(trace) + [State()]
    {
      if !fails {
        earlier := earlier + {target};
        target, temp := temp, None;
      }
      trace := trace + [State()];
      return !fails;
    }

    method Unlink(fails: bool)
      modifies this
      ensures State() == if fails then old(State()) else old(State()).(temp := None)
      ensures trace == old(trace) + [State()]
    {
      if !fails {
        temp := None;
      }
      trace := trace + [State()];
    }

    method SyncDirectory(fails: bool)
      modifies this
      ensures State() == if fails then old(State()) else old(State()).(earlier := {})
      ensures trace == old(trace) + [State()]
    {
      if !fails {
        earlier := {};
      }
      trace := trace + [State()];
    }
  }
}
