/** The message archive: a table clustered by its timestamp key, and the range
    query that answers a replay request. */
module MsgDatabase {
  import opened Bytes

  const SN_FLOOR := 0
  const SN_CEILING := 999
  const MESSAGE_MAX := 1024

  datatype Direction = Incoming | Outgoing

  datatype Row = Row(time: int64, sender: CString, sn: int, friend: int, direction: Direction, message: CString)

  datatype Code = Done | NotReady | RangeError

  /** Rows are kept in the order of their key, each key once. */
  predicate Sorted(rows: seq<Row>) {
    forall i, j :: 0 <= i < j < |rows| ==> rows[i].time < rows[j].time
  }

  /** INSERT OR REPLACE: a row with the same key gives way. */
  function Upsert(rows: seq<Row>, row: Row): (r: seq<Row>) {
    if rows == [] then [row]
    else if rows[0].time < row.time then [rows[0]] + Upsert(rows[1..], row)
    else if rows[0].time == row.time then [row] + rows[1..]
    else [row] + rows
  }

  /** What the archive holds after an insertion: the new row, and every row with
      another timestamp. */
  lemma {:induction false} UpsertContents(rows: seq<Row>, row: Row)
    requires Sorted(rows)
    ensures Sorted(Upsert(rows, row))
    ensures forall x :: x in Upsert(rows, row) <==> x == row || (x in rows && x.time != row.time)
  {
    if rows != [] {
      var first, rest := rows[0], rows[1..];
      FirstIsLeast(rows);
      hide Sorted;
      Members(first, rest);
      if first.time < row.time {
        UpsertContents(rest, row);
        Members(first, Upsert(rest, row));
      } else {
        Members(row, rest);
        Members(row, rows);
      }
    }
  }

  lemma FirstIsLeast(rows: seq<Row>)
    requires Sorted(rows) && rows != []
    ensures rows == [rows[0]] + rows[1..] && Sorted(rows[1..])
    ensures forall y :: y in rows[1..] ==> rows[0].time < y.time
  {
  }

  lemma Members(x: Row, rows: seq<Row>)
    ensures forall y :: y in [x] + rows <==> y == x || y in rows
    ensures (forall y :: y in rows ==> x.time < y.time) && Sorted(rows) ==> Sorted([x] + rows)
  {
    if forall y :: y in rows ==> x.time < y.time {
      assert forall i :: 0 <= i < |rows| ==> rows[i] in rows;
    }
  }

  function Clamp(sn: int): int {
    if sn < SN_FLOOR then SN_FLOOR else if sn > SN_CEILING then SN_CEILING else sn
  }

  /** The serials the range query asks for: a plain interval, or one across the wrap. */
  predicate InRange(sn: int, from: int, to: int) {
    if from <= to then from <= sn <= to else sn >= from || sn <= to
  }

  predicate Selected(row: Row, friend: int, direction: Direction, from: int, to: int) {
    row.friend == friend && row.direction == direction && InRange(row.sn, from, to)
  }

  /** The selected rows, oldest first. */
  function Select(rows: seq<Row>, friend: int, direction: Direction, from: int, to: int): (r: seq<Row>)
    ensures |r| <= |rows|
    ensures forall x :: x in r <==> x in rows && Selected(x, friend, direction, from, to)
  {
    if rows == [] then []
    else if Selected(rows[0], friend, direction, from, to)
    then [rows[0]] + Select(rows[1..], friend, direction, from, to)
    else Select(rows[1..], friend, direction, from, to)
  }

  /** A message is copied into a field of fixed size. */
  function Bounded(row: Row): Row {
    row.(message := if |row.message| < MESSAGE_MAX then row.message else row.message[..MESSAGE_MAX - 1])
  }

  function BoundedAll(rows: seq<Row>): (r: seq<Row>)
    ensures |r| == |rows|
    ensures forall i :: 0 <= i < |rows| ==> r[i] == Bounded(rows[i])
  {
    seq(|rows|, i requires 0 <= i < |rows| => Bounded(rows[i]))
  }

  datatype Archive = Archive(ready: bool, rows: seq<Row>)

  function Add(a: Archive, friend: int, sn: int, time: int64, sender: CString, direction: Direction,
               message: CString): (Archive, Code)
  {
    if !a.ready then (a, NotReady)
    else if friend < 0 then (a, RangeError)
    else (a.(rows := Upsert(a.rows, Row(time, sender, Clamp(sn), friend, direction, message))), Done)
  }

  predicate Queryable(a: Archive, friend: int, from: int, to: int, max: int) {
    a.ready && 0 < max && 0 <= friend && SN_FLOOR <= from <= SN_CEILING && SN_FLOOR <= to <= SN_CEILING
  }

  /** The rows a query returns; none on an error. */
  function Query(a: Archive, friend: int, direction: Direction, from: int, to: int, max: int): seq<Row> {
    if !Queryable(a, friend, from, to, max) then []
    else
      var hits := Select(a.rows, friend, direction, from, to);
      BoundedAll(if |hits| <= max then hits else hits[..max])
  }

  /** The rows stay in the order of their timestamps. */
  lemma {:induction false} SelectSorted(rows: seq<Row>, friend: int, direction: Direction, from: int, to: int)
    requires Sorted(rows)
    ensures Sorted(Select(rows, friend, direction, from, to))
  {
    if rows != [] {
      var rest := Select(rows[1..], friend, direction, from, to);
      SelectSorted(rows[1..], friend, direction, from, to);
      forall x | x in rest
        ensures rows[0].time < x.time
      {
        var i :| 0 <= i < |rows[1..]| && rows[1..][i] == x;
        assert rows[i + 1] == x;
      }
      Members(rows[0], rest);
    }
  }

  /** A query, exactly: the rows of the channel and direction whose serial lies in the
      interval, or across the wrap, oldest first, at most max of them, with messages of
      at most 1023 bytes; and none on bad arguments. */
  lemma QueryExactly(a: Archive, friend: int, direction: Direction, from: int, to: int, max: int)
    requires Sorted(a.rows)
    ensures var out := Query(a, friend, direction, from, to, max);
            var asked := Select(a.rows, friend, direction, from, to);
            && Sorted(asked)
            && (forall x :: x in asked <==>
                  x in a.rows && x.friend == friend && x.direction == direction &&
                  if from <= to then from <= x.sn && x.sn <= to else from <= x.sn || x.sn <= to)
            && (!(a.ready && 0 < max && 0 <= friend && 0 <= from <= 999 && 0 <= to <= 999) ==> out == [])
            && (a.ready && 0 < max && 0 <= friend && 0 <= from <= 999 && 0 <= to <= 999 ==>
                  && |out| == (if |asked| <= max then |asked| else max)
                  && forall i :: 0 <= i < |out| ==>
                       && out[i].(message := asked[i].message) == asked[i]
                       && out[i].message == asked[i].message[..if |asked[i].message| <= 1023
                                                               then |asked[i].message| else 1023])
  {
    SelectSorted(a.rows, friend, direction, from, to);
    hide Select;
    assert forall s: CString :: s[..|s|] == s;
  }

  /** An insertion, exactly: what is filed, and what is refused. */
  lemma AddExactly(a: Archive, friend: int, sn: int, time: int64, sender: CString, direction: Direction,
                   message: CString)
    ensures var (a', code) := Add(a, friend, sn, time, sender, direction, message);
            var filed := if sn < 0 then 0 else if sn > 999 then 999 else sn;
            && (code == NotReady <==> !a.ready) && (code == RangeError <==> a.ready && friend < 0)
            && (code != Done ==> a' == a)
            && (code == Done ==>
                  a' == a.(rows := Upsert(a.rows, Row(time, sender, filed, friend, direction, message))))
  {
    hide Upsert;
  }

  class Database {
    var ready: bool
    var rows: seq<Row>

    ghost function Model(): Archive
      reads this
    {
      Archive(ready, rows)
    }

    constructor (isReady: bool)
      ensures Model() == Archive(isReady, [])
    {
      ready, rows := isReady, [];
    }

    method AddRow(friend: int, sn: int, time: int64, sender: CString, direction: Direction, message: CString)
        returns (code: Code)
      requires Sorted(rows)
      modifies this
      ensures Sorted(rows)
      ensures (Model(), code) == Add(old(Model()), friend, sn, time, sender, direction, message)
    {
      if !ready {
        return NotReady;
      }
      if friend < 0 {
        return RangeError;
      }
      var clamped := if sn < SN_FLOOR then SN_FLOOR else if sn > SN_CEILING then SN_CEILING else sn;
      var row := Row(time, sender, clamped, friend, direction, message);
      UpsertContents(rows, row);
      rows := Upsert(rows, row);
      return Done;
    }

    /** Steps through the result set until the output is full or the rows are done. */
    method QueryRange(friend: int, direction: Direction, from: int, to: int, max: int)
        returns (out: seq<Row>)
      ensures out == Query(Model(), friend, direction, from, to, max)
    {
      out := [];
      if !Queryable(Archive(ready, rows), friend, from, to, max) {
        return;
      }
      hide Select, BoundedAll, Bounded, Selected;
      var i := 0;
      ghost var a := Model();
      ghost var taken: seq<Row> := [];
      Started(a, friend, direction, from, to, max);
      while i < |rows| && |out| < max
        invariant 0 <= i <= |rows| && |taken| <= max
        invariant out == BoundedAll(taken)
        invariant Underway(a, friend, direction, from, to, max, taken, i)
      {
        SelectNext(taken, rows, i, friend, direction, from, to);
        if Selected(rows[i], friend, direction, from, to) {
          out := out + [Bounded(rows[i])];
          BoundedNext(taken, rows[i]);
          taken := taken + [rows[i]];
        }
        i := i + 1;
      }
      Finished(a, friend, direction, from, to, max, taken, i);
    }
  }

  /** The rows taken so far and those still to be stepped through make up the result. */
  ghost predicate Underway(a: Archive, friend: int, direction: Direction, from: int, to: int, max: int,
                           taken: seq<Row>, i: nat)
  {
    i <= |a.rows| &&
    Select(a.rows, friend, direction, from, to) == taken + Select(a.rows[i..], friend, direction, from, to)
  }

  lemma Started(a: Archive, friend: int, direction: Direction, from: int, to: int, max: int)
    ensures Underway(a, friend, direction, from, to, max, [], 0)
    ensures BoundedAll([]) == []
  {
    hide Select;
    assert a.rows[0..] == a.rows;
    assert [] + Select(a.rows, friend, direction, from, to) == Select(a.rows, friend, direction, from, to);
  }

  lemma Finished(a: Archive, friend: int, direction: Direction, from: int, to: int, max: int,
                 taken: seq<Row>, i: nat)
    requires Queryable(a, friend, from, to, max) && |taken| <= max
    requires Underway(a, friend, direction, from, to, max, taken, i)
    requires i == |a.rows| || |taken| == max
    ensures BoundedAll(taken) == Query(a, friend, direction, from, to, max)
  {
    hide BoundedAll;
    var rest := Select(a.rows[i..], friend, direction, from, to);
    if i < |a.rows| {
      assert (taken + rest)[..max] == taken;
      if rest == [] {
        assert taken + rest == taken;
      }
    } else {
      assert taken + rest == taken;
    }
  }

  lemma SelectNext(taken: seq<Row>, rows: seq<Row>, i: nat, friend: int, direction: Direction, from: int, to: int)
    requires i < |rows|
    ensures taken + Select(rows[i..], friend, direction, from, to)
         == (if Selected(rows[i], friend, direction, from, to) then taken + [rows[i]] else taken)
            + Select(rows[i + 1..], friend, direction, from, to)
  {
    assert rows[i..][1..] == rows[i + 1..];
    var rest := Select(rows[i + 1..], friend, direction, from, to);
    assert taken + ([rows[i]] + rest) == taken + [rows[i]] + rest;
  }

  lemma BoundedNext(rows: seq<Row>, row: Row)
    ensures BoundedAll(rows + [row]) == BoundedAll(rows) + [Bounded(row)]
  {
  }
}
