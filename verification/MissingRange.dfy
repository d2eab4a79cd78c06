/** Three descriptions of "the missing telegrams" that must agree: what the tracker
    keeps outstanding, the cyclic interval of the request, and the rows the archive
    selects. */
module MissingRange {
  import opened Serials
  import opened SnTracking
  import opened TrackerSimulation
  import opened RelayPolicy
  import opened MsgDatabase

  /** The serials from `from` forward to `to`. */
  predicate InCycle(s: int, from: int, to: int) {
    SnValid(s) && Distance(from, s) <= Distance(from, to)
  }

  lemma SuccessiveAt(from: int, n: nat, i: nat)
    requires SnValid(from) && i < n
    ensures Successive(from, n)[i] == Wrap(from + i)
  {
    WrapIdentity(from);
    WrapSteps(from, i);
  }

  lemma InCycleIff(s: int, from: int, n: nat)
    requires SnValid(from) && 0 < n <= SN_RANGE
    ensures s in Successive(from, n) <==> SnValid(s) && Distance(from, s) < n
  {
    hide Distance;
    if s in Successive(from, n) {
      var i :| 0 <= i < n && Successive(from, n)[i] == s;
      SuccessiveAt(from, n, i);
      WrapIdentity(from);
      WrapDistance(from, from + i);
    }
    if SnValid(s) && Distance(from, s) < n {
      var i := Distance(from, s);
      SuccessiveAt(from, n, i);
      WrapIdentity(from);
      DistanceIsLeastSteps(from, s);
    }
  }

  lemma InRangeIff(s: int, from: int, to: int)
    requires SnValid(s) && SnValid(from) && SnValid(to)
    ensures InRange(s, from, to) <==> Distance(from, s) <= Distance(from, to)
  {
  }

  lemma {:induction false} NoRepeatsSize(s: seq<int>)
    requires NoRepeats(s)
    ensures |set x | x in s| == |s|
  {
    if s != [] {
      var rest := s[1..];
      NoRepeatsSize(rest);
      assert s == [s[0]] + rest;
      assert (set x | x in s) == (set x | x in rest) + {s[0]};
      assert s[0] !in rest by {
        assert forall i :: 0 <= i < |rest| ==> rest[i] == s[i + 1];
      }
    }
  }

  /** Whenever a tracker reports a gap, the serials it keeps outstanding, the cyclic
      interval of the request and the serials the archive's query selects are the
      same set, of exactly as many as never arrived; never more than a replay may
      answer. */
  lemma MissingRangesAgree(t: Tracker, sn: int)
    requires SnValid(t.expected) && Accept(t, sn, RELAY_MAX_GAP).verdict == Gap
    ensures var a := Accept(t, sn, RELAY_MAX_GAP);
            var d := Distance(t.expected, sn);
            var missing := Successive(t.expected, d);
            && a.tracker.pending == t.pending + missing
            && SnValid(a.gapFrom) && SnValid(a.gapTo)
            && (forall s :: s in missing <==> InCycle(s, a.gapFrom, a.gapTo))
            && (forall s :: s in missing <==> SnValid(s) && InRange(s, a.gapFrom, a.gapTo))
            && NoRepeats(missing) && |set s | s in missing| == |missing| == d <= RELAY_MAX_REPLAY
  {
    var a := Accept(t, sn, RELAY_MAX_GAP);
    var d := Distance(t.expected, sn);
    DistanceToPrev(t.expected, sn);
    hide Distance, Successive;
    SuccessiveNoRepeats(t.expected, d);
    NoRepeatsSize(Successive(t.expected, d));
    forall s
      ensures s in Successive(t.expected, d) <==> InCycle(s, a.gapFrom, a.gapTo)
      ensures s in Successive(t.expected, d) <==> SnValid(s) && InRange(s, a.gapFrom, a.gapTo)
    {
      InCycleIff(s, t.expected, d);
      if SnValid(s) {
        InRangeIff(s, a.gapFrom, a.gapTo);
      }
    }
  }

  /** Serials of rows. */
  function SerialsOf(rows: seq<Row>): (s: seq<int>)
    ensures |s| == |rows|
    ensures forall i :: 0 <= i < |rows| ==> s[i] == rows[i].sn
  {
    seq(|rows|, i requires 0 <= i < |rows| => rows[i].sn)
  }

  /** LIMIT never cuts a reply: rows with distinct valid serials that the query
      selects for a gap are at most as many as the gap is wide. */
  lemma LimitNeverCuts(rows: seq<Row>, friend: int, t: Tracker, sn: int)
    requires SnValid(t.expected) && Accept(t, sn, RELAY_MAX_GAP).verdict == Gap
    requires var a := Accept(t, sn, RELAY_MAX_GAP);
             var hits := Select(rows, friend, Outgoing, a.gapFrom, a.gapTo);
             NoRepeats(SerialsOf(hits)) && forall i :: 0 <= i < |hits| ==> SnValid(hits[i].sn)
    ensures var a := Accept(t, sn, RELAY_MAX_GAP);
            |Select(rows, friend, Outgoing, a.gapFrom, a.gapTo)| <= Distance(t.expected, sn) <= RELAY_MAX_REPLAY
  {
    hide Accept, Successive, Distance;
    var a := Accept(t, sn, RELAY_MAX_GAP);
    MissingRangesAgree(t, sn);
    var hits := Select(rows, friend, Outgoing, a.gapFrom, a.gapTo);
    var sns := SerialsOf(hits);
    var missing := Successive(t.expected, Distance(t.expected, sn));
    NoRepeatsSize(sns);
    forall s | s in sns
      ensures s in missing
    {
      var i :| 0 <= i < |sns| && sns[i] == s;
      assert hits[i] in hits;
    }
    SubsetSize(set s | s in sns, set s | s in missing);
  }

  lemma {:induction false} SubsetSize(a: set<int>, b: set<int>)
    requires a <= b
    ensures |a| <= |b|
  {
    assert b == a + (b - a);
  }
}
