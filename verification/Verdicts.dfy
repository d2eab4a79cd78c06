/** The verdict on an arriving serial in plain arithmetic. */
module Verdicts {
  import opened Serials
  import opened SnTracking
  import opened TrackerSimulation
  import opened RelayPolicy

  /** Serial numbers go round from 999 to 1. */
  lemma SerialsGoRound(sn: int)
    ensures SnValid(sn) <==> 1 <= sn <= 999
    ensures Next(sn) == if 1 <= sn <= 998 then sn + 1 else 1
    ensures Prev(sn) == if 2 <= sn <= 999 then sn - 1 else 999
  {
  }

  /** How far an arrival is ahead: 0 to 998 steps. */
  function Ahead(expected: int, sn: int): int {
    (sn - expected) % 999
  }

  lemma DistanceIsAhead(expected: int, sn: int)
    ensures Distance(expected, sn) == Ahead(expected, sn)
  {
  }

  /** The serial i steps on. */
  function Onward(from: int, i: int): int {
    (from - 1 + i) % 999 + 1
  }

  lemma SuccessiveIs(from: int, n: nat)
    requires 1 <= from <= 999
    ensures |Successive(from, n)| == n
    ensures forall i :: 0 <= i < n ==> Successive(from, n)[i] == Onward(from, i)
  {
    WrapIdentity(from);
    forall i | 0 <= i < n
      ensures Successive(from, n)[i] == Onward(from, i)
    {
      WrapSteps(from, i);
    }
  }

  /** What the tracker makes of every serial. An invalid one changes nothing. An
      outstanding one is recovered. Otherwise, once synchronised, the next one is in
      order; up to 64 steps ahead opens a gap, if it leaves at most 256 serials
      outstanding; farther ahead, up to 499 steps, resynchronises; and the rest are
      duplicates. */
  lemma AcceptExactly(t: Tracker, sn: int)
    requires 1 <= t.expected <= 999
    ensures var a := Accept(t, sn, RELAY_MAX_GAP);
            var d := Ahead(t.expected, sn);
            var next := if sn == 999 then 1 else sn + 1;
            if !(1 <= sn <= 999) then a == Arrival(t, Resync, 0, 0)
            else if sn in t.pending then
              && a.verdict == Recovered && a.gapFrom == a.gapTo == 0
              && a.tracker.expected == t.expected && a.tracker.synced == t.synced
              && multiset(a.tracker.pending) == multiset(t.pending) - multiset{sn}
            else if !t.synced || d == 0 then a == Arrival(Tracker(next, true, t.pending), InOrder, 0, 0)
            else if d >= 500 then a == Arrival(t, Duplicate, 0, 0)
            else if d <= 64 && |t.pending| + d <= 256 then
              && a.verdict == Gap && a.gapFrom == t.expected && a.gapTo == (if sn == 1 then 999 else sn - 1)
              && a.tracker.expected == next && a.tracker.synced && |a.tracker.pending| == |t.pending| + d
              && a.tracker.pending[..|t.pending|] == t.pending
              && forall i :: 0 <= i < d ==> a.tracker.pending[|t.pending| + i] == Onward(t.expected, i)
            else a == Arrival(Tracker(next, true, []), Resync, 0, 0)
  {
    DistanceIsAhead(t.expected, sn);
    SerialsGoRound(sn);
    hide Distance, Onward, Ahead;
    var i := IndexOf(t.pending, sn);
    if 1 <= sn <= 999 && sn in t.pending {
      SwapRemoveMultiset(t.pending, i);
    } else if 1 <= sn <= 999 {
      SuccessiveIs(t.expected, if t.synced && Ahead(t.expected, sn) <= 64 then Ahead(t.expected, sn) else 0);
    }
  }

  /** Every verdict but one leads to the store. */
  lemma OnlyDuplicatesAreNotStored(v: Verdict)
    ensures Stores(v) <==> v == InOrder || v == Gap || v == Resync || v == Recovered
  {
  }

  /** Starting afresh, and after the last serial received. */
  lemma StartsExactly(sn: int)
    ensures Initial(sn) == Tracker(if 1 <= sn <= 999 then sn else 1, false, [])
    ensures Resumed(sn) == if sn == 999 then Tracker(1, true, [])
                           else if 1 <= sn <= 998 then Tracker(sn + 1, true, [])
                           else Tracker(1, false, [])
  {
  }
}
