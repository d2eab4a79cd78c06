/** The receive-sequence tracker: its meaning on values, and the class that
    updates the outstanding set in place. */
module SnTracking {
  import opened Serials

  const SN_MAX_PENDING := 256

  datatype Tracker = Tracker(expected: int, synced: bool, pending: seq<int>)

  datatype Verdict = InOrder | Duplicate | Gap | Resync | Recovered

  datatype Arrival = Arrival(tracker: Tracker, verdict: Verdict, gapFrom: int, gapTo: int)

  // ---------------------------------------------------------------------
  // Meaning
  // ---------------------------------------------------------------------

  function Initial(firstExpected: int): (t: Tracker) {
    Tracker(if SnValid(firstExpected) then firstExpected else SN_MIN, false, [])
  }

  function Resumed(lastReceived: int): (t: Tracker) {
    if !SnValid(lastReceived) then Initial(SN_MIN)
    else Initial(Next(lastReceived)).(synced := true)
  }

  /** The first position of sn, or |s| when sn does not occur. */
  function IndexOf(s: seq<int>, sn: int): (i: nat)
    ensures i <= |s|
    ensures i < |s| ==> s[i] == sn
    ensures forall j :: 0 <= j < i ==> s[j] != sn
  {
    if s == [] then 0 else if s[0] == sn then 0 else 1 + IndexOf(s[1..], sn)
  }

  /** Removal that moves the last element into the hole. */
  function SwapRemove(s: seq<int>, i: nat): (r: seq<int>)
    requires i < |s|
    ensures |r| == |s| - 1
  {
    s[i := s[|s| - 1]][..|s| - 1]
  }

  /** The n serials that start at from. */
  function Successive(from: int, n: nat): (r: seq<int>)
    requires SnValid(from)
    ensures |r| == n
    ensures forall i :: 0 <= i < n ==> r[i] == Steps(from, i)
  {
    seq(n, i requires 0 <= i < n => Steps(from, i))
  }

  /** What the tracker makes of an arriving serial. */
  function Accept(t: Tracker, sn: int, maxGap: int): (a: Arrival)
    requires SnValid(t.expected)
    ensures SnValid(a.tracker.expected)
  {
    if !SnValid(sn) then
      Arrival(t, Resync, 0, 0)
    else
      var i := IndexOf(t.pending, sn);
      if i < |t.pending| then
        Arrival(t.(pending := SwapRemove(t.pending, i)), Recovered, 0, 0)
      else
        var next := t.(expected := Next(sn), synced := true);
        var dist := Distance(t.expected, sn);
        if !t.synced || dist == 0 then
          Arrival(next, InOrder, 0, 0)
        else if dist > SN_RANGE / 2 then
          Arrival(t, Duplicate, 0, 0)
        else if dist <= maxGap && |t.pending| + dist <= SN_MAX_PENDING then
          Arrival(next.(pending := t.pending + Successive(t.expected, dist)),
                  Gap, t.expected, Prev(sn))
        else
          Arrival(next.(pending := []), Resync, 0, 0)
  }

  // ---------------------------------------------------------------------
  // The tracker itself
  // ---------------------------------------------------------------------

  class SnTracker {
    var expected: int
    var synced: bool
    const pending: array<int>
    var pendingCount: nat

    ghost predicate Valid()
      reads this
    {
      pending.Length == SN_MAX_PENDING && pendingCount <= SN_MAX_PENDING && SnValid(expected)
    }

    /** The value the object stands for. */
    ghost function Model(): Tracker
      requires Valid()
      reads this, pending
    {
      Tracker(expected, synced, pending[..pendingCount])
    }

    constructor (firstExpected: int)
      ensures Valid() && fresh(pending)
      ensures Model() == Initial(firstExpected)
    {
      pending := new int[SN_MAX_PENDING];
      expected := if SnValid(firstExpected) then firstExpected else SN_MIN;
      synced := false;
      pendingCount := 0;
    }

    method Init(firstExpected: int)
      requires Valid()
      modifies this
      ensures Valid()
      ensures Model() == Initial(firstExpected)
    {
      expected := if SnValid(firstExpected) then firstExpected else SN_MIN;
      synced := false;
      pendingCount := 0;
    }

    method Resume(lastReceived: int)
      requires Valid()
      modifies this
      ensures Valid()
      ensures Model() == Resumed(lastReceived)
    {
      if !SnValid(lastReceived) {
        Init(SN_MIN);
        return;
      }
      Init(Next(lastReceived));
      synced := true;
    }

    /** Removes sn from the outstanding set; taken reports whether it was there. */
    method PendingTake(sn: int) returns (taken: bool)
      requires Valid()
      modifies this, pending
      ensures Valid()
      ensures var p := old(pending[..pendingCount]); var i := IndexOf(p, sn);
              taken == (i < |p|) &&
              Model() == old(Model()).(pending := if taken then SwapRemove(p, i) else p)
    {
      ghost var p := pending[..pendingCount];
      var i := 0;
      while i < pendingCount
        invariant 0 <= i <= pendingCount
        invariant i <= IndexOf(p, sn)
      {
        if pending[i] == sn {
          assert p[i] == sn && IndexOf(p, sn) == i;
          pendingCount := pendingCount - 1;
          pending[i] := pending[pendingCount];
          assert pending[..pendingCount] == SwapRemove(p, i);
          return true;
        }
        assert p[i] != sn;
        i := i + 1;
      }
      return false;
    }

    /** Appends the serials from..to; fits is false when the set fills up first, with as
        many of them as there was room for. */
    method PendingAddRange(from: int, to: int) returns (fits: bool)
      requires Valid() && SnValid(from) && SnValid(to)
      modifies this`pendingCount, pending
      ensures Valid()
      ensures fits == (old(pendingCount) + Distance(from, to) + 1 <= SN_MAX_PENDING)
      ensures var n := if fits then Distance(from, to) + 1 else SN_MAX_PENDING - old(pendingCount);
              pending[..pendingCount] == old(pending[..pendingCount]) + Successive(from, n)
    {
      if pendingCount >= SN_MAX_PENDING {
        assert Successive(from, 0) == [];
        return false;
      }
      DistanceIsLeastSteps(from, to);
      ghost var base := pendingCount;
      var sn := from;
      while true
        invariant Valid() && base <= pendingCount
        invariant sn == Steps(from, pendingCount - base)
        invariant pendingCount - base <= Distance(from, to)
        invariant pending[..base] == old(pending[..pendingCount])
        invariant forall i :: 0 <= i < pendingCount - base ==> pending[base + i] == Steps(from, i)
        decreases SN_MAX_PENDING - pendingCount
      {
        if pendingCount >= SN_MAX_PENDING {
          assert pending[..pendingCount] == pending[..base] + pending[base..pendingCount];
          assert pending[base..pendingCount] == Successive(from, pendingCount - base);
          return false;
        }
        pending[pendingCount] := sn;
        pendingCount := pendingCount + 1;
        if sn == to {
          assert pending[..pendingCount] == pending[..base] + pending[base..pendingCount];
          assert pending[base..pendingCount] == Successive(from, Distance(from, to) + 1);
          return true;
        }
        sn := Next(sn);
      }
    }

    /** Accounts for an arriving serial. */
    method AcceptSerial(sn: int, maxGap: int) returns (verdict: Verdict, gapFrom: int, gapTo: int)
      requires Valid()
      modifies this, pending
      ensures Valid()
      ensures Arrival(Model(), verdict, gapFrom, gapTo) == Accept(old(Model()), sn, maxGap)
    {
      gapFrom, gapTo := 0, 0;
      if !SnValid(sn) {
        return Resync, gapFrom, gapTo;
      }

      var taken := PendingTake(sn);
      if taken {
        return Recovered, gapFrom, gapTo;
      }

      if !synced {
        synced := true;
        expected := Next(sn);
        return InOrder, gapFrom, gapTo;
      }

      var dist := Distance(expected, sn);
      if dist == 0 {
        expected := Next(sn);
        return InOrder, gapFrom, gapTo;
      }
      if dist > SN_RANGE / 2 {
        return Duplicate, gapFrom, gapTo;
      }
      if dist <= maxGap {
        DistanceToPrev(expected, sn);
        var fits := PendingAddRange(expected, Prev(sn));
        if fits {
          gapFrom, gapTo := expected, Prev(sn);
          expected := Next(sn);
          return Gap, gapFrom, gapTo;
        }
      }
      pendingCount := 0;
      expected := Next(sn);
      return Resync, gapFrom, gapTo;
    }
  }
}
