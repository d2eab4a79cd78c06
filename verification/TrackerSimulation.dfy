/** The tracker over 1..999 against a reference tracker over unbounded serials. */
module TrackerSimulation {
  import opened Serials
  import opened SnTracking

  /** A tracker that never wraps: telegrams are numbered by all integers. */
  datatype Ideal = Ideal(expected: int, synced: bool, pending: set<int>)

  datatype IdealArrival = IdealArrival(tracker: Ideal, verdict: Verdict, missing: set<int>)

  /** The true serials lo..hi-1. */
  function Between(lo: int, hi: int): (r: set<int>)
    ensures forall p :: p in r <==> lo <= p < hi
    ensures |r| == if lo <= hi then hi - lo else 0
    decreases hi - lo
  {
    if hi <= lo then {} else Between(lo, hi - 1) + {hi - 1}
  }

  function IdealAccept(u: Ideal, t: int, maxGap: int): IdealArrival {
    if t in u.pending then
      IdealArrival(u.(pending := u.pending - {t}), Recovered, {})
    else if !u.synced || t == u.expected then
      IdealArrival(u.(expected := t + 1, synced := true), InOrder, {})
    else if t < u.expected then
      IdealArrival(u, Duplicate, {})
    else
      var missing := Between(u.expected, t);
      if t - u.expected <= maxGap && |u.pending| + (t - u.expected) <= SN_MAX_PENDING then
        IdealArrival(Ideal(t + 1, true, u.pending + missing), Gap, missing)
      else
        IdealArrival(Ideal(t + 1, true, {}), Resync, {})
  }

  // ---------------------------------------------------------------------
  // The relation between the two
  // ---------------------------------------------------------------------

  ghost predicate NoRepeats(s: seq<int>) {
    forall i, j :: 0 <= i < j < |s| ==> s[i] != s[j]
  }

  /** w is u modulo wrap-around; order lists u.pending in the order w keeps it. */
  ghost predicate RepresentsAs(w: Tracker, u: Ideal, order: seq<int>) {
    && w.expected == Wrap(u.expected)
    && w.synced == u.synced
    && |order| == |w.pending| == |u.pending|
    && NoRepeats(order)
    && (forall i :: 0 <= i < |order| ==> order[i] in u.pending && w.pending[i] == Wrap(order[i]))
    && (forall p :: p in u.pending ==> p in order)
  }

  ghost predicate Represents(w: Tracker, u: Ideal) {
    exists order :: RepresentsAs(w, u, order)
  }

  /** What every ideal tracker reached from an empty one satisfies. */
  ghost predicate Behind(u: Ideal) {
    && (forall p :: p in u.pending ==> p < u.expected)
    && (!u.synced ==> u.pending == {})
  }

  const HALF := SN_RANGE / 2

  /** The true serial t is within half a lap of the expected one. */
  predicate Near(u: Ideal, t: int) {
    u.synced ==> u.expected - HALF <= t <= u.expected + HALF
  }

  /** The arrival looks on the wire like an outstanding serial, but is none: a serial
      that stayed outstanding for a lap is mistaken for it. */
  ghost predicate Mistaken(u: Ideal, t: int) {
    t !in u.pending && exists p :: p in u.pending && Wrap(p) == Wrap(t)
  }

  /** The window in which no serial can be mistaken: t is near, and no outstanding
      serial is more than half a lap behind. */
  predicate InWindow(u: Ideal, t: int) {
    Near(u, t) && (u.synced ==> forall p :: p in u.pending ==> u.expected - HALF <= p)
  }

  // ---------------------------------------------------------------------
  // Simulation
  // ---------------------------------------------------------------------

  lemma WindowNotMistaken(u: Ideal, t: int)
    requires Behind(u) && InWindow(u, t)
    ensures !Mistaken(u, t)
  {
    forall p | p in u.pending && Wrap(p) == Wrap(t)
      ensures p == t
    {
      WrapEqual(p, t);
    }
  }

  /** Two outstanding serials that look alike may change places. */
  lemma Relabelled(w: Tracker, u: Ideal, order: seq<int>, i: nat, j: nat)
    requires RepresentsAs(w, u, order) && i < |order| && j < |order| && Wrap(order[i]) == Wrap(order[j])
    ensures RepresentsAs(w, u, order[i := order[j]][j := order[i]])
  {
    hide Wrap;
    var o := order[i := order[j]][j := order[i]];
    forall p | p in u.pending
      ensures p in o
    {
      var k :| 0 <= k < |order| && order[k] == p;
      assert o[if k == i then j else if k == j then i else k] == p;
    }
  }

  /** Where an outstanding serial is searched for, it may be taken to be what is found. */
  lemma FindsOutstanding(w: Tracker, u: Ideal, order: seq<int>, t: int) returns (o: seq<int>)
    requires RepresentsAs(w, u, order) && t in u.pending
    ensures RepresentsAs(w, u, o) && IndexOf(w.pending, Wrap(t)) < |o| && o[IndexOf(w.pending, Wrap(t))] == t
  {
    hide Wrap;
    var i := IndexOf(w.pending, Wrap(t));
    var j :| 0 <= j < |order| && order[j] == t;
    assert w.pending[j] == Wrap(t);
    Relabelled(w, u, order, i, j);
    o := order[i := order[j]][j := order[i]];
  }

  /** What is neither outstanding nor mistaken is not found. */
  lemma FindsNothing(w: Tracker, u: Ideal, order: seq<int>, t: int)
    requires RepresentsAs(w, u, order) && t !in u.pending && !Mistaken(u, t)
    ensures IndexOf(w.pending, Wrap(t)) == |w.pending|
  {
    hide Wrap;
    forall i | 0 <= i < |order|
      ensures w.pending[i] != Wrap(t)
    {
      assert order[i] in u.pending;
    }
  }

  lemma TakenOrder(w: Tracker, u: Ideal, order: seq<int>, i: nat)
    requires RepresentsAs(w, u, order) && i < |order|
    ensures RepresentsAs(w.(pending := SwapRemove(w.pending, i)),
                         u.(pending := u.pending - {order[i]}), SwapRemove(order, i))
  {
    var o := SwapRemove(order, i);
    var rest := u.pending - {order[i]};
    forall p | p in rest
      ensures p in o
    {
      var k :| 0 <= k < |order| && order[k] == p;
      assert if k == |order| - 1 then o[i] == p else o[k] == p;
    }
  }

  /** The true serials from..from+n-1 in ascending order. */
  function Ascending(from: int, n: nat): seq<int> {
    seq(n, i requires 0 <= i => from + i)
  }

  lemma AppendedAscending(order: seq<int>, from: int, n: nat)
    requires NoRepeats(order) && forall i :: 0 <= i < |order| ==> order[i] < from
    ensures NoRepeats(order + Ascending(from, n))
    ensures forall p :: p in order || p in Between(from, from + n) ==> p in order + Ascending(from, n)
  {
    forall p | p in Between(from, from + n)
      ensures p in order + Ascending(from, n)
    {
      assert (order + Ascending(from, n))[|order| + (p - from)] == p;
    }
  }

  lemma SuccessiveWrapped(from: int, n: nat)
    ensures forall i :: 0 <= i < n ==> Successive(Wrap(from), n)[i] == Wrap(Ascending(from, n)[i])
  {
    forall i | 0 <= i < n
      ensures Successive(Wrap(from), n)[i] == Wrap(Ascending(from, n)[i])
    {
      WrapSteps(from, i);
    }
  }

  lemma GrownSize(u: Ideal, t: int)
    requires Behind(u) && u.expected <= t
    ensures |u.pending + Between(u.expected, t)| == |u.pending| + (t - u.expected)
  {
    assert u.pending !! Between(u.expected, t);
  }

  lemma GrownOrder(w: Tracker, u: Ideal, order: seq<int>, t: int)
    requires RepresentsAs(w, u, order) && Behind(u) && u.expected <= t
    ensures RepresentsAs(Tracker(Wrap(t + 1), true, w.pending + Successive(w.expected, t - u.expected)),
                         Ideal(t + 1, true, u.pending + Between(u.expected, t)),
                         order + Ascending(u.expected, t - u.expected))
  {
    hide Wrap, Steps, Between, Ascending, Successive;
    var n := t - u.expected;
    AppendedAscending(order, u.expected, n);
    GrownSize(u, t);
    GrownElements(w, u, order, t);
    AscendingSize(u.expected, n);
  }

  lemma AscendingSize(from: int, n: nat)
    ensures |Ascending(from, n)| == n
  {
  }

  lemma GrownElements(w: Tracker, u: Ideal, order: seq<int>, t: int)
    requires RepresentsAs(w, u, order) && u.expected <= t
    ensures var w' := w.pending + Successive(w.expected, t - u.expected);
            var o' := order + Ascending(u.expected, t - u.expected);
            && |w'| == |o'|
            && forall i :: 0 <= i < |o'| ==> o'[i] in u.pending + Between(u.expected, t) && w'[i] == Wrap(o'[i])
  {
    hide Wrap, Steps, Between;
    SuccessiveWrapped(u.expected, t - u.expected);
  }

  lemma WindowDistance(e: int, t: int)
    requires e - HALF <= t <= e + HALF
    ensures Distance(Wrap(e), Wrap(t)) == if e <= t then t - e else t - e + SN_RANGE
  {
    WrapDistance(e, t);
  }

  /** The arrival was not asked for: only the position relative to expected counts. */
  lemma SimulatesUnasked(w: Tracker, u: Ideal, order: seq<int>, t: int, maxGap: int)
    requires RepresentsAs(w, u, order) && Behind(u) && Near(u, t)
    requires t !in u.pending && IndexOf(w.pending, Wrap(t)) == |w.pending|
    ensures var a := Accept(w, Wrap(t), maxGap);
            var i := IdealAccept(u, t, maxGap);
            && a.verdict == i.verdict
            && Represents(a.tracker, i.tracker)
            && (a.verdict == Gap ==> a.gapFrom == Wrap(u.expected) && a.gapTo == Wrap(t - 1))
  {
    var a := Accept(w, Wrap(t), maxGap);
    var i := IdealAccept(u, t, maxGap);
    WrapNext(t);
    if u.synced {
      WindowDistance(u.expected, t);
    }
    assert a.verdict == i.verdict;
    if a.verdict == Gap {
      GrownOrder(w, u, order, t);
    } else if a.verdict == Resync {
      assert RepresentsAs(a.tracker, i.tracker, []);
    } else {
      assert RepresentsAs(a.tracker, i.tracker, order);
    }
  }

  /** Step for step the wrapped tracker does what the unbounded one does: the same
      classification, the same missing range and the same outstanding set, as
      long as arrivals are near and not mistaken. */
  lemma Simulates(w: Tracker, u: Ideal, t: int, maxGap: int)
    requires Represents(w, u) && Behind(u) && Near(u, t) && !Mistaken(u, t)
    ensures var a := Accept(w, Wrap(t), maxGap);
            var i := IdealAccept(u, t, maxGap);
            && a.verdict == i.verdict
            && Represents(a.tracker, i.tracker)
            && (a.verdict == Gap ==> a.gapFrom == Wrap(u.expected) && a.gapTo == Wrap(t - 1))
  {
    hide Wrap, Mistaken;
    var order :| RepresentsAs(w, u, order);
    if t in u.pending {
      var o := FindsOutstanding(w, u, order, t);
      TakenOrder(w, u, o, IndexOf(w.pending, Wrap(t)));
    } else {
      FindsNothing(w, u, order, t);
      SimulatesUnasked(w, u, order, t, maxGap);
    }
  }

  /** Stepping keeps every outstanding serial behind the expected one. */
  lemma BehindPreserved(u: Ideal, t: int, maxGap: int)
    requires Behind(u)
    ensures Behind(IdealAccept(u, t, maxGap).tracker)
  {
  }

  /** A mistaken arrival is taken for one that was asked for. */
  lemma MistakenIsTaken(w: Tracker, u: Ideal, t: int, maxGap: int)
    requires Represents(w, u) && Mistaken(u, t)
    ensures var a := Accept(w, Wrap(t), maxGap);
            a.verdict == Recovered && a.tracker.expected == w.expected && |a.tracker.pending| == |w.pending| - 1
    ensures IdealAccept(u, t, maxGap).verdict != Recovered
  {
    FindsAlias(w, u, t);
    hide Wrap, Represents, Mistaken;
    assert t !in u.pending by { NotOutstanding(u, t); }
  }

  lemma NotOutstanding(u: Ideal, t: int)
    requires Mistaken(u, t)
    ensures t !in u.pending
  {
  }

  lemma FindsAlias(w: Tracker, u: Ideal, t: int)
    requires Represents(w, u) && Mistaken(u, t)
    ensures IndexOf(w.pending, Wrap(t)) < |w.pending|
  {
    hide Wrap;
    var order :| RepresentsAs(w, u, order);
    var p :| p in u.pending && Wrap(p) == Wrap(t);
    var i :| 0 <= i < |order| && order[i] == p;
    assert w.pending[i] == Wrap(t);
  }

  /** After a mistaken arrival the tracker no longer stands for the unbounded one:
      it lost an outstanding serial, or stayed behind. */
  lemma MistakenIsLost(w: Tracker, u: Ideal, t: int, maxGap: int)
    requires Represents(w, u) && Behind(u) && Near(u, t) && Mistaken(u, t)
    ensures !Represents(Accept(w, Wrap(t), maxGap).tracker, IdealAccept(u, t, maxGap).tracker)
  {
    MistakenIsTaken(w, u, t, maxGap);
    NotOutstanding(u, t);
    SameShape(w, u);
    hide Wrap, Mistaken, Accept, RepresentsAs;
    var w', u' := Accept(w, Wrap(t), maxGap).tracker, IdealAccept(u, t, maxGap).tracker;
    assert w'.expected == Wrap(u.expected);
    assert u' == u || u'.expected == t + 1;
    if Represents(w', u') {
      SameShape(w', u');
      WrapEqual(u.expected, t + 1);
    }
  }

  lemma SameShape(w: Tracker, u: Ideal)
    requires Represents(w, u)
    ensures w.expected == Wrap(u.expected) && w.synced == u.synced && |w.pending| == |u.pending|
  {
  }

  /** Exactly when a step is right: an arrival within half a lap is classified as the
      unbounded tracker would, and the tracker goes on standing for it, if and only
      if the arrival is not mistaken. */
  lemma StepIsRightIff(w: Tracker, u: Ideal, t: int, maxGap: int)
    requires Represents(w, u) && Behind(u) && Near(u, t)
    ensures Represents(Accept(w, Wrap(t), maxGap).tracker, IdealAccept(u, t, maxGap).tracker) <==> !Mistaken(u, t)
    ensures Accept(w, Wrap(t), maxGap).verdict == IdealAccept(u, t, maxGap).verdict <==> !Mistaken(u, t)
  {
    hide Wrap, Accept, IdealAccept, Represents, Mistaken;
    if Mistaken(u, t) {
      MistakenIsTaken(w, u, t, maxGap);
      MistakenIsLost(w, u, t, maxGap);
    } else {
      Simulates(w, u, t, maxGap);
    }
  }

  // ---------------------------------------------------------------------
  // Repeats on the wire
  // ---------------------------------------------------------------------

  lemma SuccessiveNoRepeats(from: int, n: nat)
    requires SnValid(from) && n <= SN_RANGE
    ensures NoRepeats(Successive(from, n))
  {
    WrapIdentity(from);
    forall i, j | 0 <= i < j < n
      ensures Successive(from, n)[i] != Successive(from, n)[j]
    {
      WrapSteps(from, i);
      WrapSteps(from, j);
      WrapEqual(from + i, from + j);
    }
  }

  lemma ConcatNoRepeats(a: seq<int>, b: seq<int>)
    ensures NoRepeats(a + b) <==> NoRepeats(a) && NoRepeats(b) && forall x :: x in a ==> x !in b
  {
    var c := a + b;
    assert forall i :: 0 <= i < |a| ==> c[i] == a[i];
    assert forall i :: 0 <= i < |b| ==> b[i] == c[|a| + i];
    if NoRepeats(c) {
      forall x | x in a
        ensures x !in b
      {
        var i :| 0 <= i < |a| && a[i] == x;
        assert c[i] == x;
      }
      forall i, j | 0 <= i < j < |b|
        ensures b[i] != b[j]
      {
        assert c[|a| + i] != c[|a| + j];
      }
    }
    if NoRepeats(a) && NoRepeats(b) && forall x :: x in a ==> x !in b {
      forall i, j | 0 <= i < j < |c|
        ensures c[i] != c[j]
      {
        if i < |a| <= j {
          assert c[i] in a && c[j] == b[j - |a|];
        }
      }
    }
  }

  /** The outstanding serials stay distinct on the wire, unless a new gap includes the
      serial of one that is still outstanding from an earlier lap. */
  lemma DistinctKeptIff(w: Tracker, sn: int, maxGap: int)
    requires SnValid(w.expected) && NoRepeats(w.pending)
    ensures var a := Accept(w, sn, maxGap);
            NoRepeats(a.tracker.pending)
            <==> (a.verdict == Gap ==>
                    forall x :: x in w.pending ==> x !in Successive(w.expected, Distance(w.expected, sn)))
  {
    var a := Accept(w, sn, maxGap);
    if a.verdict == Gap {
      var n := Distance(w.expected, sn);
      SuccessiveNoRepeats(w.expected, n);
      ConcatNoRepeats(w.pending, Successive(w.expected, n));
    }
  }

  // ---------------------------------------------------------------------
  // Removal
  // ---------------------------------------------------------------------

  lemma Cancel<T>(a: multiset<T>, m: multiset<T>, x: T, y: T)
    requires y in m && a + multiset{x} == m - multiset{y} + multiset{x}
    ensures a == m - multiset{y}
  {
    forall k
      ensures a[k] == (m - multiset{y})[k]
    {
      assert (a + multiset{x})[k] == (m - multiset{y} + multiset{x})[k];
    }
  }

  lemma SwapRemoveMultiset(s: seq<int>, i: nat)
    requires i < |s|
    ensures multiset(SwapRemove(s, i)) == multiset(s) - multiset{s[i]}
  {
    hide SwapRemove;
    SwapParts(s, i);
    Cancel(multiset(SwapRemove(s, i)), multiset(s), s[|s| - 1], s[i]);
  }

  lemma SwapParts(s: seq<int>, i: nat)
    requires i < |s|
    ensures s[i] in multiset(s)
    ensures multiset(SwapRemove(s, i)) + multiset{s[|s| - 1]} == multiset(s) - multiset{s[i]} + multiset{s[|s| - 1]}
  {
    LastApart(s[i := s[|s| - 1]]);
    Updated(s, i, s[|s| - 1]);
  }

  lemma Updated(s: seq<int>, i: nat, x: int)
    requires i < |s|
    ensures multiset(s[i := x]) == multiset(s) - multiset{s[i]} + multiset{x} && s[i] in multiset(s)
  {
  }

  lemma LastApart(u: seq<int>)
    requires u != []
    ensures multiset(u) == multiset(u[..|u| - 1]) + multiset{u[|u| - 1]}
  {
    assert u == u[..|u| - 1] + [u[|u| - 1]];
  }
}
