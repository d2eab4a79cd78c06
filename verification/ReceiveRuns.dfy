/** Whole runs of arrivals: which telegrams reach the store, and how often. */
module ReceiveRuns {
  import opened Bytes
  import opened Serials
  import opened SnTracking
  import opened TrackerSimulation
  import opened RelayPolicy

  /** The receiving end: its tracker and the true serials handed to the store so
      far. The true serials are not known to it; they are what we account for. */
  datatype Receiver = Receiver(tracker: Tracker, stored: seq<int>)

  function Receive(r: Receiver, t: int): (r': Receiver)
    requires SnValid(r.tracker.expected)
    ensures SnValid(r'.tracker.expected)
  {
    var a := Accept(r.tracker, Wrap(t), RELAY_MAX_GAP);
    Receiver(a.tracker, if Stores(a.verdict) then r.stored + [t] else r.stored)
  }

  function ReceiveAll(r: Receiver, ts: seq<int>): (r': Receiver)
    requires SnValid(r.tracker.expected)
    ensures SnValid(r'.tracker.expected)
    decreases |ts|
  {
    if ts == [] then r else ReceiveAll(Receive(r, ts[0]), ts[1..])
  }

  /** The books kept beside a run: the unbounded tracker, the first serial of the
      run and the serials given up by a resynchronisation. */
  datatype Books = Books(ideal: Ideal, first: int, abandoned: set<int>)

  function Record(b: Books, t: int): Books {
    var i := IdealAccept(b.ideal, t, RELAY_MAX_GAP);
    Books(i.tracker,
          if b.ideal.synced then b.first else t,
          if i.verdict == Resync
          then b.abandoned + b.ideal.pending + Between(b.ideal.expected, t)
          else b.abandoned)
  }

  function RecordAll(b: Books, ts: seq<int>): Books
    decreases |ts|
  {
    if ts == [] then b else RecordAll(Record(b, ts[0]), ts[1..])
  }

  /** Every arrival of the run comes within half a lap of the serial then expected. */
  predicate RunNear(u: Ideal, ts: seq<int>)
    decreases |ts|
  {
    ts == [] || (Near(u, ts[0]) && RunNear(IdealAccept(u, ts[0], RELAY_MAX_GAP).tracker, ts[1..]))
  }

  /** No arrival of the run is mistaken for one that is still outstanding. */
  ghost predicate RunNotMistaken(u: Ideal, ts: seq<int>)
    decreases |ts|
  {
    ts == [] || (!Mistaken(u, ts[0]) && RunNotMistaken(IdealAccept(u, ts[0], RELAY_MAX_GAP).tracker, ts[1..]))
  }

  /** Moreover no serial stays outstanding for more than half a lap. */
  predicate RunInWindow(u: Ideal, ts: seq<int>)
    decreases |ts|
  {
    ts == [] ||
    (InWindow(u, ts[0]) && RunInWindow(IdealAccept(u, ts[0], RELAY_MAX_GAP).tracker, ts[1..]))
  }

  /** The true serials first..expected-1 are the disjoint union of those stored,
      those outstanding and those abandoned; each stored one was stored once. */
  ghost predicate Accounted(stored: seq<int>, b: Books) {
    && NoRepeats(stored)
    && (forall p :: p in stored || p in b.ideal.pending || p in b.abandoned
                    <==> b.ideal.synced && b.first <= p < b.ideal.expected)
    && (forall p :: p in stored ==> p !in b.ideal.pending && p !in b.abandoned)
    && b.ideal.pending !! b.abandoned
  }

  ghost predicate Consistent(r: Receiver, b: Books) {
    && Represents(r.tracker, b.ideal)
    && Behind(b.ideal)
    && (b.ideal.synced ==> b.first <= b.ideal.expected)
    && Accounted(r.stored, b)
  }

  lemma AppendedOnce(stored: seq<int>, t: int)
    requires NoRepeats(stored) && t !in stored
    ensures NoRepeats(stored + [t])
    ensures forall p :: p in stored + [t] <==> p in stored || p == t
  {
  }

  /** One more telegram stored; those between old and new `expected` are either
      still outstanding or given up. */
  lemma AccountedStored(stored: seq<int>, b: Books, t: int, b': Books)
    requires Accounted(stored, b) && Behind(b.ideal) && t !in stored
    requires b'.ideal.synced && b'.ideal.pending !! b'.abandoned
    requires t !in b'.ideal.pending && t !in b'.abandoned && b'.first <= t < b'.ideal.expected
    requires b.ideal.synced ==> b'.first == b.first && b.ideal.expected <= b'.ideal.expected
    requires b.ideal.synced ==> forall p :: p in b'.ideal.pending || p in b'.abandoned || p == t <==>
               p in b.ideal.pending || p in b.abandoned || b.ideal.expected <= p < b'.ideal.expected
    requires !b.ideal.synced ==> b'.first == t && b'.ideal.expected == t + 1
    requires !b.ideal.synced ==> b'.ideal.pending == {} && b'.abandoned == {}
    requires b.ideal.synced ==> t in b.ideal.pending || b.ideal.expected <= t
    requires b.ideal.synced ==> b.first <= b.ideal.expected
    ensures Accounted(stored + [t], b')
  {
    AppendedOnce(stored, t);
  }

  lemma AccountedAfter(stored: seq<int>, b: Books, t: int)
    requires Accounted(stored, b) && Behind(b.ideal)
    requires b.ideal.synced ==> b.first <= b.ideal.expected
    requires IdealAccept(b.ideal, t, RELAY_MAX_GAP).verdict != Duplicate
    ensures t !in stored
    ensures Accounted(stored + [t], Record(b, t))
  {
    assert !b.ideal.synced ==> b.abandoned == {} by {
      if !b.ideal.synced {
        forall p | p in b.abandoned
          ensures false
        {
        }
      }
    }
    AccountedStored(stored, b, t, Record(b, t));
  }

  lemma AccountedStep(stored: seq<int>, b: Books, t: int)
    requires Accounted(stored, b) && Behind(b.ideal)
    requires b.ideal.synced ==> b.first <= b.ideal.expected
    ensures var verdict := IdealAccept(b.ideal, t, RELAY_MAX_GAP).verdict;
            Accounted(if Stores(verdict) then stored + [t] else stored, Record(b, t))
    ensures Record(b, t).ideal.synced ==> Record(b, t).first <= Record(b, t).ideal.expected
  {
    hide Accounted;
    if IdealAccept(b.ideal, t, RELAY_MAX_GAP).verdict == Duplicate {
      assert Record(b, t) == b;
    } else {
      AccountedAfter(stored, b, t);
    }
  }

  /** Exactly when an arrival within half a lap keeps the books: if and only if it is
      not mistaken for an outstanding one. */
  lemma ConsistentStepIff(r: Receiver, b: Books, t: int)
    requires Consistent(r, b) && Near(b.ideal, t)
    ensures SnValid(r.tracker.expected)
    ensures Consistent(Receive(r, t), Record(b, t)) <==> !Mistaken(b.ideal, t)
  {
    hide Wrap, Accounted, Accept, IdealAccept, Represents, Mistaken;
    RepresentsValid(r.tracker, b.ideal);
    StepIsRightIff(r.tracker, b.ideal, t, RELAY_MAX_GAP);
    BehindPreserved(b.ideal, t, RELAY_MAX_GAP);
    AccountedStep(r.stored, b, t);
  }

  /** And exactly when it is stored a second time: if and only if it is mistaken and
      was stored before. */
  lemma StoredTwiceIff(r: Receiver, b: Books, t: int)
    requires Consistent(r, b) && Near(b.ideal, t)
    ensures SnValid(r.tracker.expected)
    ensures !NoRepeats(Receive(r, t).stored) <==> Mistaken(b.ideal, t) && t in r.stored
  {
    hide Wrap, Accept, IdealAccept, Represents, Mistaken;
    RepresentsValid(r.tracker, b.ideal);
    ConsistentStepIff(r, b, t);
    if Mistaken(b.ideal, t) {
      MistakenIsTaken(r.tracker, b.ideal, t, RELAY_MAX_GAP);
      if t in r.stored {
        var i :| 0 <= i < |r.stored| && r.stored[i] == t;
        assert Receive(r, t).stored[i] == Receive(r, t).stored[|r.stored|];
      } else {
        AppendedOnce(r.stored, t);
      }
    }
  }

  lemma RepresentsValid(w: Tracker, u: Ideal)
    requires Represents(w, u)
    ensures SnValid(w.expected)
  {
  }

  /** Exactly once: over every run of arrivals, however they are lost, repeated or
      reordered within half a lap, every serial from the first one on is stored
      once, outstanding, or abandoned by a resynchronisation, as long as no arrival
      is mistaken. */
  lemma {:induction false} ExactlyOnce(r: Receiver, b: Books, ts: seq<int>)
    requires Consistent(r, b) && RunNear(b.ideal, ts) && RunNotMistaken(b.ideal, ts)
    ensures SnValid(r.tracker.expected)
    ensures Consistent(ReceiveAll(r, ts), RecordAll(b, ts))
    decreases |ts|
  {
    hide Consistent, Receive, Mistaken, Near;
    if ts != [] {
      ConsistentStepIff(r, b, ts[0]);
      ExactlyOnce(Receive(r, ts[0]), Record(b, ts[0]), ts[1..]);
    } else {
      ConsistentValid(r, b);
    }
  }

  lemma ConsistentValid(r: Receiver, b: Books)
    requires Consistent(r, b)
    ensures SnValid(r.tracker.expected)
  {
    RepresentsValid(r.tracker, b.ideal);
  }

  /** The books are right after every arrival of the run. */
  ghost predicate ConsistentThroughout(r: Receiver, b: Books, ts: seq<int>)
    requires SnValid(r.tracker.expected)
    decreases |ts|
  {
    Consistent(r, b) && (ts == [] || ConsistentThroughout(Receive(r, ts[0]), Record(b, ts[0]), ts[1..]))
  }

  /** And exactly then: the books stay right throughout a run within half a lap if and
      only if no arrival of it is mistaken. */
  lemma {:induction false} ExactlyOnceIff(r: Receiver, b: Books, ts: seq<int>)
    requires Consistent(r, b) && RunNear(b.ideal, ts)
    ensures SnValid(r.tracker.expected)
    ensures ConsistentThroughout(r, b, ts) <==> RunNotMistaken(b.ideal, ts)
    decreases |ts|
  {
    hide Consistent, Receive, Mistaken, Near;
    ConsistentValid(r, b);
    if ts != [] {
      ConsistentStepIff(r, b, ts[0]);
      var r', b' := Receive(r, ts[0]), Record(b, ts[0]);
      if Mistaken(b.ideal, ts[0]) {
        NotThroughout(r', b', ts[1..]);
      } else {
        ExactlyOnceIff(r', b', ts[1..]);
      }
    }
  }

  lemma NotThroughout(r: Receiver, b: Books, ts: seq<int>)
    requires SnValid(r.tracker.expected) && !Consistent(r, b)
    ensures !ConsistentThroughout(r, b, ts)
  {
  }

  /** Keeping everything outstanding within half a lap is enough. */
  lemma {:induction false} WindowSuffices(u: Ideal, ts: seq<int>)
    requires Behind(u) && RunInWindow(u, ts)
    ensures RunNear(u, ts) && RunNotMistaken(u, ts)
    decreases |ts|
  {
    hide Mistaken, Behind;
    if ts != [] {
      WindowNotMistaken(u, ts[0]);
      BehindPreserved(u, ts[0], RELAY_MAX_GAP);
      WindowSuffices(IdealAccept(u, ts[0], RELAY_MAX_GAP).tracker, ts[1..]);
    }
  }

  /** The run may start from an initialised tracker, or from one resumed after the
      telegram before `next`. */
  lemma StartConsistent(next: int)
    ensures Consistent(Receiver(Initial(Wrap(next)), []), Books(Ideal(next, false, {}), next, {}))
    ensures Consistent(Receiver(Resumed(Wrap(next - 1)), []), Books(Ideal(next, true, {}), next, {}))
  {
    WrapNext(next - 1);
    assert RepresentsAs(Initial(Wrap(next)), Ideal(next, false, {}), []);
    assert RepresentsAs(Resumed(Wrap(next - 1)), Ideal(next, true, {}), []);
  }

  // ---------------------------------------------------------------------
  // When an arrival is mistaken the claim is false
  // ---------------------------------------------------------------------

  lemma {:induction false} ReceiveAllSplit(r: Receiver, a: seq<int>, b: seq<int>)
    requires SnValid(r.tracker.expected)
    ensures ReceiveAll(r, a + b) == ReceiveAll(ReceiveAll(r, a), b)
    decreases |a|
  {
    if a == [] {
      assert a + b == b;
    } else {
      assert (a + b)[1..] == a[1..] + b;
      ReceiveAllSplit(Receive(r, a[0]), a[1..], b);
    }
  }

  lemma InOrderStep(stored: seq<int>, t: int)
    requires 3 <= t < 1001
    ensures Receive(Receiver(Tracker(Wrap(t), true, [2]), stored), t)
         == Receiver(Tracker(Wrap(t + 1), true, [2]), stored + [t])
  {
    WrapNext(t);
    assert Wrap(t) != 2;
  }

  lemma ReceiveFirst(r: Receiver, t: int, ts: seq<int>)
    requires SnValid(r.tracker.expected)
    ensures ReceiveAll(r, [t] + ts) == ReceiveAll(Receive(r, t), ts)
  {
    assert ([t] + ts)[1..] == ts;
  }

  lemma AscendingFirst(t: int, n: nat)
    requires 0 < n
    ensures Ascending(t, n) == [t] + Ascending(t + 1, n - 1)
  {
  }

  lemma {:induction false} InOrderStretch(stored: seq<int>, t: int, n: nat)
    requires 3 <= t && t + n <= 1001
    ensures ReceiveAll(Receiver(Tracker(Wrap(t), true, [2]), stored), Ascending(t, n))
         == Receiver(Tracker(Wrap(t + n), true, [2]), stored + Ascending(t, n))
    decreases n
  {
    if n > 0 {
      AscendingFirst(t, n);
      hide Receive, Wrap, Ascending, ReceiveAll;
      InOrderStep(stored, t);
      ReceiveFirst(Receiver(Tracker(Wrap(t), true, [2]), stored), t, Ascending(t + 1, n - 1));
      InOrderStretch(stored + [t], t + 1, n - 1);
      Regroup(stored, [t], Ascending(t + 1, n - 1));
    } else {
      hide Receive, Wrap;
      assert stored + Ascending(t, 0) == stored;
    }
  }

  /** One lap after serial 2 was lost, with the tracker expecting serial 2 again. */
  lemma LapAlias(stored: seq<int>)
    ensures ReceiveAll(Receiver(Tracker(2, true, [2]), stored), [1001, 1002, 1001]).stored
         == stored + [1001, 1002, 1001]
  {
    var r := Receiver(Tracker(2, true, [2]), stored);
    var r1 := Receiver(Tracker(2, true, []), stored + [1001]);
    var r2 := Receiver(Tracker(4, true, [2]), stored + [1001] + [1002]);
    var r3 := Receiver(Tracker(4, true, []), stored + [1001] + [1002] + [1001]);
    assert Receive(r, 1001) == r1;
    assert Receive(r1, 1002) == r2 by {
      assert Successive(2, 1) == [2];
    }
    assert Receive(r2, 1001) == r3;
    ReceiveFirst(r, 1001, [1002, 1001]);
    ReceiveFirst(r1, 1002, [1001]);
    ReceiveFirst(r2, 1001, []);
    assert r3.stored == stored + [1001, 1002, 1001];
    assert [1001] + [1002, 1001] == [1001, 1002, 1001];
    assert [1001] + [] == [1001];
    assert [1002] + [1001] == [1002, 1001];
  }

  lemma LapGap(stored: seq<int>)
    ensures Receive(Receiver(Tracker(2, true, []), stored), 3) == Receiver(Tracker(4, true, [2]), stored + [3])
  {
    assert [] + Successive(2, 1) == [2];
  }

  lemma LapStart()
    ensures Receive(Receive(Receiver(Initial(SN_MIN), []), 1), 3) == Receiver(Tracker(4, true, [2]), [1, 3])
  {
    assert [] + [1] == [1];
    assert Receive(Receiver(Initial(SN_MIN), []), 1) == Receiver(Tracker(2, true, []), [1]);
    LapGap([1]);
    assert [1] + [3] == [1, 3];
  }

  lemma LapPrefix()
    ensures ReceiveAll(Receiver(Initial(SN_MIN), []), [1, 3] + Ascending(4, 997))
         == Receiver(Tracker(2, true, [2]), [1, 3] + Ascending(4, 997))
  {
    hide Receive, ReceiveAll;
    var r := Receiver(Initial(SN_MIN), []);
    var a := Ascending(4, 997);
    ReceiveFirst(r, 1, [3] + a);
    ReceiveFirst(Receive(r, 1), 3, a);
    LapStart();
    InOrderStretch([1, 3], 4, 997);
    assert [1] + ([3] + a) == [1, 3] + a;
  }

  /** Telegram 2 is lost and never replayed. One lap later telegram 1001 carries
      its serial: it is taken for the missing one, `expected` stays behind, the
      next telegram opens a false gap, and the replay of 1001 is stored again. */
  lemma LapStoresTwice()
    ensures ReceiveAll(Receiver(Initial(SN_MIN), []), [1, 3] + Ascending(4, 997) + [1001, 1002, 1001]).stored
         == [1, 3] + Ascending(4, 997) + [1001, 1002, 1001]
    ensures !NoRepeats([1, 3] + Ascending(4, 997) + [1001, 1002, 1001])
  {
    var s := [1, 3] + Ascending(4, 997) + [1001, 1002, 1001];
    assert s[999] == s[1001] == 1001;
    ReceiveAllSplit(Receiver(Initial(SN_MIN), []), [1, 3] + Ascending(4, 997), [1001, 1002, 1001]);
    LapPrefix();
    LapAlias([1, 3] + Ascending(4, 997));
  }
}
