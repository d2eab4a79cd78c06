/** The queue as a plain list of messages, which the ring refines. */
module MqList {
  import opened Bytes
  import opened MqModel
  import opened MqInvariant
  import opened MqOrder

  // ---------------------------------------------------------------------
  // The list machine
  // ---------------------------------------------------------------------

  function FirstEligible(ms: seq<Entry>, now: int): (p: nat)
    ensures p <= |ms|
    ensures p < |ms| ==> Eligible(ms[p], now)
    ensures forall j :: 0 <= j < p ==> !Eligible(ms[j], now)
  {
    if ms == [] || Eligible(ms[0], now) then 0 else 1 + FirstEligible(ms[1..], now)
  }

  function Without(ms: seq<Entry>, p: nat): seq<Entry>
    requires p < |ms|
  {
    ms[..p] + ms[p + 1..]
  }

  datatype ListServed = ListServed(messages: seq<Entry>, outcome: Outcome, handed: Option<Record>)

  /** One service call on a list: the first eligible message is acted upon, and no other. */
  function ListService(ms: seq<Entry>, ready: bool, code: int, now: int): ListServed {
    var p := FirstEligible(ms, now);
    if !ready || p == |ms| then ListServed(ms, Idle, None)
    else
      var a := Try(ms[p], code, now);
      ListServed(if a.outcome == Dropped then Without(ms, p) else ms[p := a.entry], a.outcome, a.handed)
  }

  // ---------------------------------------------------------------------
  // One slot of the ring, one place in the list
  // ---------------------------------------------------------------------

  /** The messages before and after the slot k steps from head. */
  function Before(q: Queue, k: nat): seq<Entry>
    requires Shaped(q) && k < |q.ring|
  {
    Stored(Rotated(q.ring, q.head)[..k])
  }

  function After(q: Queue, k: nat): seq<Entry>
    requires Shaped(q) && k < |q.ring|
  {
    Stored(Rotated(q.ring, q.head)[k + 1..])
  }

  lemma Located(q: Queue, k: nat)
    requires Shaped(q) && k < |q.ring|
    ensures var e := q.ring[At(q.head, k, |q.ring|)];
            Messages(q) == Before(q, k) + (if Occupied(e) then [e] else []) + After(q, k)
  {
    hide Stored;
    StoredSplit(Rotated(q.ring, q.head), k);
    RotatedUpdate(q.ring, q.head, k, EMPTY_SLOT);
  }

  lemma Overwritten(q: Queue, k: nat, e: Entry)
    requires Shaped(q) && k < |q.ring|
    ensures Stored(Rotated(q.ring[At(q.head, k, |q.ring|) := e], q.head))
         == Before(q, k) + (if Occupied(e) then [e] else []) + After(q, k)
  {
    hide Stored, Rotated;
    var r := Rotated(q.ring, q.head);
    RotatedUpdate(q.ring, q.head, k, e);
    StoredSplit(r[k := e], k);
    assert r[k := e][..k] == r[..k];
    assert r[k := e][k + 1..] == r[k + 1..];
  }

  /** A released slot takes its message out of the list and changes nothing else. */
  lemma ReleasedMessages(q: Queue, k: nat, e: Entry, count: nat)
    requires Shaped(q) && k < |q.ring| && Occupied(q.ring[At(q.head, k, |q.ring|)])
    requires var ring := q.ring[At(q.head, k, |q.ring|) := Released(e)];
             count + CountState(ring, Free) == |ring|
    ensures var ring := q.ring[At(q.head, k, |q.ring|) := Released(e)];
            |Before(q, k)| < |Messages(q)| &&
            Stored(Rotated(ring, Settled(ring, q.head, q.tail, count))) == Without(Messages(q), |Before(q, k)|)
  {
    hide Stored, Rotated, Settled, CountState, Before, After, Messages;
    var ring := q.ring[At(q.head, k, |q.ring|) := Released(e)];
    Located(q, k);
    Overwritten(q, k, Released(e));
    SettledOrder(ring, q.head, q.tail, count);
    var b, m, c := Before(q, k), [q.ring[At(q.head, k, |q.ring|)]], After(q, k);
    assert (b + m + c)[..|b|] == b;
    assert (b + m + c)[|b| + 1..] == c;
    assert b + [] + c == b + c;
  }

  // ---------------------------------------------------------------------
  // Refinement
  // ---------------------------------------------------------------------

  lemma RotatedElements(ring: seq<Entry>, head: nat)
    requires head <= |ring|
    ensures forall e :: e in Rotated(ring, head) <==> e in ring
  {
    forall e | e in ring
      ensures e in Rotated(ring, head)
    {
      var i :| 0 <= i < |ring| && ring[i] == e;
      assert Rotated(ring, head)[if head <= i then i - head else i + (|ring| - head)] == e;
    }
  }

  /** The list holds the occupied slots and nothing else. */
  lemma MessagesAreSlots(q: Queue)
    requires Shaped(q)
    ensures forall e :: e in Messages(q) <==> e in q.ring && Occupied(e)
  {
    hide Stored, Rotated;
    var r := Rotated(q.ring, q.head);
    StoredMembers(r);
    RotatedElements(q.ring, q.head);
    forall e | e in r && Occupied(e)
      ensures e in Stored(r)
    {
      var i :| 0 <= i < |r| && r[i] == e;
    }
  }

  /** An acknowledgement removes one message it matches; the others keep their order. */
  lemma ConfirmRefines(q: Queue, friendnum: int, receipt: int)
    requires Inv(q)
    ensures var (q', code) := Confirm(q, friendnum, receipt);
            if code == Ok
            then exists p :: 0 <= p < |Messages(q)| && Acknowledges(Messages(q)[p], friendnum, receipt)
                             && Messages(q') == Without(Messages(q), p)
            else q' == q
    ensures Confirm(q, friendnum, receipt).1 == ErrNotFound
            <==> 0 <= friendnum && 0 <= receipt && forall m :: m in Messages(q) ==> !Acknowledges(m, friendnum, receipt)
  {
    hide Stored, Rotated, CountState;
    var (q', code) := Confirm(q, friendnum, receipt);
    ConfirmInv(q, friendnum, receipt);
    if code == Ok {
      var i := FindAcknowledged(q.ring, 0, friendnum, receipt);
      OccupiedMeansCount(q, i);
      var k := Reach(q.head, i, |q.ring|);
      ReleasedMessages(q, k, q.ring[i], q'.count);
      Located(q, k);
      var p := |Before(q, k)|;
      assert Messages(q)[p] == q.ring[i];
      assert Acknowledges(Messages(q)[p], friendnum, receipt);
    } else {
      MessagesAreSlots(q);
    }
  }

  lemma NoneEligibleBefore(q: Queue, k: nat, now: int)
    requires Shaped(q) && k <= |q.ring|
    requires forall j :: 0 <= j < k ==> !Eligible(q.ring[At(q.head, j, |q.ring|)], now)
    ensures forall m :: m in Stored(Rotated(q.ring, q.head)[..k]) ==> !Eligible(m, now)
  {
    hide Stored;
    var r := Rotated(q.ring, q.head);
    StoredMembers(r[..k]);
    forall m | m in Stored(r[..k])
      ensures !Eligible(m, now)
    {
      var j :| 0 <= j < k && r[j] == m;
      RotatedUpdate(q.ring, q.head, j, m);
    }
  }

  lemma {:induction false} FirstEligibleAt(b: seq<Entry>, m: Entry, c: seq<Entry>, now: int)
    requires Eligible(m, now) && forall x :: x in b ==> !Eligible(x, now)
    ensures FirstEligible(b + [m] + c, now) == |b|
  {
    var s := b + [m] + c;
    if b == [] {
      assert s[0] == m;
    } else {
      assert s[0] == b[0] && b[0] in b;
      assert s[1..] == b[1..] + [m] + c;
      FirstEligibleAt(b[1..], m, c, now);
    }
  }

  lemma {:induction false} NoneEligible(ms: seq<Entry>, now: int)
    requires forall x :: x in ms ==> !Eligible(x, now)
    ensures FirstEligible(ms, now) == |ms|
  {
    if ms != [] {
      assert ms[0] in ms;
      NoneEligible(ms[1..], now);
    }
  }

  /** Acting on the first eligible slot is acting on the first eligible message. */
  lemma ActRefines(q: Queue, k: nat, code: int, now: int)
    requires Inv(q) && k < |q.ring| && Eligible(q.ring[At(q.head, k, |q.ring|)], now)
    requires forall j :: 0 <= j < k ==> !Eligible(q.ring[At(q.head, j, |q.ring|)], now)
    requires Inv(Act(q, At(q.head, k, |q.ring|), code, now).queue)
    ensures var s := Act(q, At(q.head, k, |q.ring|), code, now);
            ListServed(Messages(s.queue), s.outcome, s.handed) == ListService(Messages(q), true, code, now)
  {
    hide Stored, Rotated, CountState, FirstEligible, Sound, DistinctStamps;
    var slot := At(q.head, k, |q.ring|);
    var e := q.ring[slot];
    var a := Try(e, code, now);
    var s := Act(q, slot, code, now);
    Located(q, k);
    NoneEligibleBefore(q, k, now);
    FirstEligibleAt(Before(q, k), e, After(q, k), now);
    var p := |Before(q, k)|;
    TryOutcome(e, code, now);
    if a.outcome == Dropped {
      ReleasedMessages(q, k, a.entry, s.queue.count);
    } else {
      Overwritten(q, k, a.entry);
      assert Messages(q)[p := a.entry] == Before(q, k) + [a.entry] + After(q, k);
    }
  }

  /** The ring refines the list: a service call does to the stored messages what
      the list machine does. */
  lemma ServiceRefines(q: Queue, ready: bool, code: int, now: int)
    requires Inv(q)
    ensures var s := Service(q, ready, code, now);
            ListServed(Messages(s.queue), s.outcome, s.handed) == ListService(Messages(q), ready, code, now)
  {
    hide Stored, Rotated, CountState, FirstEligible, Sound, DistinctStamps, Act, Try, Messages;
    AlreadySettled(q);
    ServiceInv(q, ready, code, now);
    MessagesSize(q);
    if ready && 0 < q.count {
      var n := |q.ring|;
      var k := First(q.ring, q.head, 0, AnyEligible(now));
      NotYetEligible(q, now);
      if k < n {
        ActRefines(q, k, code, now);
      } else {
        NoMessageEligible(q, now);
      }
    }
  }

  lemma NotYetEligible(q: Queue, now: int)
    requires Shaped(q)
    ensures var k := First(q.ring, q.head, 0, AnyEligible(now));
            forall j :: 0 <= j < k ==> !Eligible(q.ring[At(q.head, j, |q.ring|)], now)
  {
    hide First;
    var k := First(q.ring, q.head, 0, AnyEligible(now));
    forall j | 0 <= j < k
      ensures !Eligible(q.ring[At(q.head, j, |q.ring|)], now)
    {
      assert !Matches(q.ring[At(q.head, j, |q.ring|)], AnyEligible(now));
    }
  }

  lemma NoMessageEligible(q: Queue, now: int)
    requires Shaped(q) && First(q.ring, q.head, 0, AnyEligible(now)) == |q.ring|
    ensures FirstEligible(Messages(q), now) == |Messages(q)|
  {
    hide Stored;
    NotYetEligible(q, now);
    NoneEligibleBefore(q, |q.ring|, now);
    assert Rotated(q.ring, q.head)[..|q.ring|] == Rotated(q.ring, q.head);
    NoneEligible(Messages(q), now);
  }

  /** With a transport supplied, a call is idle exactly when no message is eligible. */
  lemma IdleIffNoneEligible(q: Queue, code: int, now: int)
    requires Inv(q)
    ensures Service(q, true, code, now).outcome == Idle <==> forall m :: m in Messages(q) ==> !Eligible(m, now)
  {
    hide Messages, Service, Sound, CountState, DistinctStamps, Try, Eligible;
    ServiceRefines(q, true, code, now);
    var ms := Messages(q);
    var p := FirstEligible(ms, now);
    if p < |ms| {
      TryOutcome(ms[p], code, now);
      assert ms[p] in ms;
    }
  }
}
