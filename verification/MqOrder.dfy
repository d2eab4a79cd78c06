/** The ring as a list: what each operation does to the stored messages, read in
    scan order, and when that order is the order of arrival. */
module MqOrder {
  import opened Bytes
  import opened MqModel

  // ---------------------------------------------------------------------
  // Stretches of slots
  // ---------------------------------------------------------------------

  lemma {:induction false} StoredConcat(a: seq<Entry>, b: seq<Entry>)
    ensures Stored(a + b) == Stored(a) + Stored(b)
  {
    if a == [] {
      assert a + b == b;
    } else {
      assert (a + b)[1..] == a[1..] + b;
      StoredConcat(a[1..], b);
    }
  }

  lemma StoredOne(e: Entry)
    ensures Stored([e]) == if Occupied(e) then [e] else []
  {
    assert Stored([e][1..]) == [];
  }

  lemma StoredAround(a: seq<Entry>, e: Entry, c: seq<Entry>)
    ensures Stored(a + [e] + c) == Stored(a) + (if Occupied(e) then [e] else []) + Stored(c)
  {
    hide Stored, Occupied;
    StoredConcat(a + [e], c);
    StoredConcat(a, [e]);
    StoredOne(e);
  }

  lemma StoredSplit(es: seq<Entry>, k: nat)
    requires k < |es|
    ensures Stored(es) == Stored(es[..k]) + (if Occupied(es[k]) then [es[k]] else []) + Stored(es[k + 1..])
  {
    hide Stored, Occupied;
    SplitAt(es, k);
    StoredAround(es[..k], es[k], es[k + 1..]);
  }

  lemma {:induction false} StoredSize(es: seq<Entry>)
    ensures |Stored(es)| + CountState(es, Free) == |es|
  {
    if es != [] {
      StoredSize(es[1..]);
    }
  }

  lemma {:induction false} StoredNone(es: seq<Entry>)
    ensures Stored(es) == [] <==> forall i :: 0 <= i < |es| ==> !Occupied(es[i])
  {
    if es != [] {
      StoredNone(es[1..]);
      assert forall i :: 1 <= i < |es| ==> es[i] == es[1..][i - 1];
      assert forall i :: 0 <= i < |es[1..]| ==> es[1..][i] == es[i + 1];
    }
  }

  lemma {:induction false} StoredMembers(es: seq<Entry>)
    ensures forall i :: 0 <= i < |Stored(es)| ==> Occupied(Stored(es)[i]) && Stored(es)[i] in es
    ensures forall i :: 0 <= i < |es| && Occupied(es[i]) ==> es[i] in Stored(es)
  {
    if es != [] {
      StoredMembers(es[1..]);
      assert es == [es[0]] + es[1..];
    }
  }

  lemma {:induction false} CountConcat(a: seq<Entry>, b: seq<Entry>, state: SlotState)
    ensures CountState(a + b, state) == CountState(a, state) + CountState(b, state)
  {
    if a == [] {
      assert a + b == b;
    } else {
      assert (a + b)[1..] == a[1..] + b;
      CountConcat(a[1..], b, state);
    }
  }

  lemma RotatedCount(ring: seq<Entry>, head: nat, state: SlotState)
    requires head <= |ring|
    ensures CountState(Rotated(ring, head), state) == CountState(ring, state)
  {
    CountConcat(ring[head..], ring[..head], state);
    CountConcat(ring[..head], ring[head..], state);
    assert ring[..head] + ring[head..] == ring;
  }

  lemma RotatedUpdate(ring: seq<Entry>, head: nat, k: nat, e: Entry)
    requires head < |ring| && k < |ring|
    ensures Rotated(ring, head)[k] == ring[At(head, k, |ring|)]
    ensures Rotated(ring[At(head, k, |ring|) := e], head) == Rotated(ring, head)[k := e]
  {
  }

  /** As many messages are in the list as the counter says. */
  lemma MessagesSize(q: Queue)
    requires Inv(q)
    ensures |Messages(q)| == q.count
  {
    StoredSize(Rotated(q.ring, q.head));
    RotatedCount(q.ring, q.head, Free);
  }

  lemma MessagesAt(q: Queue)
    requires Shaped(q)
    ensures Messages(q) == Stored(Rotated(q.ring, q.head))
  {
  }

  lemma RotatedTwice(ring: seq<Entry>, head: nat, k: nat)
    requires head < |ring| && k < |ring|
    ensures Rotated(ring, At(head, k, |ring|)) == Rotated(ring, head)[k..] + Rotated(ring, head)[..k]
  {
  }

  /** Reading may start anywhere before the first message. */
  lemma SkipFree(ring: seq<Entry>, head: nat, k: nat)
    requires head < |ring| && k < |ring|
    requires forall i :: 0 <= i < k ==> !Occupied(ring[At(head, i, |ring|)])
    ensures Stored(Rotated(ring, At(head, k, |ring|))) == Stored(Rotated(ring, head))
  {
    var r := Rotated(ring, head);
    assert Stored(r[..k]) == [] by {
      forall i | 0 <= i < k
        ensures !Occupied(r[..k][i])
      {
        RotatedUpdate(ring, head, i, ring[0]);
      }
      StoredNone(r[..k]);
    }
    hide Stored, Rotated;
    RotatedTwice(ring, head, k);
    StoredConcat(r[..k], r[k..]);
    StoredConcat(r[k..], r[..k]);
    assert r == r[..k] + r[k..];
  }

  lemma FirstFree(ring: seq<Entry>, head: nat)
    requires head < |ring|
    ensures forall i :: 0 <= i < First(ring, head, 0, AnyOccupied) ==> !Occupied(ring[At(head, i, |ring|)])
  {
    hide First;
    var k := First(ring, head, 0, AnyOccupied);
    forall i | 0 <= i < k
      ensures !Occupied(ring[At(head, i, |ring|)])
    {
      assert !Matches(ring[At(head, i, |ring|)], AnyOccupied);
    }
  }

  lemma NothingStored(ring: seq<Entry>, head: nat)
    requires head < |ring| && CountState(ring, Free) == |ring|
    ensures Stored(Rotated(ring, head)) == []
  {
    RotatedCount(ring, head, Free);
    StoredSize(Rotated(ring, head));
  }

  lemma SettledOrder(ring: seq<Entry>, head: nat, tail: nat, count: nat)
    requires head < |ring| && tail < |ring| && count + CountState(ring, Free) == |ring|
    ensures Stored(Rotated(ring, Settled(ring, head, tail, count))) == Stored(Rotated(ring, head))
  {
    hide Stored, Rotated, CountState, Occupied, First;
    if count == 0 {
      NothingStored(ring, head);
      NothingStored(ring, tail);
    } else {
      FirstFree(ring, head);
      var k := First(ring, head, 0, AnyOccupied);
      if k < |ring| {
        SkipFree(ring, head, k);
      } else {
        assert At(head, k, |ring|) == head;
      }
    }
  }

  // ---------------------------------------------------------------------
  // Visiting
  // ---------------------------------------------------------------------

  lemma StoredNext(es: seq<Entry>, i: nat)
    requires i < |es|
    ensures Stored(es[..i + 1]) == Stored(es[..i]) + (if Occupied(es[i]) then [es[i]] else [])
  {
    hide Stored;
    assert es[..i + 1] == es[..i] + [es[i]];
    StoredConcat(es[..i], [es[i]]);
    StoredOne(es[i]);
  }

  /** Once as many messages were met as are stored, no more follow. */
  lemma StoredEarly(es: seq<Entry>, i: nat)
    requires i <= |es| && |Stored(es[..i])| == |Stored(es)|
    ensures Stored(es[..i]) == Stored(es)
  {
    hide Stored;
    assert es == es[..i] + es[i..];
    StoredConcat(es[..i], es[i..]);
  }

  lemma StoredPrefixSize(es: seq<Entry>, i: nat)
    requires i <= |es|
    ensures |Stored(es[..i])| <= |Stored(es)|
  {
    hide Stored;
    assert es == es[..i] + es[i..];
    StoredConcat(es[..i], es[i..]);
  }

  lemma RecordsConcat(a: seq<Entry>, b: seq<Entry>)
    ensures Records(a + b) == Records(a) + Records(b)
  {
  }

  lemma RecordsNext(es: seq<Entry>, e: Entry)
    ensures Records(es + [e]) == Records(es) + [Record(e.friendnum, e.payload)]
  {
  }
}
