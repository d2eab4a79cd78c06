/** Serial numbers of the telegraph protocol: the cyclic space 1..999. */
module Serials {

  const SN_MIN := 1
  const SN_MAX := 999
  const SN_RANGE := SN_MAX - SN_MIN + 1

  predicate SnValid(sn: int) {
    SN_MIN <= sn <= SN_MAX
  }

  function Next(sn: int): (r: int)
    ensures SnValid(r)
  {
    if !SnValid(sn) || sn == SN_MAX then SN_MIN else sn + 1
  }

  function Prev(sn: int): (r: int)
    ensures SnValid(r)
    ensures SnValid(sn) ==> Next(r) == sn
  {
    if !SnValid(sn) || sn == SN_MIN then SN_MAX else sn - 1
  }

  /** The remainder by SN_RANGE as C computes it: it truncates toward zero. */
  function CRemainder(a: int): (r: int)
    ensures -SN_RANGE < r < SN_RANGE
  {
    if a >= 0 then a % SN_RANGE else -((-a) % SN_RANGE)
  }

  function Distance(from: int, to: int): (d: int)
    ensures 0 <= d < SN_RANGE
    ensures (from + d - to) % SN_RANGE == 0
  {
    var d := CRemainder(to - from);
    if d < 0 then d + SN_RANGE else d
  }

  /** The serial reached after n forward steps. */
  function Steps(from: int, n: nat): (r: int)
    requires SnValid(from)
    ensures SnValid(r)
  {
    if n == 0 then from else Next(Steps(from, n - 1))
  }

  // ---------------------------------------------------------------------
  // True serials: the unbounded numbering behind the wire
  // ---------------------------------------------------------------------

  /** The wire serial of the t-th telegram of an unbounded numbering. */
  function Wrap(t: int): (sn: int)
    ensures SnValid(sn)
  {
    SN_MIN + (t - SN_MIN) % SN_RANGE
  }

  lemma ModStep(a: int)
    ensures (a + 1) % SN_RANGE == if a % SN_RANGE == SN_RANGE - 1 then 0 else a % SN_RANGE + 1
  {
    assert a == a / SN_RANGE * SN_RANGE + a % SN_RANGE;
  }

  lemma WrapNext(t: int)
    ensures Next(Wrap(t)) == Wrap(t + 1)
    ensures Prev(Wrap(t)) == Wrap(t - 1)
  {
    ModStep(t - 1);
    ModStep(t - 2);
  }

  lemma WrapDistance(a: int, b: int)
    ensures Distance(Wrap(a), Wrap(b)) == (b - a) % SN_RANGE
  {
  }

  lemma WrapEqual(a: int, b: int)
    ensures Wrap(a) == Wrap(b) <==> (b - a) % SN_RANGE == 0
  {
  }

  lemma WrapIdentity(sn: int)
    requires SnValid(sn)
    ensures Wrap(sn) == sn
  {
  }

  /** Stepping is the image of unbounded addition. */
  lemma {:induction false} WrapSteps(t: int, n: nat)
    ensures Steps(Wrap(t), n) == Wrap(t + n)
  {
    if n > 0 {
      WrapSteps(t, n - 1);
      WrapNext(t + n - 1);
    }
  }

  /** The distance is the least number of forward steps that reaches the target. */
  lemma {:induction false} DistanceIsLeastSteps(from: int, to: int)
    requires SnValid(from) && SnValid(to)
    ensures Steps(from, Distance(from, to)) == to
    ensures forall n: nat :: Steps(from, n) == to ==> Distance(from, to) <= n
  {
    WrapIdentity(from);
    WrapIdentity(to);
    WrapSteps(from, Distance(from, to));
    WrapEqual(from + Distance(from, to), to);
    forall n: nat | Steps(from, n) == to
      ensures Distance(from, to) <= n
    {
      WrapSteps(from, n);
      WrapEqual(from + n, to);
    }
  }

  lemma DistanceToPrev(from: int, to: int)
    requires SnValid(from) && SnValid(to) && from != to
    ensures Distance(from, Prev(to)) + 1 == Distance(from, to)
  {
  }
}
