/** Decimal numbers as printf writes them and strtol reads them. */
module TgNumbers {
  import opened Bytes

  const PLUS: byte := 43
  const MINUS: byte := 45

  predicate IsSpace(b: byte) {
    b == SPACE || 9 <= b <= 13
  }

  predicate IsDigit(b: byte) {
    48 <= b <= 57
  }

  predicate AllDigits(s: bytes) {
    forall i :: 0 <= i < |s| ==> IsDigit(s[i])
  }

  // ---------------------------------------------------------------------
  // Printing
  // ---------------------------------------------------------------------

  function Digits(n: nat): (s: bytes)
    ensures 0 < |s| && AllDigits(s)
  {
    if n < 10 then [(48 + n) as byte] else Digits(n / 10) + [(48 + n % 10) as byte]
  }

  /** The conversions %d and %ld. */
  function ShowInt(v: int): (s: bytes)
    ensures 0 < |s|
  {
    if v < 0 then [MINUS] + Digits(-v) else Digits(v)
  }

  function Zeros(n: nat): (s: bytes)
    ensures |s| == n && AllDigits(s)
  {
    seq(n, _ => 48)
  }

  /** The conversion %04d of a number that is not negative. */
  function Show4(n: nat): (s: bytes)
    ensures 4 <= |s| && AllDigits(s)
  {
    var d := Digits(n);
    if |d| < 4 then Zeros(4 - |d|) + d else d
  }

  // ---------------------------------------------------------------------
  // Reading
  // ---------------------------------------------------------------------

  function SkipSpaces(s: bytes, i: nat): (j: nat)
    requires i <= |s|
    ensures i <= j <= |s|
    decreases |s| - i
  {
    if i < |s| && IsSpace(s[i]) then SkipSpaces(s, i + 1) else i
  }

  function SkipDigits(s: bytes, i: nat): (j: nat)
    requires i <= |s|
    ensures i <= j <= |s|
    ensures AllDigits(s[i..j])
    ensures j < |s| ==> !IsDigit(s[j])
    decreases |s| - i
  {
    if i < |s| && IsDigit(s[i]) then SkipDigits(s, i + 1) else i
  }

  function NatOf(d: bytes): (n: int)
    requires AllDigits(d)
    ensures 0 <= n
  {
    if d == [] then 0 else 10 * NatOf(d[..|d| - 1]) + (d[|d| - 1] as int - 48)
  }

  /** A long saturates instead of wrapping. */
  function Saturate(v: int): int64 {
    if v < -0x8000_0000_0000_0000 then -0x8000_0000_0000_0000
    else if v > 0x7fff_ffff_ffff_ffff then 0x7fff_ffff_ffff_ffff
    else v
  }

  /** strtol in base 10 on the C string s: the value, and where reading stopped;
      it stops at 0 when there is no number. */
  function Strtol(s: bytes): (r: (int64, nat))
    ensures r.1 <= |s|
  {
    var i := SkipSpaces(s, 0);
    var negative := i < |s| && s[i] == MINUS;
    var j := if i < |s| && (s[i] == MINUS || s[i] == PLUS) then i + 1 else i;
    var k := SkipDigits(s, j);
    if k == j then (0, 0)
    else (Saturate(if negative then -NatOf(s[j..k]) else NatOf(s[j..k])), k)
  }

  /** The cast from long to int. */
  function Narrow(v: int64): int32 {
    (v + 0x8000_0000) % 0x1_0000_0000 - 0x8000_0000
  }

  // ---------------------------------------------------------------------
  // Reading back what was printed
  // ---------------------------------------------------------------------

  lemma {:induction false} NatOfDigits(n: nat)
    ensures NatOf(Digits(n)) == n
  {
    if 10 <= n {
      NatOfDigits(n / 10);
      var d := Digits(n);
      assert d[..|d| - 1] == Digits(n / 10);
    }
  }

  lemma {:induction false} NatOfZeros(k: nat, d: bytes)
    requires AllDigits(d)
    ensures NatOf(Zeros(k) + d) == NatOf(d)
    decreases |d|, k
  {
    var z := Zeros(k) + d;
    if d != [] {
      assert z[..|z| - 1] == Zeros(k) + d[..|d| - 1];
      NatOfZeros(k, d[..|d| - 1]);
    } else if 0 < k {
      assert z[..|z| - 1] == Zeros(k - 1) + [];
      NatOfZeros(k - 1, []);
    }
  }

  lemma {:induction false} SkipsDigits(d: bytes, rest: bytes, i: nat)
    requires AllDigits(d) && i <= |d| && (rest != [] ==> !IsDigit(rest[0]))
    ensures SkipDigits(d + rest, i) == |d|
    decreases |d| - i
  {
    if i < |d| {
      SkipsDigits(d, rest, i + 1);
    }
  }

  lemma NoSpaces(s: bytes)
    requires s != [] && !IsSpace(s[0])
    ensures SkipSpaces(s, 0) == 0
  {
  }

  lemma StrtolUnsigned(d: bytes, rest: bytes)
    requires AllDigits(d) && d != [] && (rest != [] ==> !IsDigit(rest[0]))
    ensures Strtol(d + rest) == (Saturate(NatOf(d)), |d|)
  {
    hide NatOf, SkipDigits, SkipSpaces;
    SkipsDigits(d, rest, 0);
    var s := d + rest;
    assert s[0] == d[0];
    NoSpaces(s);
    assert s[0..|d|] == d;
  }

  lemma StrtolSigned(d: bytes, rest: bytes)
    requires AllDigits(d) && d != [] && (rest != [] ==> !IsDigit(rest[0]))
    ensures Strtol([MINUS] + d + rest) == (Saturate(-NatOf(d)), 1 + |d|)
  {
    hide Strtol, NatOf, SkipDigits, Saturate;
    SkipsShifted(d, rest, 0);
    var s := [MINUS] + d + rest;
    assert s[0] == MINUS;
    assert s[1..1 + |d|] == d;
    StrtolNegative(s);
  }

  lemma StrtolNegative(s: bytes)
    requires s != [] && s[0] == MINUS && 1 < SkipDigits(s, 1)
    ensures Strtol(s) == (Saturate(-NatOf(s[1..SkipDigits(s, 1)])), SkipDigits(s, 1))
  {
    hide NatOf, SkipDigits, SkipSpaces, Saturate;
    NoSpaces(s);
  }

  lemma {:induction false} SkipsShifted(d: bytes, rest: bytes, i: nat)
    requires AllDigits(d) && i <= |d| && (rest != [] ==> !IsDigit(rest[0]))
    ensures SkipDigits([MINUS] + d + rest, 1 + i) == 1 + |d|
    decreases |d| - i
  {
    var s := [MINUS] + d + rest;
    if i < |d| {
      assert s[1 + i] == d[i];
      SkipsShifted(d, rest, i + 1);
    } else if rest != [] {
      assert s[1 + |d|] == rest[0];
    }
  }

  /** Every number that fits is read back, padded or not, and reading stops behind it. */
  lemma NumberRoundTrip(v: int64, n: nat, rest: bytes)
    requires n <= 0x7fff_ffff_ffff_ffff
    requires rest != [] ==> !IsDigit(rest[0])
    ensures Strtol(ShowInt(v) + rest) == (v, |ShowInt(v)|)
    ensures Strtol(Show4(n) + rest) == (n, |Show4(n)|)
  {
    hide Strtol, Digits, NatOf;
    var w: int := v;
    if w < 0 {
      NatOfDigits(-w);
      StrtolSigned(Digits(-w), rest);
    } else {
      NatOfDigits(w);
      StrtolUnsigned(Digits(w), rest);
    }
    NatOfDigits(n);
    if |Digits(n)| < 4 {
      NatOfZeros(4 - |Digits(n)|, Digits(n));
    }
    StrtolUnsigned(Show4(n), rest);
  }

  /** The narrowing cast keeps what fits. */
  lemma NarrowKeeps(v: int32)
    ensures Narrow(v) == v
  {
  }

  /** How long a printed number can be. */
  lemma {:induction false} DigitsBound(n: nat, k: nat, bound: nat)
    requires n < bound && bound == Power10(k) && 0 < k
    ensures |Digits(n)| <= k
    decreases k
  {
    if 10 <= n {
      DigitsBound(n / 10, k - 1, Power10(k - 1));
    }
  }

  function Power10(k: nat): (p: nat)
    ensures 0 < p
  {
    if k == 0 then 1 else 10 * Power10(k - 1)
  }
}
