/** A second reading of the wire format, line by line and number by number, which the
    decoder agrees with on every byte string. */
module TgReference {
  import opened Bytes
  import opened TgNumbers
  import opened TgLines
  import opened Telegram

  // ---------------------------------------------------------------------
  // Numbers
  // ---------------------------------------------------------------------

  /** A number and the text behind it. */
  datatype Number = Number(value: int, rest: bytes)

  function DropBlanks(s: bytes): (r: bytes)
    ensures |r| <= |s|
  {
    if s != [] && (s[0] == 32 || 9 <= s[0] <= 13) then DropBlanks(s[1..]) else s
  }

  /** The digits at the start of s, read from the left. */
  function ReadDigits(s: bytes, sofar: int): Number {
    if s != [] && 48 <= s[0] <= 57 then ReadDigits(s[1..], 10 * sofar + (s[0] as int - 48)) else Number(sofar, s)
  }

  /** Blanks, an optional sign, and at least one digit. */
  function ReadNumber(s: bytes): Option<Number> {
    ReadSigned(DropBlanks(s))
  }

  function ReadSigned(t: bytes): Option<Number> {
    var signed := t != [] && (t[0] == 43 || t[0] == 45);
    var u := if signed then t[1..] else t;
    if u == [] || !(48 <= u[0] <= 57) then None
    else
      var n := ReadDigits(u, 0);
      Some(if signed && t[0] == 45 then n.(value := -n.value) else n)
  }

  /** What a 64-bit long keeps of it. */
  function Clipped(v: int): int64 {
    if v < -9223372036854775808 then -9223372036854775808
    else if v > 9223372036854775807 then 9223372036854775807
    else v
  }

  /** What a 32-bit int keeps of that. */
  function Wrapped(v: int): int {
    var m := v % 4294967296;
    if m >= 2147483648 then m - 4294967296 else m
  }

  lemma {:induction false} DropsBlanks(s: bytes, i: nat)
    requires i <= |s|
    ensures s[SkipSpaces(s, i)..] == DropBlanks(s[i..])
    decreases |s| - i
  {
    if i < |s| && IsSpace(s[i]) {
      assert s[i..][1..] == s[i + 1..];
      DropsBlanks(s, i + 1);
    }
  }

  function PowerOf(n: nat): (p: int)
    ensures 1 <= p
  {
    if n == 0 then 1 else 10 * PowerOf(n - 1)
  }

  lemma {:induction false} NatOfCons(c: byte, d: bytes)
    requires IsDigit(c) && AllDigits(d)
    ensures NatOf([c] + d) == (c as int - 48) * PowerOf(|d|) + NatOf(d)
    decreases |d|
  {
    var s := [c] + d;
    NatOfLast(s);
    if d == [] {
      assert s[..|s| - 1] == [];
    } else {
      var init := d[..|d| - 1];
      NatOfLast(d);
      assert s[..|s| - 1] == [c] + init && s[|s| - 1] == d[|d| - 1];
      NatOfCons(c, init);
      hide NatOf, AllDigits;
      Tens(c as int - 48, PowerOf(|init|));
    }
  }

  lemma NatOfLast(d: bytes)
    requires AllDigits(d) && d != []
    ensures NatOf(d) == 10 * NatOf(d[..|d| - 1]) + (d[|d| - 1] as int - 48)
  {
  }

  lemma Tens(a: int, p: int)
    ensures a * (10 * p) == 10 * (a * p)
  {
  }

  lemma {:induction false} ReadsDigits(s: bytes, i: nat, sofar: int)
    requires i <= |s|
    ensures var j := SkipDigits(s, i);
            ReadDigits(s[i..], sofar) == Number(sofar * PowerOf(j - i) + NatOf(s[i..j]), s[j..])
    decreases |s| - i
  {
    var j := SkipDigits(s, i);
    if i < |s| && IsDigit(s[i]) {
      assert s[i..][1..] == s[i + 1..];
      ReadsDigits(s, i + 1, 10 * sofar + (s[i] as int - 48));
      assert s[i..j] == [s[i]] + s[i + 1..j];
      NatOfCons(s[i], s[i + 1..j]);
      Horner(sofar, s[i] as int - 48, PowerOf(j - i - 1));
    } else {
      assert s[i..i] == [];
    }
  }

  lemma Horner(a: int, c: int, p: int)
    ensures (10 * a + c) * p == a * (10 * p) + c * p
  {
  }

  lemma ClippedIs(v: int)
    ensures Saturate(v) == Clipped(v)
  {
  }

  lemma WrappedIs(v: int64)
    ensures Narrow(v) == Wrapped(v)
  {
  }

  /** Behind blanks and sign: the digits, as both read them. */
  lemma DigitsAgree(s: bytes, j: nat)
    requires j <= |s|
    ensures var k := SkipDigits(s, j);
            && (k == j <==> s[j..] == [] || !(48 <= s[j..][0] <= 57))
            && ReadDigits(s[j..], 0) == Number(NatOf(s[j..k]), s[k..])
  {
    SkipsNone(s, j);
    ReadsDigits(s, j, 0);
  }

  lemma StrtolIs(s: bytes)
    ensures var i := SkipSpaces(s, 0);
            var signed := i < |s| && (s[i] == 43 || s[i] == 45);
            var j := if signed then i + 1 else i;
            var k := SkipDigits(s, j);
            Strtol(s) == if k == j then (0, 0)
                         else (Clipped(if signed && s[i] == 45 then -NatOf(s[j..k]) else NatOf(s[j..k])), k)
  {
    hide SkipSpaces, SkipDigits, NatOf;
  }

  /** How a text starts that stands at place i of another. */
  lemma StartsAt(s: bytes, i: nat)
    requires i <= |s|
    ensures s[i..] == [] <==> i == |s|
    ensures i < |s| ==> s[i..][0] == s[i] && s[i..][1..] == s[i + 1..]
  {
  }

  lemma ReadSignedIs(s: bytes, i: nat)
    requires i <= |s|
    ensures var signed := i < |s| && (s[i] == 43 || s[i] == 45);
            var j := if signed then i + 1 else i;
            var k := SkipDigits(s, j);
            ReadSigned(s[i..]) == if k == j then None
                                  else Some(Number(if signed && s[i] == 45 then -NatOf(s[j..k]) else NatOf(s[j..k]),
                                                   s[k..]))
  {
    hide SkipDigits, NatOf, ReadDigits, ReadSigned;
    StartsAt(s, i);
    var signed := i < |s| && (s[i] == 43 || s[i] == 45);
    var j := if signed then i + 1 else i;
    DigitsAgree(s, j);
    SignedAs(s[i..], s[j..], signed);
  }

  lemma SignedAs(t: bytes, u: bytes, signed: bool)
    requires signed <==> t != [] && (t[0] == 43 || t[0] == 45)
    requires u == if signed then t[1..] else t
    ensures ReadSigned(t) == if u == [] || !(48 <= u[0] <= 57) then None
                             else if signed && t[0] == 45
                             then Some(Number(-ReadDigits(u, 0).value, ReadDigits(u, 0).rest))
                             else Some(ReadDigits(u, 0))
  {
    hide ReadDigits;
  }

  /** strtol reads what is read here: the same value, and it stops at the same place. */
  lemma StrtolReads(s: bytes)
    ensures var n := ReadNumber(s);
            Strtol(s) == if n.None? then (0, 0) else (Clipped(n.value.value), |s| - |n.value.rest|)
    ensures ReadNumber(s).Some? ==> |ReadNumber(s).value.rest| < |s|
    ensures ReadNumber(s).Some? ==> s[|s| - |ReadNumber(s).value.rest|..] == ReadNumber(s).value.rest
  {
    DropsBlanks(s, 0);
    assert s[0..] == s;
    hide SkipSpaces, SkipDigits, NatOf, ReadSigned, Strtol, Clipped, DropBlanks;
    StrtolIs(s);
    ReadSignedIs(s, SkipSpaces(s, 0));
  }

  lemma SkipsNone(s: bytes, j: nat)
    requires j <= |s|
    ensures SkipDigits(s, j) == j <==> j == |s| || !(48 <= s[j] <= 57)
  {
  }

  // ---------------------------------------------------------------------
  // Lines
  // ---------------------------------------------------------------------

  /** The position of the first LF or CR. */
  function FirstEnd(d: bytes): (e: nat)
    ensures e <= |d|
  {
    if d == [] || d[0] == 10 || d[0] == 13 then 0 else 1 + FirstEnd(d[1..])
  }

  /** The lines of a record: each ends at an LF, a CR, or a CR with an LF behind it. */
  function RawLines(d: bytes): seq<bytes>
    decreases |d|
  {
    if d == [] then []
    else
      var e := FirstEnd(d);
      if e == |d| then [d]
      else if d[e] == 13 && e + 1 < |d| && d[e + 1] == 10 then [d[..e]] + RawLines(d[e + 2..])
      else [d[..e]] + RawLines(d[e + 1..])
  }

  /** What a buffer that takes n bytes holds of a line: the bytes before its first NUL. */
  function Held(l: bytes, n: nat): (h: bytes)
    ensures |h| <= |l|
  {
    if l == [] || n == 0 || l[0] == 0 then [] else [l[0]] + Held(l[1..], n - 1)
  }

  lemma {:induction false} EndsAtFirst(d: bytes, pos: nat)
    requires pos <= |d|
    ensures LineEnd(d, pos) == pos + FirstEnd(d[pos..])
    decreases |d| - pos
  {
    if pos < |d| && !Ends(d[pos]) {
      assert d[pos..][1..] == d[pos + 1..];
      EndsAtFirst(d, pos + 1);
    }
  }

  lemma {:induction false} HeldIs(l: bytes, n: nat)
    ensures CStr(Cut(l, n)) == Held(l, n)
    decreases |l|
  {
    hide CStr, Cut;
    if l != [] && n != 0 && l[0] != 0 {
      HeldIs(l[1..], n - 1);
      CutStep(l, n);
      FindStep(Cut(l, n));
    } else {
      HeldNothing(l, n);
    }
  }

  lemma CutStep(l: bytes, n: nat)
    requires l != [] && n != 0
    ensures Cut(l, n) != [] && Cut(l, n)[0] == l[0] && Cut(l, n)[1..] == Cut(l[1..], n - 1)
  {
  }

  lemma HeldNothing(l: bytes, n: nat)
    requires l == [] || n == 0 || l[0] == 0
    ensures CStr(Cut(l, n)) == []
  {
  }

  lemma FindStep(c: bytes)
    requires c != [] && c[0] != NUL
    ensures CStr(c) == [c[0]] + CStr(c[1..])
  {
    var i := Find(c[1..], NUL);
    assert Find(c, NUL) == 1 + i;
    assert c[..1 + i] == [c[0]] + c[1..][..i];
  }

  /** Reading a line takes the first of the lines that are left. */
  lemma ReadsFirst(d: bytes, pos: nat)
    requires pos < |d|
    ensures ReadLine(d, pos, LINE_SIZE).Some? && RawLines(d[pos..]) != []
    ensures var r := ReadLine(d, pos, LINE_SIZE).value;
            var ls := RawLines(d[pos..]);
            && r.text == Held(ls[0], 143) && (r.complete <==> |ls[0]| <= 143)
            && r.next <= |d| && ls[1..] == RawLines(d[r.next..])
  {
    EndsAtFirst(d, pos);
    var rest, e := d[pos..], LineEnd(d, pos);
    HeldIs(d[pos..e], 143);
    assert rest[..FirstEnd(rest)] == d[pos..e];
    FirstOfLines(rest);
    hide LineEnd, FirstEnd, Held, CStr, Cut, RawLines;
    Behind(d, pos, e);
  }

  /** The first line, and what is left behind its end. */
  lemma FirstOfLines(d: bytes)
    requires d != []
    ensures RawLines(d) != [] && RawLines(d)[0] == d[..FirstEnd(d)]
    ensures RawLines(d)[1..] == RawLines(BehindEnd(d, FirstEnd(d)))
  {
    hide FirstEnd;
    if FirstEnd(d) == |d| {
      assert d[..|d|] == d;
    }
  }

  function BehindEnd(d: bytes, e: nat): bytes
    requires e <= |d|
  {
    if e == |d| then []
    else if d[e] == 13 && e + 1 < |d| && d[e + 1] == 10 then d[e + 2..]
    else d[e + 1..]
  }

  lemma Behind(d: bytes, pos: nat, e: nat)
    requires pos <= e <= |d| && (e < |d| ==> Ends(d[e]))
    ensures BehindEnd(d[pos..], e - pos) == d[SkipEnd(d, e)..]
  {
    var rest := d[pos..];
    if e < |d| {
      assert rest[e - pos] == d[e] && rest[e - pos + 1..] == d[e + 1..];
      if e + 1 < |d| {
        assert rest[e - pos + 1] == d[e + 1] && rest[e - pos + 2..] == d[e + 2..];
      }
    } else {
      assert d[e..] == [];
    }
  }

  // ---------------------------------------------------------------------
  // Records
  // ---------------------------------------------------------------------

  /** The body in these lines, up to the one that ends in NNNN. */
  function BodyOfLines(ls: seq<bytes>, body: bytes): Option<bytes>
    decreases |ls|
  {
    if ls == [] then None
    else
      var l := Held(ls[0], 143);
      if 4 <= |l| && l[|l| - 4..] == [78, 78, 78, 78] then
        if |body| + |l| - 4 <= 1022 then Some(body + l[..|l| - 4]) else None
      else if |body| + |l| <= 1022 then BodyOfLines(ls[1..], body + l + [10])
      else None
  }

  /** A serial, a space and a timestamp. */
  function MetaOfLine(line: bytes): Option<(int, int64)> {
    var sn :- ReadNumber(line);
    if sn.rest == [] || sn.rest[0] != 32 then None
    else
      var timestamp :- ReadNumber(sn.rest[1..]);
      var n := Wrapped(Clipped(sn.value));
      if 1 <= n <= 999 then Some((n, Clipped(timestamp.value))) else None
  }

  /** "R:", the first serial, a minus sign and the last serial. */
  function RequestOfLine(line: bytes): Option<(int, int)> {
    if |line| < 2 || line[0] != 82 || line[1] != 58 then None
    else
      var from :- ReadNumber(line[2..]);
      if from.rest == [] || from.rest[0] != 45 then None
      else
        var to :- ReadNumber(from.rest[1..]);
        var a, b := Wrapped(Clipped(from.value)), Wrapped(Clipped(to.value));
        if 1 <= a <= 999 && 1 <= b <= 999 then Some((a, b)) else None
  }

  /** A field is there, and shorter than 128 bytes. */
  predicate IsField(l: bytes) {
    0 < |l| < 128
  }

  /** The record in these lines: kind, receiver, sender and numbers, each on a line that
      was not cut, and the body. */
  function RecordOfLines(ls: seq<bytes>): Option<Message> {
    if |ls| < 4 || !(forall i :: 0 <= i < 4 ==> |ls[i]| <= 143) then None
    else
      var kind, receiver, sender, meta := Held(ls[0], 143), Held(ls[1], 143), Held(ls[2], 143), Held(ls[3], 143);
      if !IsField(receiver) || !IsField(sender) then None
      else if kind == [90, 67, 90, 67, 32, 84, 69, 88, 84] then
        var numbers :- MetaOfLine(meta);
        var body :- BodyOfLines(ls[4..], []);
        Some(Text(receiver, sender, numbers.0, numbers.1, body))
      else if kind == [90, 67, 90, 67, 32, 67, 77, 68] then
        var range :- RequestOfLine(meta);
        var body :- BodyOfLines(ls[4..], []);
        Some(Cmd(receiver, sender, range.0, range.1, body))
      else None
  }

  lemma MetaAgrees(line: bytes)
    ensures ReadMeta(line) == MetaOfLine(line)
  {
    hide Strtol, ReadNumber, Narrow, Wrapped, Clipped;
    StrtolReads(line);
    var n := ReadNumber(line);
    if n.Some? && n.value.rest != [] {
      var end := |line| - |n.value.rest|;
      assert line[end..][1..] == line[end + 1..];
      assert line[end] == n.value.rest[0];
      StrtolReads(n.value.rest[1..]);
      WrappedIs(Clipped(n.value.value));
    }
  }

  lemma RequestAgrees(line: bytes)
    ensures ReadRequest(line) == RequestOfLine(line)
  {
    hide Strtol, ReadNumber, Narrow, Wrapped, Clipped;
    if 2 <= |line| {
      var s := line[2..];
      StrtolReads(s);
      var n := ReadNumber(s);
      if n.Some? && n.value.rest != [] {
        var end := |s| - |n.value.rest|;
        assert s[end..] == n.value.rest;
        assert line[2 + end] == n.value.rest[0];
        assert line[2 + end + 1..] == n.value.rest[1..];
        StrtolReads(n.value.rest[1..]);
        WrappedIs(Clipped(n.value.value));
        if ReadNumber(n.value.rest[1..]).Some? {
          WrappedIs(Clipped(ReadNumber(n.value.rest[1..]).value.value));
        }
      }
    }
  }

  lemma {:induction false} BodyAgrees(d: bytes, pos: nat, acc: bytes)
    requires pos <= |d|
    ensures DecodeBody(d, pos, acc) == BodyOfLines(RawLines(d[pos..]), acc)
    decreases |d| - pos
  {
    hide ReadLine, RawLines, Held;
    if pos == |d| {
      NoLines(d, pos);
    } else {
      ReadsFirst(d, pos);
      var l := ReadLine(d, pos, LINE_SIZE).value;
      ReadMoves(d, pos);
      BodyAgrees(d, l.next, acc + l.text + [LF]);
    }
  }

  lemma NoLines(d: bytes, pos: nat)
    requires pos == |d|
    ensures ReadLine(d, pos, LINE_SIZE) == None && RawLines(d[pos..]) == []
  {
  }

  lemma ReadMoves(d: bytes, pos: nat)
    requires pos < |d|
    ensures ReadLine(d, pos, LINE_SIZE).Some? && pos < ReadLine(d, pos, LINE_SIZE).value.next <= |d|
  {
  }

  /** A line that must be whole, in terms of the lines that are left. */
  lemma WholeAgrees(d: bytes, pos: nat)
    requires pos <= |d|
    ensures var ls := RawLines(d[pos..]); var r := WholeLine(d, pos);
            && (r.Some? <==> ls != [] && |ls[0]| <= 143)
            && (r.Some? ==> r.value.text == Held(ls[0], 143) && r.value.next <= |d| &&
                            RawLines(d[r.value.next..]) == ls[1..])
  {
    hide ReadLine, RawLines, Held;
    if pos == |d| {
      NoLines(d, pos);
    } else {
      ReadsFirst(d, pos);
    }
  }

  /** The decoder, in terms of lines: on every byte string it gives the record that
      these lines hold. */
  lemma DecodeByLines(raw: bytes)
    ensures Decode(raw) == RecordOfLines(RawLines(raw))
  {
    hide ReadMeta, ReadRequest, DecodeBody, WholeLine, RawLines, Held, MetaOfLine, RequestOfLine, BodyOfLines;
    var ls := RawLines(raw);
    assert raw[0..] == raw;
    WholeAgrees(raw, 0);
    var kind := WholeLine(raw, 0);
    if kind.Some? {
      WholeAgrees(raw, kind.value.next);
      var receiver := WholeLine(raw, kind.value.next);
      if receiver.Some? {
        WholeAgrees(raw, receiver.value.next);
        var sender := WholeLine(raw, receiver.value.next);
        if sender.Some? {
          WholeAgrees(raw, sender.value.next);
          var meta := WholeLine(raw, sender.value.next);
          if meta.Some? {
            assert ls[1..][1..][1..][1..] == ls[4..];
            MetaAgrees(meta.value.text);
            RequestAgrees(meta.value.text);
            BodyAgrees(raw, meta.value.next, []);
          }
        }
      }
    }
  }
}
