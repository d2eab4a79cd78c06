/** The wire format in plain bytes: what the encoders write, what they refuse, and that
    the three line ends are the same to the decoder. */
module TgFraming {
  import opened Bytes
  import opened TgNumbers
  import opened TgLines
  import opened Telegram
  import opened TgRoundTrip
  import opened TgReference

  // ---------------------------------------------------------------------
  // Line ends
  // ---------------------------------------------------------------------

  /** The text with every LF written as `end`. */
  function Framed(s: bytes, end: bytes): bytes {
    if s == [] then []
    else if s[0] == 10 then end + Framed(s[1..], end)
    else [s[0]] + Framed(s[1..], end)
  }

  predicate LineEnding(end: bytes) {
    end == [10] || end == [13] || end == [13, 10]
  }

  /** A single CR at the end of the text takes an LF that comes behind it with it. */
  function Swallowed(end: bytes, trailing: bytes): bytes {
    if end == [13] && trailing != [] && trailing[0] == 10 then trailing[1..] else trailing
  }

  lemma {:induction false} FramedConcat(a: bytes, b: bytes, end: bytes)
    ensures Framed(a + b, end) == Framed(a, end) + Framed(b, end)
  {
    hide Framed;
    FramedStep(a, end);
    if a == [] {
      assert a + b == b && [] + Framed(b, end) == Framed(b, end);
    } else {
      assert (a + b)[1..] == a[1..] + b && (a + b)[0] == a[0];
      FramedStep(a + b, end);
      FramedConcat(a[1..], b, end);
      Regroup(if a[0] == 10 then end else [a[0]], Framed(a[1..], end), Framed(b, end));
    }
  }

  lemma FramedStep(s: bytes, end: bytes)
    ensures Framed(s, end) == if s == [] then [] else (if s[0] == 10 then end else [s[0]]) + Framed(s[1..], end)
  {
  }

  lemma {:induction false} FramedLine(l: bytes, end: bytes)
    requires 10 !in l
    ensures Framed(l, end) == l
  {
    if l != [] {
      FramedLine(l[1..], end);
    }
  }

  lemma FramedEnd(end: bytes)
    ensures Framed([10], end) == end
  {
    assert [10][1..] == [];
    assert end + [] == end;
  }

  lemma {:induction false} FirstEndAt(l: bytes, rest: bytes)
    requires 10 !in l && 13 !in l && rest != [] && (rest[0] == 10 || rest[0] == 13)
    ensures FirstEnd(l + rest) == |l|
  {
    if l == [] {
      assert l + rest == rest;
    } else {
      assert (l + rest)[1..] == l[1..] + rest && (l + rest)[0] == l[0];
      assert l[0] in l;
      FirstEndAt(l[1..], rest);
    }
  }

  /** A line with any of the three ends is read as that line. */
  lemma OneLineRead(l: bytes, end: bytes, rest: bytes)
    requires 10 !in l && 13 !in l && LineEnding(end)
    requires end == [13] ==> rest == [] || rest[0] != 10
    ensures RawLines(l + end + rest) == [l] + RawLines(rest)
  {
    var d := l + end + rest;
    assert d == l + (end + rest);
    FirstEndAt(l, end + rest);
    hide FirstEnd;
    assert d[|l|] == end[0] && d[..|l|] == l;
    assert d[|l| + |end|..] == rest;
    if |l| + 1 < |d| {
      assert d[|l| + 1] == if |end| == 2 then 10 else rest[0];
    }
  }

  predicate EndedText(s: bytes) {
    s == [] || s[|s| - 1] == 10
  }

  lemma LastEnds(s: bytes)
    requires EndedText(s) && s != []
    ensures Find(s, 10) < |s|
  {
  }

  lemma FramedSplit(l: bytes, tail: bytes, end: bytes)
    requires 10 !in l
    ensures Framed(l + [10] + tail, end) == l + end + Framed(tail, end)
  {
    hide Framed;
    FramedConcat(l + [10], tail, end);
    FramedConcat(l, [10], end);
    FramedLine(l, end);
    FramedEnd(end);
  }

  lemma FramedStart(s: bytes, end: bytes)
    requires s != [] && LineEnding(end)
    ensures Framed(s, end) != [] && (end == [13] ==> Framed(s, end)[0] != 10)
  {
  }

  lemma FramedLast(l: bytes, end: bytes, trailing: bytes)
    requires 10 !in l && 13 !in l && LineEnding(end)
    ensures RawLines(l + end + trailing) == [l] + RawLines(Swallowed(end, trailing))
  {
    hide RawLines;
    var more := Swallowed(end, trailing);
    if more == trailing {
      OneLineRead(l, end, trailing);
    } else {
      OneLineRead(l, [13, 10], more);
      assert l + end + trailing == l + [13, 10] + more;
    }
  }

  lemma FramedMore(l: bytes, tail: bytes, end: bytes, trailing: bytes)
    requires 10 !in l && 13 !in l && LineEnding(end) && tail != []
    ensures RawLines(l + end + Framed(tail, end) + trailing) == [l] + RawLines(Framed(tail, end) + trailing)
  {
    FramedStart(tail, end);
    hide RawLines, Framed;
    OneLineRead(l, end, Framed(tail, end) + trailing);
    assert l + end + Framed(tail, end) + trailing == l + end + (Framed(tail, end) + trailing);
  }

  /** Text without CR has the same lines under all three ends. */
  lemma {:induction false} FramedLines(s: bytes, end: bytes, trailing: bytes)
    requires 13 !in s && EndedText(s) && s != [] && LineEnding(end)
    ensures RawLines(Framed(s, end) + trailing) == RawLines(s + Swallowed(end, trailing))
    decreases |s|
  {
    var l, tail := TakeLine(s);
    var more := Swallowed(end, trailing);
    hide RawLines, Framed, Swallowed, LineEnding;
    FramedSplit(l, tail, end);
    PlainLineRead(l, tail + more);
    Regroup(l + [10], tail, more);
    if tail != [] {
      FramedMore(l, tail, end, trailing);
      FramedLines(tail, end, trailing);
    } else {
      FramedLast(l, end, trailing);
      FramedNothing(end);
      assert l + end + [] == l + end && tail + more == more;
    }
  }

  lemma TakeLine(s: bytes) returns (l: bytes, tail: bytes)
    requires 13 !in s && EndedText(s) && s != []
    ensures s == l + [10] + tail && 10 !in l && 13 !in l && 13 !in tail && EndedText(tail) && |tail| < |s|
  {
    LastEnds(s);
    var i := Find(s, 10);
    SplitAt(s, i);
    l, tail := s[..i], s[i + 1..];
    assert forall k :: 0 <= k < |l| ==> l[k] == s[k];
    assert forall k :: 0 <= k < |tail| ==> tail[k] == s[i + 1 + k];
  }

  lemma PlainLineRead(l: bytes, rest: bytes)
    requires 10 !in l && 13 !in l
    ensures RawLines(l + [10] + rest) == [l] + RawLines(rest)
  {
    OneLineRead(l, [10], rest);
  }

  lemma FramedNothing(end: bytes)
    ensures Framed([], end) == []
  {
  }

  lemma WireIsEnded(m: Message)
    requires Sendable(m)
    ensures EndedText(WireOf(m)) && WireOf(m) != []
  {
    hide Header, Meta, Request, SafeBody, BodyOk, FieldOk;
  }

  lemma WireHasNoCr(m: Message)
    requires Sendable(m)
    ensures 13 !in WireOf(m)
  {
    match m
    case Text(receiver, sender, sn, timestamp, body) =>
      MetaPlain(sn, timestamp);
      hide Meta, Lines, NoRecordEnd;
    case Cmd(receiver, sender, from, to, _) =>
      RequestPlain(from, to);
      hide Request;
  }

  /** A sendable telegram is decoded whether its lines end in LF, in CR LF or in CR, and
      whatever bytes follow it. */
  lemma FramedRoundTrip(m: Message, end: bytes, trailing: bytes)
    requires Sendable(m) && LineEnding(end)
    ensures Decode(Framed(WireOf(m), end) + trailing) == Some(m)
  {
    hide Decode, RawLines, RecordOfLines, WireOf, Sendable, Framed;
    WireIsEnded(m);
    WireHasNoCr(m);
    FramedLines(WireOf(m), end, trailing);
    DecodeByLines(Framed(WireOf(m), end) + trailing);
    DecodeByLines(WireOf(m) + Swallowed(end, trailing));
    Received(m, Swallowed(end, trailing));
  }

  /** As it reads with CR LF, and with CR. */
  lemma CrLfRoundTrip(m: Message, trailing: bytes)
    requires Sendable(m)
    ensures Decode(Framed(WireOf(m), [13, 10]) + trailing) == Some(m)
    ensures Decode(Framed(WireOf(m), [13]) + trailing) == Some(m)
  {
    FramedRoundTrip(m, [13, 10], trailing);
    FramedRoundTrip(m, [13], trailing);
  }

  // ---------------------------------------------------------------------
  // What is written
  // ---------------------------------------------------------------------

  function Decimal(k: int): (b: byte)
    requires 0 <= k <= 9
    ensures b as int == 48 + k
  {
    (48 + k) as byte
  }

  /** A serial in four digits. */
  function FourDigits(sn: int): bytes
    requires 0 <= sn <= 9999
  {
    [Decimal(sn / 1000), Decimal(sn / 100 % 10), Decimal(sn / 10 % 10), Decimal(sn % 10)]
  }

  lemma DigitsUnfold(n: nat)
    ensures Digits(n) == if n < 10 then [Decimal(n)] else Digits(n / 10) + [Decimal(n % 10)]
  {
  }

  lemma SerialDigits(sn: int)
    requires 1 <= sn <= 999
    ensures Show4(sn) == FourDigits(sn)
  {
    hide Digits;
    DigitsUnfold(sn);
    DigitsUnfold(sn / 10);
    DigitsUnfold(sn / 100);
    assert Zeros(1) == [48] && Zeros(2) == [48, 48] && Zeros(3) == [48, 48, 48];
    assert sn / 10 / 10 == sn / 100;
  }

  /** Decimal notation without a plus sign and without leading zeros. */
  lemma {:induction false} DigitsAreCanonical(n: nat)
    ensures Digits(n)[0] == 48 <==> n == 0
    ensures n == 0 ==> |Digits(n)| == 1
  {
    if 10 <= n {
      DigitsAreCanonical(n / 10);
    }
  }

  lemma NumbersAreCanonical(v: int)
    ensures ShowInt(v)[0] == 45 <==> v < 0
    ensures v < 0 ==> ShowInt(v)[1..] == ShowInt(-v)
    ensures 0 <= v ==> AllDigits(ShowInt(v)) && (ShowInt(v)[0] == 48 ==> ShowInt(v) == [48])
  {
    hide Digits;
    DigitsAreCanonical(if v < 0 then -v else v);
  }

  /** A TEXT record, byte by byte. */
  lemma TextWireIs(receiver: bytes, sender: bytes, sn: int, timestamp: int64, body: bytes)
    requires 1 <= sn <= 999
    ensures TextWire(receiver, sender, sn, timestamp, body)
         == [90, 67, 90, 67, 32, 84, 69, 88, 84, 10] + receiver + [10] + sender + [10]
            + FourDigits(sn) + [32] + ShowInt(timestamp) + [10] + body + [78, 78, 78, 78, 10]
  {
    SerialDigits(sn);
    hide Show4, ShowInt, FourDigits;
  }

  /** A request, byte by byte. */
  lemma CmdWireIs(receiver: bytes, sender: bytes, from: int, to: int)
    ensures CmdWire(receiver, sender, from, to)
         == [90, 67, 90, 67, 32, 67, 77, 68, 10] + receiver + [10] + sender + [10]
            + [82, 58] + ShowInt(from) + [45] + ShowInt(to) + [10] + [78, 78, 78, 78, 10]
  {
    hide ShowInt;
  }

  // ---------------------------------------------------------------------
  // What is refused
  // ---------------------------------------------------------------------

  /** One to 127 bytes without a line end. */
  predicate GoodField(f: Option<CString>) {
    f.Some? && 1 <= |f.value| <= 127 && 10 !in f.value && 13 !in f.value
  }

  /** Four letters N stand before a line end or at the end of the text. */
  predicate EndsAt(s: bytes, i: nat) {
    i + 4 <= |s| && s[i..i + 4] == [78, 78, 78, 78] && (i + 4 == |s| || s[i + 4] == 10)
  }

  lemma EndsRecordIff(l: bytes)
    requires 10 !in l
    ensures EndsRecord(l) <==> exists i: nat :: EndsAt(l, i)
  {
    if i: nat :| EndsAt(l, i) {
      assert forall k :: 0 <= k < |l| ==> l[k] != 10;
      assert l[|l| - 4..] == l[i..i + 4];
    }
    if EndsRecord(l) {
      assert l[|l| - 4..|l|] == l[|l| - 4..];
      assert EndsAt(l, |l| - 4);
    }
  }

  lemma LettersInside(s: bytes, i: nat, k: nat)
    requires EndsAt(s, i) && i <= k < i + 4
    ensures s[k] == 78
  {
    assert s[i..i + 4][k - i] == s[k];
  }

  /** The first line and the rest hold what the whole holds. */
  lemma EndsAtSplit(l: bytes, tail: bytes)
    requires 10 !in l
    ensures (exists i: nat :: EndsAt(l + [10] + tail, i)) <==>
              (exists i: nat :: EndsAt(l, i)) || exists i: nat :: EndsAt(tail, i)
  {
    var s := l + [10] + tail;
    assert s[|l|] == 10;
    if i: nat :| EndsAt(s, i) {
      if i + 4 <= |l| {
        assert s[i..i + 4] == l[i..i + 4];
        assert forall k :: 0 <= k < |l| ==> l[k] != 10 && s[k] == l[k];
        assert EndsAt(l, i);
      } else if i <= |l| {
        LettersInside(s, i, |l|);
      } else {
        var j := i - |l| - 1;
        assert s[i..i + 4] == tail[j..j + 4];
        assert EndsAt(tail, j);
      }
    }
    if i: nat :| EndsAt(l, i) {
      assert forall k :: 0 <= k < |l| ==> l[k] != 10;
      assert s[i..i + 4] == l[i..i + 4] && s[|l|] == 10;
      assert EndsAt(s, i);
    }
    if i: nat :| EndsAt(tail, i) {
      var j := |l| + 1 + i;
      assert s[j..j + 4] == tail[i..i + 4];
      assert EndsAt(s, j);
    }
  }

  /** A body is refused exactly when NNNN stands at the end of one of its lines. */
  lemma {:induction false} BodyOkIff(s: bytes)
    ensures NoRecordEnd(Lines(s)) <==> !exists i: nat :: EndsAt(s, i)
    decreases |s|
  {
    LinesCases(s);
    hide Lines, EndsRecord, EndsAt, Find;
    var i := Find(s, LF);
    if i == |s| {
      EndsRecordIff(s);
      assert [s][0] == s;
    } else {
      var l, tail := s[..i], s[i + 1..];
      EndsRecordIff(l);
      BodyOkIff(tail);
      EndsAtSplit(l, tail);
      var ls := [l] + Lines(tail);
      assert ls[0] == l;
      assert forall k :: 0 <= k < |Lines(tail)| ==> Lines(tail)[k] == ls[k + 1];
    }
  }

  /** Encoding a TEXT telegram, exactly: which ones are refused, and why. */
  lemma EncodeTextExactly(room: nat, receiver: Option<CString>, sender: Option<CString>, sn: int, timestamp: int64,
                          body: Option<CString>)
    ensures var e := EncodeText(room, receiver, sender, sn, timestamp, body);
            var text := if body.None? then [] else body.value;
            var fields := GoodField(receiver) && GoodField(sender);
            var good := !exists i: nat :: EndsAt(text, i);
            && (e == ErrArg <==> room == 0)
            && (e == ErrRange <==> room != 0 && fields && !(1 <= sn <= 999))
            && (e == ErrFormat <==> room != 0 && (!fields || (1 <= sn <= 999 && !good)))
            && (room != 0 && fields && 1 <= sn <= 999 && good ==>
                  var wire := TextWire(receiver.value, sender.value, sn, timestamp, text);
                  e == if |wire| < room then Wire(wire) else ErrTooSmall)
  {
    BodyOkIff(if body.None? then [] else body.value);
    EmptyBodySafe();
    hide TextWire, EndsAt, Lines, NoRecordEnd;
  }

  lemma EncodeCmdExactly(room: nat, receiver: Option<CString>, sender: Option<CString>, from: int, to: int)
    ensures var e := EncodeCmd(room, receiver, sender, from, to);
            var fields := GoodField(receiver) && GoodField(sender);
            var range := 1 <= from <= 999 && 1 <= to <= 999;
            && (e == ErrArg <==> room == 0)
            && (e == ErrFormat <==> room != 0 && !fields)
            && (e == ErrRange <==> room != 0 && fields && !range)
            && (room != 0 && fields && range ==>
                  var wire := CmdWire(receiver.value, sender.value, from, to);
                  e == if |wire| < room then Wire(wire) else ErrTooSmall)
  {
    hide CmdWire;
  }
}
