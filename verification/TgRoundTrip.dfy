/** Which telegrams survive encoding and decoding: exactly the safe ones. */
module TgRoundTrip {
  import opened Bytes
  import opened Serials
  import opened TgNumbers
  import opened TgLines
  import opened Telegram

  const LINE_MAX := LINE_SIZE - 1

  /** Line lengths the decoder's buffer leaves whole; the last line shares it with
      the terminator. */
  predicate LinesFit(ls: seq<bytes>) {
    && (forall i :: 0 <= i < |ls| - 1 ==> |ls[i]| <= LINE_MAX)
    && (0 < |ls| ==> |ls[|ls| - 1]| <= LINE_MAX - 4)
  }

  /** The bodies that survive: no CR, short enough, and made of lines that fit. */
  predicate SafeBody(body: bytes) {
    CR !in body && |body| <= TG_BODY_MAX - 2 && LinesFit(Lines(body))
  }

  // ---------------------------------------------------------------------
  // The header
  // ---------------------------------------------------------------------

  predicate PlainLine(l: bytes) {
    LF !in l && CR !in l && NUL !in l && |l| <= LINE_MAX
  }

  lemma DigitsPlain(s: bytes)
    requires AllDigits(s)
    ensures LF !in s && CR !in s && NUL !in s
  {
  }

  lemma ShowIntPlain(v: int)
    ensures LF !in ShowInt(v) && CR !in ShowInt(v) && NUL !in ShowInt(v)
  {
    hide Digits;
    DigitsPlain(Digits(if v < 0 then -v else v));
  }

  lemma ShowIntBound(v: int64)
    ensures |ShowInt(v)| <= 20
  {
    hide Digits, Power10;
    var w: int := v;
    assert Power10(19) == 10000000000000000000 by { PowerOfTen(); }
    DigitsBound(if w < 0 then -w else w, 19, Power10(19));
  }

  lemma PowerOfTen()
    ensures Power10(19) == 10000000000000000000
    ensures Power10(4) == 10000
  {
    assert Power10(5) == 100000;
    assert Power10(10) == 10000000000;
    assert Power10(15) == 1000000000000000;
  }

  lemma Show4Bound(n: nat)
    requires n < 10000
    ensures |Show4(n)| == 4
  {
    hide Digits, Power10;
    PowerOfTen();
    DigitsBound(n, 4, Power10(4));
  }

  lemma MetaPlain(sn: nat, timestamp: int64)
    requires sn < 10000
    ensures PlainLine(Meta(sn, timestamp)) && |Meta(sn, timestamp)| <= 25
  {
    hide ShowInt, Show4;
    DigitsPlain(Show4(sn));
    Show4Bound(sn);
    ShowIntPlain(timestamp);
    ShowIntBound(timestamp);
  }

  lemma RequestPlain(from: int, to: int)
    requires SnValid(from) && SnValid(to)
    ensures PlainLine(Request(from, to)) && |Request(from, to)| <= 43
  {
    hide ShowInt;
    ShowIntPlain(from);
    ShowIntPlain(to);
    ShowIntBound(from);
    ShowIntBound(to);
  }

  /** A plain line is read whole. */
  lemma WholeLineRead(pre: bytes, l: bytes, rest: bytes)
    requires PlainLine(l)
    ensures ReadLine(pre + l + [LF] + rest, |pre|, LINE_SIZE) == Some(Line(l, true, |pre| + |l| + 1))
    ensures WholeLine(pre + l + [LF] + rest, |pre|) == Some(Line(l, true, |pre| + |l| + 1))
  {
    ReadsLine(pre, l, rest, LINE_SIZE);
  }

  /** The four header lines come back one by one. */
  lemma HeaderRead(head: bytes, receiver: bytes, sender: bytes, meta: bytes, rest: bytes)
    requires PlainLine(head) && PlainLine(receiver) && PlainLine(sender) && PlainLine(meta)
    ensures var d := Header(head, receiver, sender, meta) + rest;
            var p1 := |head| + 1; var p2 := p1 + |receiver| + 1; var p3 := p2 + |sender| + 1;
            && |Header(head, receiver, sender, meta)| == p3 + |meta| + 1
            && WholeLine(d, 0) == Some(Line(head, true, p1))
            && WholeLine(d, p1) == Some(Line(receiver, true, p2))
            && WholeLine(d, p2) == Some(Line(sender, true, p3))
            && WholeLine(d, p3) == Some(Line(meta, true, p3 + |meta| + 1))
  {
    hide WholeLine, ReadLine, PlainLine;
    var d := Header(head, receiver, sender, meta) + rest;
    var r1 := receiver + [LF] + sender + [LF] + meta + [LF] + rest;
    WholeLineRead([], head, r1);
    assert d == [] + head + [LF] + r1;
    var pre1 := head + [LF];
    var r2 := sender + [LF] + meta + [LF] + rest;
    WholeLineRead(pre1, receiver, r2);
    assert d == pre1 + receiver + [LF] + r2;
    var pre2 := pre1 + receiver + [LF];
    WholeLineRead(pre2, sender, meta + [LF] + rest);
    assert d == pre2 + sender + [LF] + (meta + [LF] + rest);
    var pre3 := pre2 + sender + [LF];
    WholeLineRead(pre3, meta, rest);
    assert d == pre3 + meta + [LF] + rest;
  }

  lemma MetaRead(sn: int, timestamp: int64)
    requires SnValid(sn)
    ensures ReadMeta(Meta(sn, timestamp)) == Some((sn, timestamp))
  {
    hide Strtol, ShowInt, Show4;
    var a, b := Show4(sn), ShowInt(timestamp);
    var line := Meta(sn, timestamp);
    NumberRoundTrip(timestamp, sn, [SPACE] + b);
    NumberRoundTrip(timestamp, sn, []);
    assert line == a + ([SPACE] + b);
    assert line[|a| + 1..] == b + [];
    NarrowKeeps(sn);
  }

  lemma RequestRead(from: int, to: int)
    requires SnValid(from) && SnValid(to)
    ensures ReadRequest(Request(from, to)) == Some((from, to))
  {
    hide Strtol, ShowInt;
    var a, b := ShowInt(from), ShowInt(to);
    var line := Request(from, to);
    NumberRoundTrip(from, 0, [MINUS] + b);
    NumberRoundTrip(to, 0, []);
    assert line[2..] == a + ([MINUS] + b);
    assert line[2 + |a| + 1..] == b + [];
    NarrowKeeps(from);
    NarrowKeeps(to);
  }

  lemma FieldPlain(f: Option<CString>)
    requires FieldOk(f)
    ensures PlainLine(f.value)
  {
  }

  // ---------------------------------------------------------------------
  // The body
  // ---------------------------------------------------------------------

  /** One line of the body read. */
  lemma DecodeStep(d: bytes, pos: nat, acc: bytes, l: bytes, next: nat)
    requires pos < next <= |d| && ReadLine(d, pos, LINE_SIZE) == Some(Line(l, true, next))
    ensures EndsRecord(l) && |acc| + |l| - 4 + 1 < TG_BODY_MAX ==>
              DecodeBody(d, pos, acc) == Some(acc + l[..|l| - 4])
    ensures !EndsRecord(l) && |acc| + |l| + 1 < TG_BODY_MAX ==>
              DecodeBody(d, pos, acc) == DecodeBody(d, next, acc + l + [LF])
  {
    hide ReadLine;
  }

  lemma TerminatedLine(l: bytes)
    requires LF !in l && CR !in l && NUL !in l && |l| <= LINE_MAX - 4
    ensures EndsRecord(l + TERMINATOR) && (l + TERMINATOR)[..|l|] == l
    ensures PlainLine(l + TERMINATOR)
  {
  }

  /** The last line and the terminator are one line of the record. */
  lemma LastLineDecodes(pre: bytes, l: bytes, rest: bytes, acc: bytes)
    requires LF !in l && CR !in l && NUL !in l && |l| <= LINE_MAX - 4
    requires |acc| + |l| <= TG_BODY_MAX - 2
    ensures DecodeBody(pre + (l + TERMINATOR) + [LF] + rest, |pre|, acc) == Some(acc + l)
  {
    var line := l + TERMINATOR;
    TerminatedLine(l);
    hide ReadLine, DecodeBody, EndsRecord, PlainLine;
    WholeLineRead(pre, line, rest);
    DecodeStep(pre + line + [LF] + rest, |pre|, acc, line, |pre| + |line| + 1);
  }

  lemma LineDecodes(pre: bytes, l: bytes, rest: bytes, acc: bytes)
    requires PlainLine(l) && !EndsRecord(l) && |acc| + |l| + 1 < TG_BODY_MAX
    ensures DecodeBody(pre + l + [LF] + rest, |pre|, acc)
         == DecodeBody(pre + l + [LF] + rest, |pre + l + [LF]|, acc + l + [LF])
  {
    hide ReadLine, DecodeBody, EndsRecord;
    WholeLineRead(pre, l, rest);
    DecodeStep(pre + l + [LF] + rest, |pre|, acc, l, |pre| + |l| + 1);
  }

  lemma TailLines(l: bytes, tail: bytes)
    requires LF !in l
    ensures var ls, rest := Lines(l + [LF] + tail), Lines(tail);
            |ls| == |rest| + 1 && ls[0] == l && forall i :: 0 <= i < |rest| ==> rest[i] == ls[i + 1]
  {
    LinesCons(l, tail);
    hide Lines;
  }

  lemma TailBytes(l: bytes, tail: bytes, b: byte)
    requires b !in l + [LF] + tail
    ensures b !in l && b !in tail
  {
    var body := l + [LF] + tail;
    assert forall i :: 0 <= i < |l| ==> l[i] == body[i];
    assert forall i :: 0 <= i < |tail| ==> tail[i] == body[|l| + 1 + i];
  }

  lemma SafeTail(l: bytes, tail: bytes)
    requires LF !in l && SafeBody(l + [LF] + tail) && NoRecordEnd(Lines(l + [LF] + tail))
    requires NUL !in l + [LF] + tail
    ensures CR !in l && NUL !in l && |l| <= LINE_MAX && !EndsRecord(l)
    ensures NUL !in tail && SafeBody(tail) && NoRecordEnd(Lines(tail))
  {
    hide Lines, EndsRecord;
    TailLines(l, tail);
    TailBytes(l, tail, CR);
    TailBytes(l, tail, NUL);
  }

  lemma RegroupLine(pre: bytes, l: bytes, tail: bytes, trailing: bytes)
    ensures pre + ((l + [LF] + tail) + TERMINATOR + [LF] + trailing)
         == pre + l + [LF] + (tail + TERMINATOR + [LF] + trailing)
  {
  }

  lemma RegroupLast(pre: bytes, l: bytes, trailing: bytes)
    ensures pre + (l + TERMINATOR + [LF] + trailing) == pre + (l + TERMINATOR) + [LF] + trailing
  {
  }

  /** A safe body is read back line by line; what follows the terminator is not
      looked at. */
  lemma {:induction false} BodyDecodes(pre: bytes, body: bytes, trailing: bytes, acc: bytes)
    requires NUL !in body && SafeBody(body) && NoRecordEnd(Lines(body)) && |acc| + |body| <= TG_BODY_MAX - 2
    ensures DecodeBody(pre + (body + TERMINATOR + [LF] + trailing), |pre|, acc) == Some(acc + body)
    decreases |body|
  {
    LinesCases(body);
    hide DecodeBody, Lines, EndsRecord, Find;
    var i := Find(body, LF);
    if i == |body| {
      assert Lines(body)[0] == body;
      RegroupLast(pre, body, trailing);
      LastLineDecodes(pre, body, trailing, acc);
    } else {
      var l, tail := body[..i], body[i + 1..];
      hide SafeBody, NoRecordEnd;
      SafeTail(l, tail);
      LineDecodes(pre, l, tail + TERMINATOR + [LF] + trailing, acc);
      BodyDecodes(pre + l + [LF], tail, trailing, acc + l + [LF]);
      RegroupLine(pre, l, tail, trailing);
      Reassociate(acc, l, tail);
    }
  }

  // ---------------------------------------------------------------------
  // Whole records
  // ---------------------------------------------------------------------

  /** Decoding anything that starts with the header of a TEXT record. */
  lemma TextHeaderDecodes(receiver: bytes, sender: bytes, sn: int, timestamp: int64, rest: bytes)
    requires PlainLine(receiver) && 0 < |receiver| < TG_FIELD_MAX
    requires PlainLine(sender) && 0 < |sender| < TG_FIELD_MAX && SnValid(sn)
    ensures var h := Header(TEXT_HEAD, receiver, sender, Meta(sn, timestamp));
            var body := DecodeBody(h + rest, |h|, []);
            Decode(h + rest) == if body.None? then None
                                else Some(Text(receiver, sender, sn, timestamp, body.value))
  {
    hide DecodeBody, ReadMeta, Meta, Header, WholeLine;
    MetaPlain(sn, timestamp);
    MetaRead(sn, timestamp);
    HeaderRead(TEXT_HEAD, receiver, sender, Meta(sn, timestamp), rest);
  }

  lemma CmdHeaderDecodes(receiver: bytes, sender: bytes, from: int, to: int, rest: bytes)
    requires PlainLine(receiver) && 0 < |receiver| < TG_FIELD_MAX
    requires PlainLine(sender) && 0 < |sender| < TG_FIELD_MAX && SnValid(from) && SnValid(to)
    ensures var h := Header(CMD_HEAD, receiver, sender, Request(from, to));
            var body := DecodeBody(h + rest, |h|, []);
            Decode(h + rest) == if body.None? then None
                                else Some(Cmd(receiver, sender, from, to, body.value))
  {
    hide DecodeBody, ReadRequest, Request, Header, WholeLine;
    RequestPlain(from, to);
    RequestRead(from, to);
    HeaderRead(CMD_HEAD, receiver, sender, Request(from, to), rest);
  }

  /** A safe TEXT telegram decodes to itself, whatever bytes follow it. */
  lemma TextRoundTrip(receiver: bytes, sender: bytes, sn: int, timestamp: int64, body: bytes, trailing: bytes)
    requires PlainLine(receiver) && 0 < |receiver| < TG_FIELD_MAX
    requires PlainLine(sender) && 0 < |sender| < TG_FIELD_MAX && SnValid(sn)
    requires NUL !in body && SafeBody(body) && NoRecordEnd(Lines(body))
    ensures Decode(TextWire(receiver, sender, sn, timestamp, body) + trailing)
         == Some(Text(receiver, sender, sn, timestamp, body))
  {
    assert |body| <= TG_BODY_MAX - 2;
    hide Decode, DecodeBody, Header, Meta, SafeBody, NoRecordEnd, Lines, PlainLine;
    var h := Header(TEXT_HEAD, receiver, sender, Meta(sn, timestamp));
    TextHeaderDecodes(receiver, sender, sn, timestamp, body + TERMINATOR + [LF] + trailing);
    BodyDecodes(h, body, trailing, []);
    AppendTrailing(h, body, trailing);
  }

  lemma AppendTrailing(h: bytes, body: bytes, trailing: bytes)
    ensures h + (body + TERMINATOR + [LF]) + trailing == h + (body + TERMINATOR + [LF] + trailing)
    ensures [] + body == body
  {
  }

  lemma CmdDecodes(receiver: bytes, sender: bytes, from: int, to: int, trailing: bytes)
    requires PlainLine(receiver) && 0 < |receiver| < TG_FIELD_MAX
    requires PlainLine(sender) && 0 < |sender| < TG_FIELD_MAX && SnValid(from) && SnValid(to)
    ensures Decode(CmdWire(receiver, sender, from, to) + trailing) == Some(Cmd(receiver, sender, from, to, []))
  {
    EmptyBodySafe();
    hide Decode, DecodeBody, Header, Request, SafeBody, NoRecordEnd, Lines, PlainLine;
    var h := Header(CMD_HEAD, receiver, sender, Request(from, to));
    var empty: bytes := [];
    var rest := empty + TERMINATOR + [LF] + trailing;
    CmdHeaderDecodes(receiver, sender, from, to, rest);
    BodyDecodes(h, empty, trailing, empty);
    assert empty + empty == [];
    assert CmdWire(receiver, sender, from, to) + trailing == h + rest;
  }

  /** Every accepted request decodes to itself, whatever bytes follow it. */
  lemma CmdRoundTrip(room: nat, receiver: Option<CString>, sender: Option<CString>, from: int, to: int,
                     trailing: bytes)
    requires EncodeCmd(room, receiver, sender, from, to).Wire?
    ensures Decode(EncodeCmd(room, receiver, sender, from, to).data + trailing)
         == Some(Cmd(receiver.value, sender.value, from, to, []))
  {
    FieldPlain(receiver);
    FieldPlain(sender);
    hide Decode, CmdWire, PlainLine;
    CmdDecodes(receiver.value, sender.value, from, to, trailing);
  }

  lemma EmptyBodySafe()
    ensures SafeBody([]) && NoRecordEnd(Lines([]))
  {
    LinesLast([]);
  }

  // ---------------------------------------------------------------------
  // What the decoder can produce
  // ---------------------------------------------------------------------

  lemma SafeCons(l: bytes, tail: bytes)
    requires PlainLine(l) && NUL !in tail && CR !in tail && LinesFit(Lines(tail))
    ensures NUL !in l + [LF] + tail && CR !in l + [LF] + tail && LinesFit(Lines(l + [LF] + tail))
  {
    hide Lines;
    TailLines(l, tail);
    var ls, rest := Lines(l + [LF] + tail), Lines(tail);
    assert forall i :: 1 <= i < |ls| ==> ls[i] == rest[i - 1];
  }

  lemma KeptLine(l: bytes)
    requires PlainLine(l) && EndsRecord(l)
    ensures var keep := l[..|l| - 4];
            NUL !in keep && CR !in keep && LF !in keep && LinesFit(Lines(keep))
  {
    var keep := l[..|l| - 4];
    assert forall i :: 0 <= i < |keep| ==> keep[i] == l[i];
    LinesLast(keep);
  }

  lemma DecodedStep(d: bytes, pos: nat, acc: bytes)
    requires pos <= |d| && DecodeBody(d, pos, acc).Some?
    ensures ReadLine(d, pos, LINE_SIZE).Some?
    ensures EndsRecord(ReadLine(d, pos, LINE_SIZE).value.text) ==> 4 <= |ReadLine(d, pos, LINE_SIZE).value.text|
    ensures var l := ReadLine(d, pos, LINE_SIZE).value;
            if EndsRecord(l.text)
            then DecodeBody(d, pos, acc) == Some(acc + l.text[..|l.text| - 4]) &&
                 |acc| + |l.text| - 4 <= TG_BODY_MAX - 2
            else DecodeBody(d, pos, acc) == DecodeBody(d, l.next, acc + l.text + [LF])
  {
    hide ReadLine;
  }

  lemma Reassociate(acc: bytes, l: bytes, tail: bytes)
    ensures acc + l + [LF] + tail == acc + (l + [LF] + tail)
  {
  }

  /** The part of the body read from pos on. */
  lemma {:induction false} DecodedIsSafe(d: bytes, pos: nat, acc: bytes) returns (more: bytes)
    requires pos <= |d| && DecodeBody(d, pos, acc).Some?
    ensures DecodeBody(d, pos, acc) == Some(acc + more)
    ensures |acc| + |more| <= TG_BODY_MAX - 2
    ensures NUL !in more && CR !in more && LinesFit(Lines(more))
    decreases |d| - pos
  {
    DecodedStep(d, pos, acc);
    ReadIsPlain(d, pos, LINE_SIZE);
    hide ReadLine, Lines, LinesFit, DecodeBody, EndsRecord;
    var l := ReadLine(d, pos, LINE_SIZE).value;
    if EndsRecord(l.text) {
      more := l.text[..|l.text| - 4];
      KeptLine(l.text);
    } else {
      var tail := DecodedIsSafe(d, l.next, acc + l.text + [LF]);
      more := l.text + [LF] + tail;
      SafeCons(l.text, tail);
      Reassociate(acc, l.text, tail);
    }
  }

  lemma DecodedFields(raw: bytes)
    requires Decode(raw).Some?
    ensures var m := Decode(raw).value;
            && NUL !in m.receiver && NUL !in m.sender && SnValid(m.sn)
            && FieldOk(Some(m.receiver)) && FieldOk(Some(m.sender))
            && (m.Cmd? ==> SnValid(m.snTo))
  {
    hide Strtol, DecodeBody, ReadLine, Narrow;
    var kind := WholeLine(raw, 0).value;
    var receiver := FieldLine(raw, kind.next).value;
    ReadIsPlain(raw, kind.next, LINE_SIZE);
    ReadIsPlain(raw, receiver.next, LINE_SIZE);
  }

  lemma DecodedBody(raw: bytes)
    requires Decode(raw).Some?
    ensures NUL !in Decode(raw).value.body && SafeBody(Decode(raw).value.body)
  {
    hide Strtol, ReadMeta, ReadRequest, ReadLine, DecodeBody, LinesFit, Lines;
    var kind := WholeLine(raw, 0).value;
    var receiver := FieldLine(raw, kind.next).value;
    var sender := FieldLine(raw, receiver.next).value;
    var meta := WholeLine(raw, sender.next).value;
    var more := DecodedIsSafe(raw, meta.next, []);
    assert [] + more == more;
  }

  // ---------------------------------------------------------------------
  // Main results
  // ---------------------------------------------------------------------

  /** An accepted TEXT telegram survives encoding and decoding if and only if its
      body is safe: no CR, at most 1022 bytes, non-final lines of at most 143 bytes
      and a last line of at most 139. */
  lemma SurvivesIffSafe(room: nat, receiver: Option<CString>, sender: Option<CString>,
                        sn: int, timestamp: int64, body: Option<CString>, trailing: bytes)
    requires EncodeText(room, receiver, sender, sn, timestamp, body).Wire?
    ensures Decode(EncodeText(room, receiver, sender, sn, timestamp, body).data + trailing)
            == Some(Text(receiver.value, sender.value, sn, timestamp, BodyOf(body)))
       <==> SafeBody(BodyOf(body))
  {
    FieldPlain(receiver);
    FieldPlain(sender);
    EmptyBodySafe();
    hide Decode, SafeBody, Lines, NoRecordEnd, TextWire, PlainLine;
    var b := BodyOf(body);
    var raw := TextWire(receiver.value, sender.value, sn, timestamp, b) + trailing;
    if SafeBody(b) {
      TextRoundTrip(receiver.value, sender.value, sn, timestamp, b, trailing);
    }
    if Decode(raw) == Some(Text(receiver.value, sender.value, sn, timestamp, b)) {
      DecodedBody(raw);
    }
  }

  // ---------------------------------------------------------------------
  // Accepted telegrams that do not survive
  // ---------------------------------------------------------------------

  /** Short telegrams fit the buffer the relays encode into. */
  lemma ShortFits(body: CString)
    requires |body| <= 1000 && BodyOk(Some(body))
    ensures EncodeText(1400, Some([65]), Some([66]), 1, 0, Some(body)) == Wire(TextWire([65], [66], 1, 0, body))
  {
    hide Meta, BodyOk;
    MetaPlain(1, 0);
  }

  /** A body that is one CR is accepted and comes back as something else. */
  lemma CrIsLost(trailing: bytes)
    ensures var e := EncodeText(1400, Some([65]), Some([66]), 1, 0, Some([CR]));
            e.Wire? && Decode(e.data + trailing) != Some(Text([65], [66], 1, 0, [CR]))
  {
    LinesLast([CR]);
    ShortFits([CR]);
    SurvivesIffSafe(1400, Some([65]), Some([66]), 1, 0, Some([CR]), trailing);
  }

  /** n times the letter A. */
  function Letters(n: nat): (s: CString)
    ensures |s| == n && forall i :: 0 <= i < n ==> s[i] == 65
  {
    seq(n, _ => 65)
  }

  /** So is a last line of 140 bytes, which leaves the terminator no room. */
  lemma LongLineIsLost(trailing: bytes)
    ensures var e := EncodeText(1400, Some([65]), Some([66]), 1, 0, Some(Letters(LINE_MAX - 3)));
            e.Wire? && Decode(e.data + trailing) != Some(Text([65], [66], 1, 0, Letters(LINE_MAX - 3)))
  {
    var body := Letters(LINE_MAX - 3);
    LinesLast(body);
    assert body[|body| - 4..][0] == 65 && Lines(body)[0] == body;
    ShortFits(body);
    SurvivesIffSafe(1400, Some([65]), Some([66]), 1, 0, Some(body), trailing);
  }

  /** Encoding safe telegrams is injective, even as prefixes of a longer stream. */
  lemma EncodingInjective(m: Message, m': Message, trailing: bytes, trailing': bytes)
    requires Sendable(m) && Sendable(m')
    requires WireOf(m) + trailing == WireOf(m') + trailing'
    ensures m == m'
  {
    Received(m, trailing);
    Received(m', trailing');
  }

  /** The telegrams the relays exchange: accepted by the encoder and safe. */
  predicate Sendable(m: Message) {
    && NUL !in m.receiver && NUL !in m.sender && NUL !in m.body
    && FieldOk(Some(m.receiver)) && FieldOk(Some(m.sender)) && SnValid(m.sn)
    && match m
       case Text(_, _, _, _, body) => SafeBody(body) && BodyOk(Some(body))
       case Cmd(_, _, _, snTo, body) => SnValid(snTo) && body == []
  }

  function WireOf(m: Message): bytes
    requires Sendable(m)
  {
    match m
    case Text(receiver, sender, sn, timestamp, body) => TextWire(receiver, sender, sn, timestamp, body)
    case Cmd(receiver, sender, from, to, _) => CmdWire(receiver, sender, from, to)
  }

  lemma Received(m: Message, trailing: bytes)
    requires Sendable(m)
    ensures Decode(WireOf(m) + trailing) == Some(m)
  {
    FieldPlain(Some(m.receiver));
    FieldPlain(Some(m.sender));
    hide Decode, SafeBody, TextWire, CmdWire, PlainLine, Lines, NoRecordEnd;
    match m
    case Text(receiver, sender, sn, timestamp, body) =>
      TextRoundTrip(receiver, sender, sn, timestamp, body, trailing);
    case Cmd(receiver, sender, from, to, _) =>
      CmdRoundTrip(|CmdWire(receiver, sender, from, to)| + 1, Some(receiver), Some(sender), from, to, trailing);
  }

  /** Normal form: whatever decodes to a TEXT telegram, decodes to one that can be
      sent again, unless its last line still ends in the terminator; and sent again
      it decodes to exactly itself. */
  lemma DecodedIsNormal(raw: bytes, trailing: bytes)
    requires Decode(raw).Some? && Decode(raw).value.Text?
    ensures var m := Decode(raw).value;
            NUL !in m.body && (Sendable(m) <==> BodyOk(Some(m.body))) &&
            (Sendable(m) ==> Decode(WireOf(m) + trailing) == Some(m))
  {
    hide Decode, SafeBody, BodyOk, FieldOk;
    DecodedFields(raw);
    DecodedBody(raw);
    if Sendable(Decode(raw).value) {
      Received(Decode(raw).value, trailing);
    }
  }
}
