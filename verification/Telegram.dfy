/** The telegraph wire format on values: what is written, what is read. */
module Telegram {
  import opened Bytes
  import opened Serials
  import opened TgNumbers
  import opened TgLines

  const TG_FIELD_MAX := 128
  const TG_BODY_MAX := 1024
  const LINE_SIZE := TG_FIELD_MAX + 16

  const LETTER_R: byte := 82

  /** "ZCZC TEXT", "ZCZC CMD" and "NNNN" */
  const TEXT_HEAD: bytes := [90, 67, 90, 67, 32, 84, 69, 88, 84]
  const CMD_HEAD: bytes := [90, 67, 90, 67, 32, 67, 77, 68]
  const TERMINATOR: bytes := [78, 78, 78, 78]

  datatype Message =
    | Text(receiver: bytes, sender: bytes, sn: int, timestamp: int64, body: bytes)
    | Cmd(receiver: bytes, sender: bytes, sn: int, snTo: int, body: bytes)

  datatype Encoding = Wire(data: bytes) | ErrArg | ErrFormat | ErrRange | ErrTooSmall

  // ---------------------------------------------------------------------
  // Writing
  // ---------------------------------------------------------------------

  /** A field is non-empty, fits the field width and holds no line separator. */
  predicate FieldOk(f: Option<CString>) {
    f.Some? && 0 < |f.value| < TG_FIELD_MAX && LF !in f.value && CR !in f.value
  }

  predicate EndsRecord(line: bytes) {
    |line| >= 4 && line[|line| - 4..] == TERMINATOR
  }

  /** No line of the body may look like the end of the record. */
  predicate NoRecordEnd(ls: seq<bytes>) {
    forall i :: 0 <= i < |ls| ==> !EndsRecord(ls[i])
  }

  predicate BodyOk(body: Option<CString>) {
    body.Some? ==> NoRecordEnd(Lines(body.value))
  }

  function Meta(sn: nat, timestamp: int64): bytes {
    Show4(sn) + [SPACE] + ShowInt(timestamp)
  }

  function Request(from: int, to: int): bytes {
    [LETTER_R, COLON] + ShowInt(from) + [MINUS] + ShowInt(to)
  }

  function Header(head: bytes, receiver: bytes, sender: bytes, meta: bytes): bytes {
    head + [LF] + receiver + [LF] + sender + [LF] + meta + [LF]
  }

  function TextWire(receiver: bytes, sender: bytes, sn: nat, timestamp: int64, body: bytes): bytes {
    Header(TEXT_HEAD, receiver, sender, Meta(sn, timestamp)) + (body + TERMINATOR + [LF])
  }

  function CmdWire(receiver: bytes, sender: bytes, from: int, to: int): bytes {
    Header(CMD_HEAD, receiver, sender, Request(from, to)) + (TERMINATOR + [LF])
  }

  /** A buffer of `room` bytes holds the wire and its terminating NUL, or the encoder
      gives up. */
  function Fitted(wire: bytes, room: nat): Encoding {
    if |wire| + 1 <= room then Wire(wire) else ErrTooSmall
  }

  function BodyOf(body: Option<CString>): CString {
    if body.None? then [] else body.value
  }

  function EncodeText(room: nat, receiver: Option<CString>, sender: Option<CString>,
                      sn: int, timestamp: int64, body: Option<CString>): Encoding
  {
    if room == 0 then ErrArg
    else if !FieldOk(receiver) || !FieldOk(sender) then ErrFormat
    else if !SnValid(sn) then ErrRange
    else if !BodyOk(body) then ErrFormat
    else Fitted(TextWire(receiver.value, sender.value, sn, timestamp, BodyOf(body)), room)
  }

  function EncodeCmd(room: nat, receiver: Option<CString>, sender: Option<CString>, from: int, to: int): Encoding {
    if room == 0 then ErrArg
    else if !FieldOk(receiver) || !FieldOk(sender) then ErrFormat
    else if !SnValid(from) || !SnValid(to) then ErrRange
    else Fitted(CmdWire(receiver.value, sender.value, from, to), room)
  }

  // ---------------------------------------------------------------------
  // Reading
  // ---------------------------------------------------------------------

  /** The next line, refused when it did not fit the line buffer. */
  function WholeLine(d: bytes, pos: nat): (r: Option<Line>)
    requires pos <= |d|
    ensures r.Some? ==> pos < r.value.next <= |d|
  {
    var l :- ReadLine(d, pos, LINE_SIZE);
    if l.complete then Some(l) else None
  }

  function FieldLine(d: bytes, pos: nat): (r: Option<Line>)
    requires pos <= |d|
    ensures r.Some? ==> pos < r.value.next <= |d|
  {
    var l :- WholeLine(d, pos);
    if l.text == [] || |l.text| >= TG_FIELD_MAX then None else Some(l)
  }

  /** Serial and timestamp of a TEXT record. */
  function ReadMeta(line: bytes): Option<(int, int64)> {
    var (sn, end) := Strtol(line);
    if end == 0 || end >= |line| || line[end] != SPACE then None
    else
      var (timestamp, end2) := Strtol(line[end + 1..]);
      if end2 == 0 || !SnValid(Narrow(sn)) then None
      else Some((Narrow(sn), timestamp))
  }

  /** First and last requested serial of a CMD record. */
  function ReadRequest(line: bytes): Option<(int, int)> {
    if |line| < 2 || line[0] != LETTER_R || line[1] != COLON then None
    else
      var (from, end) := Strtol(line[2..]);
      if end == 0 || 2 + end >= |line| || line[2 + end] != MINUS then None
      else
        var (to, end2) := Strtol(line[2 + end + 1..]);
        if end2 == 0 || !SnValid(Narrow(from)) || !SnValid(Narrow(to)) then None
        else Some((Narrow(from), Narrow(to)))
  }

  /** The body from pos on, up to the line that ends the record; lines that did not
      fit the buffer are taken as far as they were read. */
  function DecodeBody(d: bytes, pos: nat, body: bytes): Option<bytes>
    requires pos <= |d|
    decreases |d| - pos
  {
    var l :- ReadLine(d, pos, LINE_SIZE);
    if EndsRecord(l.text) then
      var keep := l.text[..|l.text| - 4];
      if |body| + |keep| + 1 >= TG_BODY_MAX then None else Some(body + keep)
    else if |body| + |l.text| + 1 >= TG_BODY_MAX then None
    else DecodeBody(d, l.next, body + l.text + [LF])
  }

  function Decode(raw: bytes): Option<Message> {
    var kind :- WholeLine(raw, 0);
    if kind.text != TEXT_HEAD && kind.text != CMD_HEAD then None
    else
      var receiver :- FieldLine(raw, kind.next);
      var sender :- FieldLine(raw, receiver.next);
      var meta :- WholeLine(raw, sender.next);
      if kind.text == TEXT_HEAD then
        var (sn, timestamp) :- ReadMeta(meta.text);
        var body :- DecodeBody(raw, meta.next, []);
        Some(Text(receiver.text, sender.text, sn, timestamp, body))
      else
        var (from, to) :- ReadRequest(meta.text);
        var body :- DecodeBody(raw, meta.next, []);
        Some(Cmd(receiver.text, sender.text, from, to, body))
  }
}
