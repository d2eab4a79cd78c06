/** The encoders fill a bounded buffer; the decoder moves a cursor. Both are proved
    to do what the wire format says. */
module TgCodec {
  import opened Bytes
  import opened Serials
  import opened TgLines
  import opened Telegram

  const TG_ERR_ARG := -1
  const TG_ERR_RANGE := -2
  const TG_ERR_TOOSMALL := -3
  const TG_ERR_FORMAT := -4

  function CodeOf(e: Encoding): int {
    match e
    case Wire(data) => |data|
    case ErrArg => TG_ERR_ARG
    case ErrFormat => TG_ERR_FORMAT
    case ErrRange => TG_ERR_RANGE
    case ErrTooSmall => TG_ERR_TOOSMALL
  }

  /** A string builder over memory of the caller; once something did not fit it
      accepts nothing more. `wanted` is history: all that was put. */
  class TgBuf {
    const buf: array<byte>
    var len: nat
    var overflow: bool
    ghost var wanted: bytes

    ghost predicate Valid()
      reads this, buf
    {
      && len < buf.Length && buf[len] == NUL
      && (overflow <==> |wanted| + 1 > buf.Length)
      && (!overflow ==> buf[..len] == wanted)
    }

    constructor (out: array<byte>)
      requires 0 < out.Length
      modifies out
      ensures Valid() && buf == out && wanted == []
    {
      buf, len, overflow := out, 0, false;
      wanted := [];
      new;
      out[0] := NUL;
    }

    method Put(src: bytes)
      requires Valid()
      modifies this`len, this`overflow, this`wanted, buf
      ensures Valid() && wanted == old(wanted) + src
    {
      wanted := wanted + src;
      if overflow {
        return;
      }
      if len + |src| + 1 > buf.Length {
        overflow := true;
        return;
      }
      var at := len;
      ghost var before := buf[..at];
      for i := 0 to |src|
        invariant buf[..at] == before
        invariant buf[at..at + i] == src[..i]
        modifies buf
      {
        buf[at + i] := src[i];
      }
      assert buf[..at + |src|] == buf[..at] + buf[at..at + |src|];
      assert src[..|src|] == src;
      len := at + |src|;
      ghost var text := buf[..len];
      buf[len] := NUL;
      assert buf[..len] == text;
    }
  }

  /** Scans the body once for a line that looks like the end of the record. */
  method CheckBody(body: Option<CString>) returns (ok: bool)
    ensures ok == BodyOk(body)
  {
    if body.None? {
      return true;
    }
    var s := body.value;
    var p, start := 0, 0;
    assert s[0..] == s;
    hide Lines, NoRecordEnd, NoBreak;
    NoBreakAtStart(s, 0);
    while true
      invariant 0 <= start <= p <= |s|
      invariant NoRecordEnd(Lines(s)) <==> NoRecordEnd(Lines(s[start..]))
      invariant NoBreak(s, start, p)
      decreases |s| - p
    {
      if p == |s| || s[p] == LF {
        LineAt(s, start, p);
        if p - start >= 4 && s[p - 4..p] == TERMINATOR {
          return false;
        }
        if p == |s| {
          return true;
        }
        start := p + 1;
        NoBreakAtStart(s, start);
      } else {
        NoBreakNext(s, start, p);
      }
      p := p + 1;
    }
  }

  ghost predicate NoBreak(s: bytes, start: nat, p: nat)
    requires p <= |s|
  {
    forall j :: start <= j < p ==> s[j] != LF
  }

  lemma NoBreakAtStart(s: bytes, start: nat)
    requires start <= |s|
    ensures NoBreak(s, start, start)
  {
  }

  lemma NoBreakNext(s: bytes, start: nat, p: nat)
    requires p < |s| && s[p] != LF && NoBreak(s, start, p)
    ensures NoBreak(s, start, p + 1)
  {
  }

  /** The line from start to p is the first of the rest. */
  lemma LineAt(s: bytes, start: nat, p: nat)
    requires start <= p <= |s| && (p == |s| || s[p] == LF)
    requires NoBreak(s, start, p)
    ensures EndsRecord(s[start..p]) <==> p - start >= 4 && s[p - 4..p] == TERMINATOR
    ensures NoRecordEnd(Lines(s[start..])) <==>
              !EndsRecord(s[start..p]) && (p < |s| ==> NoRecordEnd(Lines(s[p + 1..])))
  {
    var rest := s[start..];
    var l := s[start..p];
    assert l[if |l| >= 4 then |l| - 4 else 0..] == if |l| >= 4 then s[p - 4..p] else l;
    LinesUnfold(rest);
    var i := Find(rest, LF);
    assert forall j :: 0 <= j < p - start ==> rest[j] == s[start + j];
    hide Lines, Find, EndsRecord;
    if p < |s| {
      assert rest[p - start] == LF;
      assert i == p - start;
      assert rest[..i] == l && rest[i + 1..] == s[p + 1..];
      var ls := Lines(s[p + 1..]);
      assert ([l] + ls)[0] == l;
      assert forall k :: 0 <= k < |ls| ==> ls[k] == ([l] + ls)[k + 1];
    } else {
      assert i == |rest| && l == rest;
      assert [rest][0] == rest;
    }
  }

  lemma AssembledHeader(head: bytes, receiver: bytes, sender: bytes, meta: bytes)
    ensures [] + (head + [LF]) + receiver + [LF] + sender + [LF] + (meta + [LF])
         == Header(head, receiver, sender, meta)
  {
  }

  /** The four header lines. */
  method PutHeader(b: TgBuf, head: bytes, receiver: bytes, sender: bytes, meta: bytes)
    requires b.Valid() && b.wanted == []
    modifies b, b.buf
    ensures b.Valid() && b.wanted == Header(head, receiver, sender, meta)
  {
    hide Header;
    b.Put(head + [LF]);
    b.Put(receiver);
    b.Put([LF]);
    b.Put(sender);
    b.Put([LF]);
    b.Put(meta + [LF]);
    AssembledHeader(head, receiver, sender, meta);
  }

  /** Serialises a TEXT telegram into out; the result is its length or an error. */
  method WriteText(out: array<byte>, receiver: Option<CString>, sender: Option<CString>,
                   sn: int, timestamp: int64, body: Option<CString>) returns (n: int)
    modifies out
    ensures var e := EncodeText(out.Length, receiver, sender, sn, timestamp, body);
            && n == CodeOf(e)
            && (e.Wire? ==> n < out.Length && out[..n] == e.data && out[n] == NUL)
            && (!e.Wire? && 0 < out.Length ==> out[0] == NUL)
  {
    hide BodyOk, Meta, Header;
    if out.Length == 0 {
      return TG_ERR_ARG;
    }
    out[0] := NUL;
    if !FieldOk(receiver) || !FieldOk(sender) {
      return TG_ERR_FORMAT;
    }
    if !SnValid(sn) {
      return TG_ERR_RANGE;
    }
    var bodyOk := CheckBody(body);
    if !bodyOk {
      return TG_ERR_FORMAT;
    }
    var b := new TgBuf(out);
    PutHeader(b, TEXT_HEAD, receiver.value, sender.value, Meta(sn, timestamp));
    ghost var head := b.wanted;
    if body.Some? && body.value != [] {
      b.Put(body.value);
    }
    assert b.wanted == head + BodyOf(body);
    b.Put(TERMINATOR + [LF]);
    assert head + BodyOf(body) + (TERMINATOR + [LF]) == head + (BodyOf(body) + TERMINATOR + [LF]);
    if b.overflow {
      out[0] := NUL;
      return TG_ERR_TOOSMALL;
    }
    return b.len;
  }

  /** Serialises a request for the serials from..to. */
  method WriteCmd(out: array<byte>, receiver: Option<CString>, sender: Option<CString>, from: int, to: int)
      returns (n: int)
    modifies out
    ensures var e := EncodeCmd(out.Length, receiver, sender, from, to);
            && n == CodeOf(e)
            && (e.Wire? ==> n < out.Length && out[..n] == e.data && out[n] == NUL)
            && (!e.Wire? && 0 < out.Length ==> out[0] == NUL)
  {
    hide Request, Header;
    if out.Length == 0 {
      return TG_ERR_ARG;
    }
    out[0] := NUL;
    if !FieldOk(receiver) || !FieldOk(sender) {
      return TG_ERR_FORMAT;
    }
    if !SnValid(from) || !SnValid(to) {
      return TG_ERR_RANGE;
    }
    var b := new TgBuf(out);
    PutHeader(b, CMD_HEAD, receiver.value, sender.value, Request(from, to));
    b.Put(TERMINATOR + [LF]);
    if b.overflow {
      out[0] := NUL;
      return TG_ERR_TOOSMALL;
    }
    return b.len;
  }

  // ---------------------------------------------------------------------
  // Decoding
  // ---------------------------------------------------------------------

  /** The next line, as the C string left in the line buffer. */
  method NextText(c: TgCursor, line: array<byte>) returns (ok: bool, complete: bool, text: bytes)
    requires c.Valid() && line.Length == LINE_SIZE
    modifies c, line
    ensures c.Valid()
    ensures var r := ReadLine(c.data, old(c.pos), LINE_SIZE);
            ok == r.Some? && (ok ==> r.value == Line(text, complete, c.pos))
  {
    ok, complete := c.NextLine(line);
    text := CStr(line[..]);
  }

  method DecodeBodyLines(c: TgCursor, line: array<byte>) returns (terminated: bool, body: bytes)
    requires c.Valid() && line.Length == LINE_SIZE
    modifies c, line
    ensures var r := DecodeBody(c.data, old(c.pos), []);
            terminated == r.Some? && (terminated ==> body == r.value)
  {
    hide ReadLine;
    body, terminated := [], false;
    while true
      invariant c.Valid()
      invariant DecodeBody(c.data, old(c.pos), []) == DecodeBody(c.data, c.pos, body)
      decreases |c.data| - c.pos
    {
      var ok, complete, text := NextText(c, line);
      if !ok {
        return false, body;
      }
      if |text| >= 4 && text[|text| - 4..] == TERMINATOR {
        var keep := |text| - 4;
        if |body| + keep + 1 >= TG_BODY_MAX {
          return false, body;
        }
        return true, body + text[..keep];
      }
      if |body| + |text| + 1 >= TG_BODY_MAX {
        return false, body;
      }
      body := body + text + [LF];
    }
  }

  /** Parses a received record; None is TG_INVALID. */
  method DecodeRecord(raw: bytes) returns (m: Option<Message>)
    ensures m == Decode(raw)
  {
    hide ReadLine, DecodeBody, ReadMeta, ReadRequest;
    var c := new TgCursor(raw);
    var line := new byte[LINE_SIZE];

    var ok, complete, kind := NextText(c, line);
    if !ok || !complete {
      return None;
    }
    if kind != TEXT_HEAD && kind != CMD_HEAD {
      return None;
    }
    var receiver, sender, meta;
    ok, complete, receiver := NextText(c, line);
    if !ok || !complete || receiver == [] || |receiver| >= TG_FIELD_MAX {
      return None;
    }
    ok, complete, sender := NextText(c, line);
    if !ok || !complete || sender == [] || |sender| >= TG_FIELD_MAX {
      return None;
    }
    ok, complete, meta := NextText(c, line);
    if !ok || !complete {
      return None;
    }
    if kind == TEXT_HEAD {
      var numbers := ReadMeta(meta);
      if numbers.None? {
        return None;
      }
      var terminated, body := DecodeBodyLines(c, line);
      return if terminated then Some(Text(receiver, sender, numbers.value.0, numbers.value.1, body)) else None;
    } else {
      var range := ReadRequest(meta);
      if range.None? {
        return None;
      }
      var terminated, body := DecodeBodyLines(c, line);
      return if terminated then Some(Cmd(receiver, sender, range.value.0, range.value.1, body)) else None;
    }
  }
}
