/** The character buffers of the settings file: copying, cleaning and composing text
    in place. */
module IniBuffer {
  import opened Bytes
  import opened TgLines
  import opened IniValue
  import opened IniLines

  datatype QuoteOption = QuoteNone | QuoteEnquote | QuoteDequote

  /** The buffer holds the C string s at this position. */
  predicate Holds(buf: array<byte>, at: nat, s: bytes)
    reads buf
  {
    at + |s| < buf.Length && buf[at..at + |s|] == s && buf[at + |s|] == NUL
  }

  /** What a bounded copy leaves in its destination. */
  function Copied(source: bytes, maxlen: nat, option: QuoteOption): (c: bytes)
    requires 0 < maxlen
    ensures |c| < maxlen
  {
    match option
    case QuoteNone => Cut(source, maxlen - 1)
    case QuoteEnquote =>
      if maxlen < 3 then Cut(source, maxlen - 1) else [QUOTE] + EscapeWithin(source, maxlen - 3) + [QUOTE]
    case QuoteDequote => Cut(Unescape(source), maxlen - 1)
  }

  // ---------------------------------------------------------------------
  // Bounded copy
  // ---------------------------------------------------------------------

  method CopyPlain(dest: array<byte>, at: nat, source: CString, maxlen: nat)
    requires 0 < maxlen && at + maxlen <= dest.Length
    modifies dest
    ensures Holds(dest, at, Copied(source, maxlen, QuoteNone))
    ensures dest[..at] == old(dest[..at])
  {
    var d := 0;
    while d < maxlen - 1 && d < |source|
      invariant 0 <= d < maxlen && d <= |source|
      invariant dest[at..at + d] == source[..d]
      invariant dest[..at] == old(dest[..at])
    {
      dest[at + d] := source[d];
      d := d + 1;
    }
    ghost var text := dest[at..at + d];
    dest[at + d] := NUL;
    assert dest[at..at + d] == text;
    assert source[..d] == Cut(source, maxlen - 1);
  }

  /** One more character of the text. */
  method Store(dest: array<byte>, at: nat, d: nat, b: byte, ghost text: bytes)
    requires at + d < dest.Length && dest[at..at + d] == text
    modifies dest
    ensures dest[at..at + d + 1] == text + [b] && dest[..at] == old(dest[..at])
  {
    dest[at + d] := b;
    assert dest[at..at + d] == text;
  }

  /** What was written so far, and what still follows, make up the escaped text. */
  ghost predicate Escaping(source: bytes, s: nat, room: nat, text: bytes, goal: bytes) {
    s <= |source| && goal == text + EscapeWithin(source[s..], room)
  }

  lemma EscapeOne(source: bytes, s: nat, room: nat, text: bytes, goal: bytes)
    requires Escaping(source, s, room, text, goal) && s < |source| && 0 < room && source[s] != QUOTE
    ensures Escaping(source, s + 1, room - 1, text + [source[s]], goal)
  {
    assert source[s..][1..] == source[s + 1..];
    var rest := EscapeWithin(source[s + 1..], room - 1);
    assert text + ([source[s]] + rest) == text + [source[s]] + rest;
  }

  lemma EscapeQuote(source: bytes, s: nat, room: nat, text: bytes, goal: bytes)
    requires Escaping(source, s, room, text, goal) && s < |source| && 1 < room && source[s] == QUOTE
    ensures Escaping(source, s + 1, room - 2, text + [BACKSLASH] + [QUOTE], goal)
  {
    assert source[s..][1..] == source[s + 1..];
    var rest := EscapeWithin(source[s + 1..], room - 2);
    assert text + ([BACKSLASH, QUOTE] + rest) == text + [BACKSLASH] + [QUOTE] + rest;
  }

  lemma EscapeDone(source: bytes, s: nat, room: nat, text: bytes, goal: bytes)
    requires Escaping(source, s, room, text, goal)
    requires s == |source| || room == 0 || (source[s] == QUOTE && room == 1)
    ensures text == goal
  {
  }

  /** Copies with a backslash before every quote, as long as there is room. */
  method CopyEscaped(dest: array<byte>, at: nat, source: CString, room: nat) returns (d: nat)
    requires at + room <= dest.Length
    modifies dest
    ensures d == |EscapeWithin(source, room)| && dest[at..at + d] == EscapeWithin(source, room)
    ensures dest[..at] == old(dest[..at])
  {
    ghost var goal := EscapeWithin(source, room);
    var s := 0;
    d := 0;
    ghost var text: bytes := [];
    assert source[0..] == source && [] + goal == goal;
    assert Escaping(source, 0, room, text, goal);
    hide EscapeWithin, Escaping;
    while s < |source| && d < room
      invariant d <= room && s <= |source|
      invariant d == |text| && dest[at..at + d] == text
      invariant Escaping(source, s, room - d, text, goal)
      invariant dest[..at] == old(dest[..at])
    {
      if source[s] == QUOTE {
        if d + 1 >= room {
          break;
        }
        EscapeQuote(source, s, room - d, text, goal);
        Store(dest, at, d, BACKSLASH, text);
        text := text + [BACKSLASH];
        d := d + 1;
      } else {
        EscapeOne(source, s, room - d, text, goal);
      }
      Store(dest, at, d, source[s], text);
      text := text + [source[s]];
      s, d := s + 1, d + 1;
    }
    EscapeDone(source, s, room - d, text, goal);
  }

  method CopyQuoted(dest: array<byte>, at: nat, source: CString, maxlen: nat)
    requires 3 <= maxlen && at + maxlen <= dest.Length
    modifies dest
    ensures Holds(dest, at, Copied(source, maxlen, QuoteEnquote))
    ensures dest[..at] == old(dest[..at])
  {
    hide EscapeWithin;
    dest[at] := QUOTE;
    assert dest[..at + 1] == old(dest[..at]) + [QUOTE];
    var d := CopyEscaped(dest, at + 1, source, maxlen - 3);
    CloseQuotes(dest, at, d + 1, EscapeWithin(source, maxlen - 3));
  }

  /** The closing quote and the final NUL. */
  method CloseQuotes(dest: array<byte>, at: nat, d: nat, ghost text: bytes)
    requires at + d + 1 < dest.Length && d == 1 + |text|
    requires dest[at] == QUOTE && dest[at + 1..at + d] == text
    modifies dest
    ensures Holds(dest, at, [QUOTE] + text + [QUOTE]) && dest[..at] == old(dest[..at])
  {
    dest[at + d] := QUOTE;
    dest[at + d + 1] := NUL;
    assert dest[at..at + d + 1] == [QUOTE] + dest[at + 1..at + d] + [QUOTE];
    assert dest[at + 1..at + d] == text;
  }

  ghost predicate Unescaping(source: bytes, s: nat, text: bytes, goal: bytes) {
    s <= |source| && goal == text + Unescape(source[s..])
  }

  lemma UnescapeStep(source: bytes, s: nat, text: bytes, goal: bytes)
    requires Unescaping(source, s, text, goal) && s < |source|
    ensures if Paired(source[s..]) then Unescaping(source, s + 2, text + [QUOTE], goal)
            else Unescaping(source, s + 1, text + [source[s]], goal)
  {
    assert source[s..][1..] == source[s + 1..];
    if Paired(source[s..]) {
      assert source[s..][2..] == source[s + 2..];
      Regroup(text, [QUOTE], Unescape(source[s + 2..]));
    } else {
      Regroup(text, [source[s]], Unescape(source[s + 1..]));
    }
  }

  lemma UnescapeDone(source: bytes, s: nat, text: bytes, goal: bytes, n: nat)
    requires Unescaping(source, s, text, goal) && |text| <= n && (s == |source| || |text| == n)
    ensures text == Cut(goal, n)
  {
  }

  method CopyUnquoted(dest: array<byte>, at: nat, source: CString, maxlen: nat)
    requires 0 < maxlen && at + maxlen <= dest.Length
    modifies dest
    ensures Holds(dest, at, Copied(source, maxlen, QuoteDequote))
    ensures dest[..at] == old(dest[..at])
  {
    ghost var goal := Unescape(source);
    var d, s := 0, 0;
    ghost var text: bytes := [];
    assert source[0..] == source && [] + goal == goal;
    assert Unescaping(source, 0, text, goal);
    hide Unescape, Unescaping;
    while s < |source| && d < maxlen - 1
      invariant 0 <= d < maxlen && s <= |source|
      invariant d == |text| && dest[at..at + d] == text
      invariant Unescaping(source, s, text, goal)
      invariant dest[..at] == old(dest[..at])
    {
      UnescapeStep(source, s, text, goal);
      if (source[s] == QUOTE || source[s] == BACKSLASH) && s + 1 < |source| && source[s + 1] == QUOTE {
        s := s + 1;
      }
      Store(dest, at, d, source[s], text);
      text := text + [source[s]];
      s, d := s + 1, d + 1;
    }
    UnescapeDone(source, s, text, goal, maxlen - 1);
    dest[at + d] := NUL;
    assert dest[at..at + d] == text;
  }

  /** Copies as much as fits, with quotes put round it, taken off it, or neither. */
  method StringCopy(dest: array<byte>, at: nat, source: CString, maxlen: nat, option: QuoteOption)
    requires 0 < maxlen && at + maxlen <= dest.Length
    modifies dest
    ensures Holds(dest, at, Copied(source, maxlen, option))
    ensures dest[..at] == old(dest[..at])
  {
    hide EscapeWithin, Unescape;
    var chosen := if option == QuoteEnquote && maxlen < 3 then QuoteNone else option;
    match chosen
    case QuoteNone => CopyPlain(dest, at, source, maxlen);
    case QuoteEnquote => CopyQuoted(dest, at, source, maxlen);
    case QuoteDequote => CopyUnquoted(dest, at, source, maxlen);
  }

  // ---------------------------------------------------------------------
  // Scanning
  // ---------------------------------------------------------------------

  method SkipBlanks(s: CString) returns (i: nat)
    ensures i <= |s| && s[i..] == SkipLeading(s)
  {
    i := 0;
    assert s[0..] == s;
    while i < |s| && s[i] <= SPACE
      invariant i <= |s| && SkipLeading(s[i..]) == SkipLeading(s)
    {
      assert s[i] in s;
      assert s[i..][1..] == s[i + 1..];
      i := i + 1;
    }
  }

  /** The end of the text before position `end`, without trailing blanks. */
  method TrimBlanks(s: CString, end: nat) returns (e: nat)
    requires end <= |s|
    ensures e <= end && s[..e] == SkipTrailing(s[..end])
  {
    e := end;
    while 0 < e && s[e - 1] <= SPACE
      invariant e <= end && SkipTrailing(s[..e]) == SkipTrailing(s[..end])
    {
      assert s[e - 1] in s;
      assert s[..e][..e - 1] == s[..e - 1];
      e := e - 1;
    }
  }

  method CheckEnquote(value: CString) returns (option: QuoteOption)
    ensures option == if Quoted(value) then QuoteEnquote else QuoteNone
  {
    var p := 0;
    while p < |value| && value[p] != QUOTE && !OpensComment(value[p])
      invariant 0 <= p <= |value|
      invariant forall i :: 0 <= i < p ==> value[i] != QUOTE && !OpensComment(value[i])
    {
      p := p + 1;
    }
    return if p < |value| || (0 < p && value[p - 1] == SPACE) then QuoteEnquote else QuoteNone;
  }

  /** What was passed over so far, and what is still to come, make up the text. */
  ghost predicate Scanned(s: bytes, i: nat, inString: bool) {
    i <= |s| && Uncommented(s, false) == s[..i] + Uncommented(s[i..], inString)
  }

  lemma ScanPair(s: bytes, i: nat, inString: bool)
    requires Scanned(s, i, inString) && i < |s| && !(OpensComment(s[i]) && !inString)
    requires Paired(s[i..])
    ensures Scanned(s, i + 2, inString)
  {
    assert s[i..][2..] == s[i + 2..];
    assert s[i..] == [s[i], QUOTE] + s[i + 2..];
    UncommentedPair(s[i], s[i + 2..], inString);
    hide Uncommented, OpensComment;
    Regroup(s[..i], [s[i], QUOTE], Uncommented(s[i + 2..], inString));
    assert s[..i] + [s[i], QUOTE] == s[..i + 2];
  }

  lemma ScanOne(s: bytes, i: nat, inString: bool)
    requires Scanned(s, i, inString) && i < |s| && !(OpensComment(s[i]) && !inString)
    requires !Paired(s[i..])
    ensures Scanned(s, i + 1, if s[i] == QUOTE then !inString else inString)
  {
    assert s[i..] == [s[i]] + s[i + 1..];
    UncommentedOne(s[i], s[i + 1..], inString);
    hide Uncommented, Paired, OpensComment;
    Regroup(s[..i], [s[i]], Uncommented(s[i + 1..], if s[i] == QUOTE then !inString else inString));
    assert s[..i] + [s[i]] == s[..i + 1];
  }

  lemma ScanStart(s: bytes)
    ensures Scanned(s, 0, false)
  {
    hide Uncommented;
    assert s[0..] == s && s[..0] + Uncommented(s, false) == Uncommented(s, false);
  }

  lemma ScanEnd(s: bytes, i: nat, inString: bool)
    requires Scanned(s, i, inString) && (i < |s| ==> OpensComment(s[i]) && !inString)
    ensures s[..i] == Uncommented(s, false)
  {
  }

  /** Where the comment starts, or the end. */
  method FindComment(s: CString) returns (e: nat)
    ensures e <= |s| && s[..e] == Uncommented(s, false)
  {
    hide Scanned;
    var inString := false;
    e := 0;
    ScanStart(s);
    while e < |s| && (!OpensComment(s[e]) || inString)
      invariant e <= |s| && Scanned(s, e, inString)
    {
      if e + 1 < |s| && s[e + 1] == QUOTE && (s[e] == QUOTE || s[e] == BACKSLASH) {
        ScanPair(s, e, inString);
      } else {
        ScanOne(s, e, inString);
      }
      if s[e] == QUOTE {
        if e + 1 < |s| && s[e + 1] == QUOTE {
          e := e + 1;
        } else {
          inString := !inString;
        }
      } else if s[e] == BACKSLASH && e + 1 < |s| && s[e + 1] == QUOTE {
        e := e + 1;
      }
      e := e + 1;
    }
    ScanEnd(s, e, inString);
  }

  /** Takes the quotes off a string that starts and ends with one. */
  method Unwrap(buf: array<byte>, at: nat, t: CString) returns (start: nat, text: CString, option: QuoteOption)
    requires Holds(buf, at, t)
    modifies buf
    ensures Holds(buf, start, text) && option != QuoteEnquote
    ensures Cleaned(text, option == QuoteDequote)
         == if t != [] && t[0] == QUOTE && t[|t| - 1] == QUOTE
            then Cleaned(if |t| == 1 then [] else t[1..|t| - 1], true)
            else Cleaned(t, false)
  {
    if t != [] && t[0] == QUOTE && t[|t| - 1] == QUOTE {
      start := at + 1;
      text := if |t| == 1 then [] else t[1..|t| - 1];
      assert buf[start..start + |text|] == buf[at..at + |t|][1..1 + |text|] == text;
      ghost var before := buf[start..start + |text|];
      buf[at + |t| - 1] := NUL;
      assert buf[start..start + |text|] == before;
      return start, text, QuoteDequote;
    }
    return at, t, QuoteNone;
  }

  /** Cuts off a trailing comment and surrounding quotes, in place; the text that is
      left starts at `start`. */
  method CleanString(buf: array<byte>, at: nat, s: CString) returns (start: nat, text: CString, option: QuoteOption)
    requires Holds(buf, at, s)
    modifies buf
    ensures Clean(s) == Cleaned(text, option == QuoteDequote) && option != QuoteEnquote
    ensures Holds(buf, start, text)
  {
    hide Uncommented, SkipTrailing;
    var e := FindComment(s);
    assert buf[at..at + e] == s[..e];
    buf[at + e] := NUL;
    var end := TrimBlanks(s, e);
    assert buf[at..at + end] == s[..end];
    buf[at + end] := NUL;
    assert buf[at..at + end] == s[..end];
    start, text, option := Unwrap(buf, at, s[..end]);
  }

  // ---------------------------------------------------------------------
  // Composing lines
  // ---------------------------------------------------------------------

  /** The end of a C string. */
  method EndOf(buf: array<byte>, at: nat, ghost s: bytes) returns (e: nat)
    requires Holds(buf, at, s) && NUL !in s
    ensures e == at + |s|
  {
    e := at + Find(buf[at..], NUL);
    var rest := buf[at..];
    assert forall j :: 0 <= j < |s| ==> rest[j] == buf[at..at + |s|][j];
    assert rest[|s|] == NUL;
  }

  lemma CopiedIsPrinted(value: bytes, maxlen: nat)
    requires 0 < maxlen
    ensures Copied(value, maxlen, if Quoted(value) then QuoteEnquote else QuoteNone) == Printed(value, maxlen)
  {
  }

  lemma PrintedHoldsNoEnd(value: bytes, maxlen: nat)
    requires NUL !in value && 0 < maxlen
    ensures NUL !in Printed(value, maxlen)
  {
    if Quoted(value) && 3 <= maxlen {
      var k := EscapedPrefix(value, maxlen - 3);
      EscapeKeepsOut(value[..k], NUL);
    }
  }

  /** Appends a few characters and the final NUL at the end of the string held. */
  method Append(buf: array<byte>, at: nat, more: bytes)
    requires at + |more| < buf.Length
    modifies buf
    ensures buf[..at] == old(buf[..at]) && Holds(buf, at, more)
  {
    for i := 0 to |more|
      invariant buf[..at] == old(buf[..at]) && buf[at..at + i] == more[..i]
    {
      buf[at + i] := more[i];
    }
    assert more[..|more|] == more;
    ghost var text := buf[at..at + |more|];
    buf[at + |more|] := NUL;
    assert buf[at..at + |more|] == text;
  }

  /** The key and the equal sign. */
  method WriteName(buf: array<byte>, key: CString) returns (p: nat)
    requires buf.Length == INI_BUFFERSIZE
    modifies buf
    ensures p == |Cut(key, KEY_MAX)| + 1 && buf[..p] == Cut(key, KEY_MAX) + [EQUALS]
  {
    StringCopy(buf, 0, key, INI_BUFFERSIZE - 3, QuoteNone);
    ghost var k := Cut(key, KEY_MAX);
    assert NUL !in k;
    p := EndOf(buf, 0, k);
    buf[p] := EQUALS;
    p := p + 1;
    assert buf[..p] == k + [EQUALS];
  }

  /** The value and the line end. */
  method WriteValue(buf: array<byte>, p: nat, value: CString, ghost head: bytes)
    requires buf.Length == INI_BUFFERSIZE && p + 3 <= INI_BUFFERSIZE && buf[..p] == head
    modifies buf
    ensures Holds(buf, 0, head + Printed(value, INI_BUFFERSIZE - p - 2) + [LF])
  {
    var option := CheckEnquote(value);
    PrintedHoldsNoEnd(value, INI_BUFFERSIZE - p - 2);
    CopiedIsPrinted(value, INI_BUFFERSIZE - p - 2);
    hide Printed, Copied, Quoted;
    StringCopy(buf, p, value, INI_BUFFERSIZE - p - 2, option);
    ghost var v := Printed(value, INI_BUFFERSIZE - p - 2);
    var q := EndOf(buf, p, v);
    assert buf[..q] == buf[..p] + buf[p..q];
    Append(buf, q, [LF]);
    assert buf[0..q + 1] == buf[..q] + buf[q..q + 1];
  }

  /** Writes the line that sets the key into the line buffer. */
  method WriteKey(buf: array<byte>, key: CString, value: CString)
    requires buf.Length == INI_BUFFERSIZE
    modifies buf
    ensures Holds(buf, 0, KeyLine(key, value))
  {
    hide Printed, Holds;
    var p := WriteName(buf, key);
    WriteValue(buf, p, value, Cut(key, KEY_MAX) + [EQUALS]);
  }

  /** Writes the header of the section into the line buffer; nothing for no section. */
  method WriteSection(buf: array<byte>, section: CString) returns (written: bool)
    requires buf.Length == INI_BUFFERSIZE
    modifies buf
    ensures written <==> section != []
    ensures written ==> Holds(buf, 0, SectionLine(section))
  {
    if section == [] {
      return false;
    }
    buf[0] := OPEN;
    StringCopy(buf, 1, section, INI_BUFFERSIZE - 4, QuoteNone);
    ghost var s := Cut(section, SECTION_MAX);
    assert NUL !in s;
    assert buf[..1][0] == OPEN;
    var p := EndOf(buf, 1, s);
    assert buf[..p] == [OPEN] + s;
    buf[p] := CLOSE;
    assert buf[..p + 1] == [OPEN] + s + [CLOSE];
    Append(buf, p + 1, [LF]);
    assert buf[0..p + 2] == buf[..p + 1] + buf[p + 1..p + 2];
    return true;
  }
}
