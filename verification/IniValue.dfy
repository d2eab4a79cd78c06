/** Values of the settings file on text: quoting and escaping when written, comment
    scanning, trimming and unquoting when read, and which values survive both. */
module IniValue {
  import opened Bytes
  import opened TgLines

  const INI_BUFFERSIZE := 512

  const QUOTE: byte := 34
  const HASH: byte := 35
  const SEMICOLON: byte := 59
  const EQUALS: byte := 61
  const BACKSLASH: byte := 92

  // ---------------------------------------------------------------------
  // Trimming
  // ---------------------------------------------------------------------

  predicate Blank(b: byte) {
    NUL < b <= SPACE
  }

  function SkipLeading(s: bytes): (r: bytes)
    ensures |r| <= |s|
    ensures r != [] ==> !Blank(r[0])
  {
    if s != [] && Blank(s[0]) then SkipLeading(s[1..]) else s
  }

  function SkipTrailing(s: bytes): (r: bytes)
    ensures |r| <= |s|
    ensures r == s[..|r|]
    ensures r != [] ==> !Blank(r[|r| - 1])
  {
    if s != [] && Blank(s[|s| - 1]) then SkipTrailing(s[..|s| - 1]) else s
  }

  // ---------------------------------------------------------------------
  // Writing a value
  // ---------------------------------------------------------------------

  predicate OpensComment(b: byte) {
    b == SEMICOLON || b == HASH
  }

  /** The value must be quoted. */
  predicate Quoted(v: bytes) {
    || (exists i :: 0 <= i < |v| && (v[i] == QUOTE || OpensComment(v[i])))
    || (v != [] && v[|v| - 1] == SPACE)
  }

  /** Every quote is preceded by a backslash. */
  function Escape(v: bytes): (e: bytes)
    ensures |v| <= |e|
    ensures e != [] ==> e[0] != QUOTE
  {
    if v == [] then []
    else if v[0] == QUOTE then [BACKSLASH, QUOTE] + Escape(v[1..])
    else [v[0]] + Escape(v[1..])
  }

  /** As much of the escaped value as the room allows; a quote goes with its backslash. */
  function EscapeWithin(v: bytes, room: nat): (e: bytes)
    ensures |e| <= room
  {
    if v == [] || room == 0 then []
    else if v[0] == QUOTE then
      if room == 1 then [] else [BACKSLASH, QUOTE] + EscapeWithin(v[1..], room - 2)
    else [v[0]] + EscapeWithin(v[1..], room - 1)
  }

  /** What is written for a value into maxlen bytes, one of them for the end. */
  function Printed(v: bytes, maxlen: nat): (p: bytes)
    requires 0 < maxlen
    ensures |p| < maxlen
  {
    if Quoted(v) && 3 <= maxlen then [QUOTE] + EscapeWithin(v, maxlen - 3) + [QUOTE]
    else Cut(v, maxlen - 1)
  }

  // ---------------------------------------------------------------------
  // Reading a value
  // ---------------------------------------------------------------------

  /** Two quotes, or a backslash and a quote: they count as one character. */
  predicate Paired(s: bytes) {
    2 <= |s| && (s[0] == QUOTE || s[0] == BACKSLASH) && s[1] == QUOTE
  }

  /** The text before a comment; inside a string nothing opens one. */
  function Uncommented(s: bytes, inString: bool): (t: bytes)
    ensures t <= s
  {
    if s == [] || (OpensComment(s[0]) && !inString) then []
    else if Paired(s) then s[..2] + Uncommented(s[2..], inString)
    else [s[0]] + Uncommented(s[1..], if s[0] == QUOTE then !inString else inString)
  }

  function Unescape(s: bytes): (u: bytes)
    ensures |u| <= |s|
  {
    if s == [] then []
    else if Paired(s) then [QUOTE] + Unescape(s[2..])
    else [s[0]] + Unescape(s[1..])
  }

  /** A value freed of comment and surrounding quotes; `dequote` asks for unescaping. */
  datatype Cleaned = Cleaned(text: bytes, dequote: bool)

  function Clean(s: bytes): Cleaned {
    var t := SkipTrailing(Uncommented(s, false));
    if t != [] && t[0] == QUOTE && t[|t| - 1] == QUOTE
    then Cleaned(if |t| == 1 then [] else t[1..|t| - 1], true)
    else Cleaned(t, false)
  }

  /** The value in the part of a line behind the equal sign. */
  function ReadValue(rest: bytes): bytes {
    var c := Clean(SkipLeading(rest));
    if c.dequote then Unescape(c.text) else c.text
  }

  // ---------------------------------------------------------------------
  // Truncation
  // ---------------------------------------------------------------------

  lemma {:induction false} EscapedPrefix(v: bytes, room: nat) returns (k: nat)
    ensures k <= |v| && EscapeWithin(v, room) == Escape(v[..k])
    ensures k == |v| <==> |Escape(v)| <= room
  {
    if v == [] || room == 0 || (v[0] == QUOTE && room == 1) {
      k := 0;
    } else {
      k := EscapedPrefix(v[1..], if v[0] == QUOTE then room - 2 else room - 1);
      k := k + 1;
      assert v[..k][1..] == v[1..][..k - 1];
    }
  }

  // ---------------------------------------------------------------------
  // Quoted values
  // ---------------------------------------------------------------------

  /** What may follow the value on its line. */
  predicate LineRest(end: bytes) {
    end == [] || end == [LF]
  }

  lemma RestKept(end: bytes, inString: bool)
    requires LineRest(end)
    ensures Uncommented(end, inString) == end
  {
    if end != [] {
      assert end[1..] == [];
    }
  }

  lemma EscapeCons(b: byte, v: bytes)
    ensures Escape([b] + v) == (if b == QUOTE then [BACKSLASH, QUOTE] else [b]) + Escape(v)
  {
    assert ([b] + v)[1..] == v;
  }

  lemma UncommentedOne(b: byte, s: bytes, inString: bool)
    requires !Paired([b] + s) && !(OpensComment(b) && !inString)
    ensures Uncommented([b] + s, inString) == [b] + Uncommented(s, if b == QUOTE then !inString else inString)
  {
    assert ([b] + s)[1..] == s;
  }

  lemma UncommentedPair(b: byte, s: bytes, inString: bool)
    requires b == QUOTE || b == BACKSLASH
    ensures Uncommented([b, QUOTE] + s, inString) == [b, QUOTE] + Uncommented(s, inString)
  {
    assert ([b, QUOTE] + s)[2..] == s;
    assert ([b, QUOTE] + s)[..2] == [b, QUOTE];
  }

  /** Inside the quotes nothing is taken for a comment: not a semicolon, not a hash,
      not a backslash before the closing quote. */
  lemma {:induction false} NothingCut(v: bytes, end: bytes)
    requires LineRest(end)
    ensures Uncommented(Escape(v) + [QUOTE] + end, true) == Escape(v) + [QUOTE] + end
  {
    if v == [] {
      RestKept(end, false);
      UncommentedOne(QUOTE, end, true);
      assert Escape(v) + [QUOTE] + end == [QUOTE] + end;
    } else {
      NothingCut(v[1..], end);
      NothingCutFirst(v[0], v[1..], end);
      assert [v[0]] + v[1..] == v;
    }
  }

  lemma NothingCutFirst(b: byte, v: bytes, end: bytes)
    requires LineRest(end)
    requires Uncommented(Escape(v) + [QUOTE] + end, true) == Escape(v) + [QUOTE] + end
    ensures Uncommented(Escape([b] + v) + [QUOTE] + end, true) == Escape([b] + v) + [QUOTE] + end
  {
    EscapeCons(b, v);
    var tail := Escape(v) + [QUOTE] + end;
    EmptyEscape(v);
    hide Escape, Uncommented, OpensComment;
    if b == QUOTE {
      assert Escape([b] + v) + [QUOTE] + end == [BACKSLASH, QUOTE] + tail;
      UncommentedPair(BACKSLASH, tail, true);
    } else {
      assert Escape([b] + v) + [QUOTE] + end == [b] + tail;
      if b == BACKSLASH && v == [] {
        RestKept(end, true);
        assert [b] + tail == [BACKSLASH, QUOTE] + end;
        UncommentedPair(BACKSLASH, end, true);
      } else {
        UncommentedOne(b, tail, true);
      }
    }
  }

  lemma EmptyEscape(v: bytes)
    ensures Escape(v) == [] <==> v == []
  {
  }

  lemma {:induction false} Unescaped(v: bytes)
    ensures Unescape(Escape(v)) == v
  {
    if v != [] {
      Unescaped(v[1..]);
      var e := Escape(v);
      if v[0] == QUOTE {
        assert e[2..] == Escape(v[1..]);
      } else {
        assert e[1..] == Escape(v[1..]);
      }
    }
  }

  lemma QuotedUncommented(v: bytes, end: bytes)
    requires LineRest(end)
    ensures Uncommented([QUOTE] + Escape(v) + [QUOTE] + end, false) == [QUOTE] + Escape(v) + [QUOTE] + end
  {
    var s := [QUOTE] + Escape(v) + [QUOTE] + end;
    if v == [] {
      assert s == [QUOTE, QUOTE] + end;
      UncommentedPair(QUOTE, end, false);
      RestKept(end, false);
    } else {
      var tail := Escape(v) + [QUOTE] + end;
      assert s == [QUOTE] + tail;
      NothingCut(v, end);
      UncommentedOne(QUOTE, tail, false);
    }
  }

  lemma RestTrimmed(s: bytes, end: bytes)
    requires LineRest(end) && s != [] && !Blank(s[|s| - 1])
    ensures SkipTrailing(s + end) == s
  {
    if end == [] {
      assert s + end == s;
    } else {
      assert (s + end)[..|s|] == s;
    }
  }

  /** A quoted value is read back, whatever it consists of. */
  lemma QuotedRoundTrip(v: bytes, end: bytes)
    requires LineRest(end)
    ensures ReadValue([QUOTE] + Escape(v) + [QUOTE] + end) == v
  {
    var q := [QUOTE] + Escape(v) + [QUOTE];
    QuotedUncommented(v, end);
    RestTrimmed(q, end);
    Unescaped(v);
    assert q[1..|q| - 1] == Escape(v);
  }

  // ---------------------------------------------------------------------
  // Plain values
  // ---------------------------------------------------------------------

  function Trim(v: bytes): bytes {
    SkipTrailing(SkipLeading(v))
  }

  predicate Plain(v: bytes) {
    forall i :: 0 <= i < |v| ==> v[i] != QUOTE && !OpensComment(v[i])
  }

  lemma {:induction false} PlainUncommented(v: bytes)
    requires Plain(v)
    ensures Uncommented(v, false) == v
  {
    if v != [] {
      PlainUncommented(v[1..]);
    }
  }

  lemma {:induction false} PlainSkipped(v: bytes)
    requires Plain(v)
    ensures Plain(SkipLeading(v))
  {
    if v != [] && Blank(v[0]) {
      PlainSkipped(v[1..]);
    }
  }

  lemma PlainRead(v: bytes)
    requires Plain(v)
    ensures ReadValue(v) == Trim(v)
  {
    PlainSkipped(v);
    PlainUncommented(SkipLeading(v));
  }

  lemma {:induction false} TrimRest(v: bytes, end: bytes)
    requires LineRest(end)
    ensures Trim(v + end) == Trim(v)
  {
    if v == [] {
      assert v + end == end;
      if end != [] {
        assert end[1..] == [];
      }
    } else if Blank(v[0]) {
      assert (v + end)[1..] == v[1..] + end;
      TrimRest(v[1..], end);
    } else if end == [] {
      assert v + end == v;
    } else {
      assert (v + end)[..|v|] == v;
    }
  }

  /** A value without blank ends. */
  predicate Tight(v: bytes) {
    v != [] ==> !Blank(v[0]) && !Blank(v[|v| - 1])
  }

  lemma TrimIffTight(v: bytes)
    ensures Trim(v) == v <==> Tight(v)
  {
  }

  lemma PlainRoundTrip(v: bytes, end: bytes)
    requires Plain(v) && LineRest(end)
    ensures ReadValue(v + end) == v <==> Tight(v)
  {
    assert Plain(v + end);
    PlainRead(v + end);
    TrimRest(v, end);
    TrimIffTight(v);
  }

  // ---------------------------------------------------------------------
  // Main result
  // ---------------------------------------------------------------------

  /** The values that survive being written and read: no LF, not truncated, and when
      no quotes are put round them, without blanks at their ends. */
  predicate Survives(v: bytes, maxlen: nat) {
    && LF !in v
    && if Quoted(v) then |Escape(v)| + 3 <= maxlen else |v| < maxlen && Tight(v)
  }

  /** The line as far as it is read. */
  function FirstLine(s: bytes): (l: bytes)
    ensures l <= s
  {
    var i := Find(s, LF);
    if i < |s| then s[..i + 1] else s
  }

  lemma ReadIsShorter(rest: bytes)
    ensures |ReadValue(rest)| <= |rest|
  {
    var t := Uncommented(SkipLeading(rest), false);
    assert |t| <= |SkipLeading(rest)|;
  }

  lemma {:induction false} UnescapeKeepsOut(s: bytes, b: byte)
    requires b !in s
    ensures b !in Unescape(s)
  {
    if s != [] {
      UnescapeKeepsOut(s[1..], b);
      if Paired(s) {
        UnescapeKeepsOut(s[2..], b);
        assert s[1] in s;
      }
      assert s[0] in s;
    }
  }

  lemma {:induction false} SuffixSkipped(s: bytes)
    ensures SkipLeading(s) == s[|s| - |SkipLeading(s)|..]
  {
    if s != [] && Blank(s[0]) {
      SuffixSkipped(s[1..]);
    }
  }

  /** Where an LF comes last, none is read. */
  lemma NoLineEndRead(l: bytes)
    requires forall i :: 0 <= i < |l| - 1 ==> l[i] != LF
    ensures LF !in ReadValue(l)
  {
    SuffixSkipped(l);
    var s := SkipLeading(l);
    var u := Uncommented(s, false);
    var t := SkipTrailing(u);
    hide SkipLeading, SkipTrailing, Uncommented;
    assert forall i :: 0 <= i < |s| ==> s[i] == l[|l| - |s| + i];
    assert forall i :: 0 <= i < |t| ==> t[i] == s[i];
    assert LF !in t by {
      assert t != [] ==> t[|t| - 1] != LF;
    }
    var c := Clean(s);
    assert LF !in c.text;
    UnescapeKeepsOut(c.text, LF);
  }

  lemma FirstLineEnds(s: bytes)
    ensures forall i :: 0 <= i < |FirstLine(s)| - 1 ==> FirstLine(s)[i] != LF
  {
  }

  lemma FirstLineWhole(s: bytes)
    requires LF !in s
    ensures FirstLine(s + [LF]) == s + [LF]
  {
    var t := s + [LF];
    assert t[|s|] == LF;
    assert forall i :: 0 <= i < |s| ==> t[i] == s[i];
  }

  lemma {:induction false} EscapeKeepsOut(v: bytes, b: byte)
    requires b !in v && b != BACKSLASH
    ensures b !in Escape(v)
  {
    if v != [] {
      assert v[0] in v;
      EscapeKeepsOut(v[1..], b);
    }
  }

  lemma PlainIffUnquoted(v: bytes)
    requires !Quoted(v)
    ensures Plain(v)
  {
  }

  /** Quotes are put round, but do not fit the buffer. */
  lemma NoRoomForQuotes(c: byte)
    requires c == QUOTE || OpensComment(c) || c == SPACE
    ensures ReadValue([c, LF]) == []
  {
    var s: bytes := [c, LF];
    assert s[1..] == [LF];
    if c == QUOTE {
      RestKept([LF], true);
      UncommentedOne(QUOTE, [LF], false);
      assert s == [QUOTE] + [LF];
      RestTrimmed([QUOTE], [LF]);
    } else if c == SPACE {
      assert SkipLeading([LF]) == [];
      assert SkipLeading(s) == [];
    }
  }

  lemma QuotedSurvivesIff(v: bytes, maxlen: nat)
    requires LF !in v && Quoted(v) && 3 <= maxlen
    ensures ReadValue(Printed(v, maxlen) + [LF]) == v <==> |Escape(v)| + 3 <= maxlen
  {
    hide Escape, EscapeWithin, ReadValue, Quoted;
    var k := EscapedPrefix(v, maxlen - 3);
    QuotedRoundTrip(v[..k], [LF]);
    assert v[..k] == v <==> k == |v|;
  }

  lemma BareSurvivesIff(v: bytes, maxlen: nat)
    requires LF !in v && 0 < maxlen && (Quoted(v) ==> maxlen < 3)
    ensures ReadValue(Printed(v, maxlen) + [LF]) == v <==> !Quoted(v) && |v| < maxlen && Tight(v)
  {
    var p := Printed(v, maxlen);
    ReadIsShorter(p + [LF]);
    if |v| >= maxlen {
      CutReadsShorter(v, maxlen - 1);
    } else if Quoted(v) {
      assert |v| == 1 && p == v;
      assert p + [LF] == [v[0], LF];
      NoRoomForQuotes(v[0]);
    } else {
      PlainIffUnquoted(v);
      PlainRoundTrip(v, [LF]);
    }
  }

  lemma CutReadsShorter(v: bytes, n: nat)
    requires n < |v| && LF !in v
    ensures ReadValue(v[..n] + [LF]) != v
  {
    ReadIsShorter(v[..n] + [LF]);
    var l := v[..n] + [LF];
    assert forall i :: 0 <= i < |l| - 1 ==> l[i] == v[i];
    if |ReadValue(l)| == |v| {
      NoLineEndLost(l);
    }
  }

  /** A line that ends in LF reads as less than its length. */
  lemma NoLineEndLost(l: bytes)
    requires l != [] && l[|l| - 1] == LF
    ensures |ReadValue(l)| < |l|
  {
    SuffixSkipped(l);
    var s := SkipLeading(l);
    var u := Uncommented(s, false);
    hide SkipLeading;
    if |s| == |l| && |u| == |s| {
      assert u == s && u[|u| - 1] == LF;
    }
  }

  lemma PrintedHoldsLineEnd(v: bytes, maxlen: nat)
    requires LF !in v && 0 < maxlen
    ensures LF !in Printed(v, maxlen)
  {
    if Quoted(v) && 3 <= maxlen {
      var k := EscapedPrefix(v, maxlen - 3);
      EscapeKeepsOut(v[..k], LF);
    }
  }

  /** A value written to its line is read back if and only if it survives: quoting,
      escaping, comment scanning, trimming and unquoting compose to the identity on
      these values, mixes of backslashes, quotes, semicolons and hashes included. */
  lemma SurvivesIff(v: bytes, maxlen: nat)
    requires 0 < maxlen
    ensures ReadValue(FirstLine(Printed(v, maxlen) + [LF])) == v <==> Survives(v, maxlen)
  {
    var line := Printed(v, maxlen) + [LF];
    if LF in v {
      FirstLineEnds(line);
      NoLineEndRead(FirstLine(line));
    } else {
      PrintedHoldsLineEnd(v, maxlen);
      FirstLineWhole(Printed(v, maxlen));
      if Quoted(v) && 3 <= maxlen {
        QuotedSurvivesIff(v, maxlen);
      } else {
        BareSurvivesIff(v, maxlen);
      }
    }
  }
}
