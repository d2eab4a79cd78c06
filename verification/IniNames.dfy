/** The settings file in plain bytes: which names are the same, how a line is taken
    apart, what a value reads as, and what is written. */
module IniNames {
  import opened Bytes
  import opened TgLines
  import opened IniValue
  import opened IniLines
  import opened IniEdit
  import opened IniParts
  import opened IniStore

  // ---------------------------------------------------------------------
  // Names
  // ---------------------------------------------------------------------

  /** The bytes are the same letter, or the same byte. */
  predicate SameLetter(a: byte, b: byte) {
    a == b || (65 <= a <= 90 && b == a + 32) || (65 <= b <= 90 && a == b + 32)
  }

  /** The names are as long, and differ at most in the case of the letters A to Z. */
  predicate SameName(a: bytes, b: bytes) {
    |a| == |b| && forall i :: 0 <= i < |a| ==> SameLetter(a[i], b[i])
  }

  lemma CaselessIs(a: bytes, b: bytes)
    ensures Caseless(a, b) <==> SameName(a, b)
  {
  }

  /** Names that differ in case only are looked up alike. */
  lemma CaseIsIgnored(file: Option<bytes>, section: bytes, key: bytes, section': bytes, key': bytes)
    requires SameName(section, section') && SameName(key, key')
    ensures LookupFile(file, section, key) == LookupFile(file, section', key')
  {
    CaselessIs(section, section');
    CaselessIs(key, key');
    SameLookup(file, section, key, section', key');
  }

  /** All other names are different: a file that sets a key in a section sets it for no
      other key and for no other section. */
  lemma OtherNamesDiffer(section: bytes, key: bytes, value: bytes, section': bytes, key': bytes)
    requires SectionOk(section) && KeyOk(key) && LF !in value
    requires !SameName(section, section') || !SameName(key, key')
    ensures var file := Some(SectionLine(section) + KeyLine(key, value));
            LookupFile(file, section, key).Some? && LookupFile(file, section', key') == None
  {
    CaselessIs(section, section');
    CaselessIs(key, key');
    OneLineIsHarmless(key, value);
    hide SectionLine, KeyLine, LookupFile, KeyOk, Harmless, Caseless, SameName;
    PutsIntoNewFile(section, key, value, section', key');
  }

  // ---------------------------------------------------------------------
  // Lines
  // ---------------------------------------------------------------------

  predicate Blanks(w: bytes) {
    forall i :: 0 <= i < |w| ==> 1 <= w[i] <= 32
  }

  /** A text that starts and ends with neither a blank nor a NUL. */
  predicate Solid(s: bytes) {
    s != [] && !(s[0] <= 32) && !(s[|s| - 1] <= 32)
  }

  lemma {:induction false} SkipsBlanks(w: bytes, s: bytes)
    requires Blanks(w) && (s != [] ==> !(1 <= s[0] <= 32))
    ensures SkipLeading(w + s) == s
  {
    if w == [] {
      assert w + s == s;
    } else {
      assert (w + s)[1..] == w[1..] + s;
      SkipsBlanks(w[1..], s);
    }
  }

  lemma {:induction false} TrimsBlanks(s: bytes, w: bytes)
    requires Blanks(w) && (s != [] ==> !(1 <= s[|s| - 1] <= 32))
    ensures SkipTrailing(s + w) == s
    decreases |w|
  {
    if w == [] {
      assert s + w == s;
    } else {
      assert (s + w)[..|s + w| - 1] == s + w[..|w| - 1];
      TrimsBlanks(s, w[..|w| - 1]);
    }
  }

  lemma FindBehind(a: bytes, b: byte, rest: bytes)
    requires b !in a
    ensures Find(a + [b] + rest, b) == |a|
  {
    var s := a + [b] + rest;
    assert forall j :: 0 <= j < |a| ==> s[j] == a[j];
    FindAt(s, b, |a|);
  }

  lemma NotFound(s: bytes, b: byte)
    requires b !in s
    ensures Find(s, b) == |s|
  {
  }

  /** A name ends at the first equal sign, or at the first colon of a line without one. */
  predicate Separates(name: bytes, w: bytes, sep: byte, rest: bytes) {
    || (sep == 61 && 61 !in name)
    || (sep == 58 && 61 !in name && 58 !in name && 61 !in rest)
  }

  lemma SeparatorAt(name: bytes, w: bytes, sep: byte, rest: bytes)
    requires Blanks(w) && Separates(name, w, sep, rest)
    ensures Separator(name + w + [sep] + rest) == |name + w|
  {
    var a := name + w;
    var sp := a + [sep] + rest;
    assert sep !in a && (sep == 58 ==> 61 !in a);
    FindBehind(a, sep, rest);
    if sep == 58 {
      assert 61 !in sp;
      NotFound(sp, 61);
    }
  }

  /** A line that gives a name a value: blanks, the name, blanks, an equal sign or a
      colon, and the value. */
  lemma SettingLine(w: bytes, name: bytes, w': bytes, sep: byte, rest: bytes, key: bytes)
    requires Blanks(w) && Blanks(w') && Solid(name) && Separates(name, w', sep, rest)
    ensures var line := w + (name + w' + [sep] + rest);
            && (IsSettingOf(line, key) <==> key != [] && SameName(name, key))
            && ValueIn(line) == ReadValue(rest)
            && (IsHeader(line) <==> name[0] == 91)
            && (IsComment(line) <==> name[0] == 59 || name[0] == 35)
  {
    var sp := name + w' + [sep] + rest;
    assert sp[0] == name[0];
    SkipsBlanks(w, sp);
    SeparatorAt(name, w', sep, rest);
    TrimsBlanks(name, w');
    assert sp[..|name + w'|] == name + w' && sp[|name + w'| + 1..] == rest;
    hide SkipLeading, SkipTrailing, Separator, ReadValue;
    CaselessIs(name, key);
  }

  /** A header: blanks, and a name in brackets; the last closing bracket counts. */
  lemma HeaderLine(w: bytes, name: bytes, rest: bytes, section: bytes)
    requires Blanks(w) && 93 !in rest
    ensures var line := w + ([91] + name + [93] + rest);
            IsHeader(line) && (IsHeaderOf(line, section) <==> SameName(name, section))
  {
    var sp := [91] + name + [93] + rest;
    SkipsBlanks(w, sp);
    assert forall j :: |name| + 1 < j < |sp| ==> sp[j] == rest[j - |name| - 2];
    FindLastAt(sp, 93, |name| + 1);
    assert sp[1..|name| + 1] == name;
    hide SkipLeading, FindLast;
    CaselessIs(name, section);
  }

  // ---------------------------------------------------------------------
  // Values
  // ---------------------------------------------------------------------

  /** Text without quotes and comment signs. */
  predicate Bare(v: bytes) {
    34 !in v && 59 !in v && 35 !in v
  }

  predicate Comment(c: bytes) {
    c == [] || c[0] == 59 || c[0] == 35
  }

  lemma {:induction false} BareIsKept(v: bytes, c: bytes)
    requires Bare(v) && Comment(c)
    ensures Uncommented(v + c, false) == v
  {
    if v == [] {
      assert v + c == c;
    } else {
      assert (v + c)[1..] == v[1..] + c && (v + c)[0] == v[0];
      assert v[0] in v && (1 < |v| ==> v[1] in v);
      BareIsKept(v[1..], c);
      assert !Paired(v + c);
    }
  }

  lemma BlanksAreBare(w: bytes)
    requires Blanks(w)
    ensures Bare(w)
  {
  }

  /** A bare value reads as what stands between the blanks and the comment. */
  lemma BareValueReads(w: bytes, v: bytes, w': bytes, c: bytes)
    requires Blanks(w) && Blanks(w') && Bare(v) && (v == [] || Solid(v)) && Comment(c)
    ensures ReadValue(w + (v + w' + c)) == v
  {
    BlanksAreBare(w');
    if v == [] {
      assert w + (v + w' + c) == (w + w') + c;
      SkipsBlanks(w + w', c);
      BareIsKept([], c);
      assert [] + c == c;
    } else {
      assert (v + w' + c)[0] == v[0];
      SkipsBlanks(w, v + w' + c);
      BareIsKept(v + w', c);
      TrimsBlanks(v, w');
      assert v[0] in v;
      hide SkipLeading, SkipTrailing, Uncommented;
    }
  }

  /** Escaping puts a backslash before every quote, and does nothing else. */
  lemma {:induction false} EscapeIs(a: bytes, b: bytes)
    ensures Escape(a + b) == Escape(a) + Escape(b)
    ensures Escape([34]) == [92, 34]
    ensures forall x :: x != 34 ==> Escape([x]) == [x]
  {
    assert [34][1..] == [] && Escape([34]) == [92, 34] + Escape([]);
    forall x: byte | x != 34
      ensures Escape([x]) == [x]
    {
      assert [x][1..] == [] && Escape([x]) == [x] + Escape([]);
    }
    if a == [] {
      assert a + b == b;
    } else {
      assert (a + b)[1..] == a[1..] + b;
      EscapeIs(a[1..], b);
    }
  }

  /** Quotes are put round a value that holds a quote, a semicolon or a hash, or ends in
      a space. */
  lemma QuotedExactly(v: bytes)
    ensures Quoted(v) <==> 34 in v || 59 in v || 35 in v || (v != [] && v[|v| - 1] == 32)
  {
  }

  /** What is written for a value that fits. */
  lemma PrintedIs(v: bytes, room: nat)
    requires 0 < room
    ensures Quoted(v) && |Escape(v)| + 3 <= room ==> Printed(v, room) == [34] + Escape(v) + [34]
    ensures !Quoted(v) && |v| < room ==> Printed(v, room) == v
  {
    if Quoted(v) && |Escape(v)| + 3 <= room {
      var k := EscapedPrefix(v, room - 3);
      assert v[..k] == v;
    }
  }

  /** What is written for a key and for a section that fit the buffer of 512 bytes. */
  lemma LinesWritten(section: bytes, key: bytes, value: bytes)
    ensures |key| <= 508 ==> KeyLine(key, value) == key + [61] + Printed(value, 509 - |key|) + [10]
    ensures 0 < |section| <= 507 ==> SectionLine(section) == [91] + section + [93, 10]
    ensures SectionLine([]) == []
  {
    hide Printed;
  }

  /** Text inside quotes stays together up to the closing quote, unless a backslash
      stands before it. */
  lemma {:induction false} QuotedIsKept(v: bytes, c: bytes)
    requires (v == [] || v[|v| - 1] != 92) && (c == [] || c[0] != 34)
    ensures Uncommented(Escape(v) + ([34] + c), true) == Escape(v) + ([34] + Uncommented(c, false))
  {
    hide Uncommented, Escape;
    if v == [] {
      EmptyEscape(v);
      QuoteNotPaired(c);
      UncommentedOne(34, c, true);
      assert Escape(v) + ([34] + c) == [34] + c;
      assert Escape(v) + ([34] + Uncommented(c, false)) == [34] + Uncommented(c, false);
    } else {
      QuotedIsKept(v[1..], c);
      QuotedGrows(v[0], v[1..], [34] + c, [34] + Uncommented(c, false));
      assert [v[0]] + v[1..] == v;
    }
  }

  lemma QuoteNotPaired(c: bytes)
    requires c == [] || c[0] != 34
    ensures !Paired([34] + c)
  {
  }

  lemma QuotedGrows(b: byte, v: bytes, tail: bytes, kept: bytes)
    requires (v != [] || b != 92) && tail != []
    requires Uncommented(Escape(v) + tail, true) == Escape(v) + kept
    ensures Uncommented(Escape([b] + v) + tail, true) == Escape([b] + v) + kept
  {
    EscapeCons(b, v);
    var head: bytes := if b == 34 then [92, 34] else [b];
    if b != 34 {
      QuotedNotPaired(b, v, tail);
    }
    hide Escape, Uncommented, OpensComment, Paired;
    Regroup(head, Escape(v), tail);
    Regroup(head, Escape(v), kept);
    if b == 34 {
      UncommentedPair(92, Escape(v) + tail, true);
    } else {
      UncommentedOne(b, Escape(v) + tail, true);
    }
  }

  lemma QuotedNotPaired(b: byte, v: bytes, tail: bytes)
    requires b != 34 && (v != [] || b != 92)
    ensures !Paired([b] + (Escape(v) + tail))
  {
    EmptyEscape(v);
    var e := Escape(v);
    hide Escape;
    assert e != [] ==> ([b] + (e + tail))[1] == e[0];
  }

  /** A quoted value with a comment behind it reads as the value. */
  lemma QuotedValueReads(w: bytes, v: bytes, w': bytes, c: bytes)
    requires Blanks(w) && Blanks(w') && Comment(c) && (v == [] || v[|v| - 1] != 92)
    ensures ReadValue(w + ([34] + (Escape(v) + ([34] + (w' + c))))) == v
  {
    var s := [34] + (Escape(v) + ([34] + (w' + c)));
    SkipsBlanks(w, s);
    QuotedAllKept(v, w', c);
    QuotedIsTaken(v, w');
    Unescaped(v);
    hide SkipLeading, SkipTrailing, Uncommented, Escape, Unescape, Clean;
    assert Clean(s) == Cleaned(Escape(v), true) by { CleanIs(s, w', v); }
  }

  lemma CleanIs(s: bytes, w': bytes, v: bytes)
    requires Uncommented(s, false) == [34] + (Escape(v) + ([34] + w'))
    requires SkipTrailing([34] + (Escape(v) + ([34] + w'))) == [34] + Escape(v) + [34]
    ensures Clean(s) == Cleaned(Escape(v), true)
  {
    hide SkipTrailing, Uncommented, Escape;
    var q := [34] + Escape(v) + [34];
    assert q[1..|q| - 1] == Escape(v);
  }

  lemma QuotedIsTaken(v: bytes, w': bytes)
    requires Blanks(w')
    ensures SkipTrailing([34] + (Escape(v) + ([34] + w'))) == [34] + Escape(v) + [34]
  {
    hide SkipTrailing, Escape;
    var q := [34] + Escape(v) + [34];
    TrimsBlanks(q, w');
    assert q + w' == [34] + (Escape(v) + ([34] + w'));
  }

  lemma QuotedAllKept(v: bytes, w': bytes, c: bytes)
    requires Blanks(w') && Comment(c) && (v == [] || v[|v| - 1] != 92)
    ensures Uncommented([34] + (Escape(v) + ([34] + (w' + c))), false) == [34] + (Escape(v) + ([34] + w'))
  {
    RestKeptBare(w', c);
    NoQuoteFirst(w', c);
    hide Escape, Uncommented, Blanks, Comment;
    var more := w' + c;
    if v == [] {
      EmptyEscape(v);
      EmptyQuotes(Escape(v), more);
      EmptyQuotes(Escape(v), w');
      UncommentedPair(34, more, false);
    } else {
      QuotedIsKept(v, more);
      OpeningNotPaired(v, [34] + more);
      UncommentedOne(34, Escape(v) + ([34] + more), false);
    }
  }

  lemma RestKeptBare(w': bytes, c: bytes)
    requires Blanks(w') && Comment(c)
    ensures Uncommented(w' + c, false) == w'
  {
    BlanksAreBare(w');
    BareIsKept(w', c);
  }

  lemma EmptyQuotes(e: bytes, more: bytes)
    requires e == []
    ensures [34] + (e + ([34] + more)) == [34, 34] + more
  {
  }

  lemma NoQuoteFirst(w': bytes, c: bytes)
    requires Blanks(w') && Comment(c)
    ensures w' + c != [] ==> (w' + c)[0] != 34
  {
  }

  lemma OpeningNotPaired(v: bytes, tail: bytes)
    requires v != []
    ensures !Paired([34] + (Escape(v) + tail)) && !OpensComment(34)
  {
    EmptyEscape(v);
    var e := Escape(v);
    hide Escape;
    assert ([34] + (e + tail))[1] == e[0];
  }

  // ---------------------------------------------------------------------
  // Looking up
  // ---------------------------------------------------------------------

  /** Lines from i on are behind the first header of the section; all are for no section. */
  predicate Begins(ls: seq<bytes>, section: bytes, i: nat) {
    if section == [] then i == 0
    else
      && 0 < i <= |ls| && IsHeaderOf(ls[i - 1], section)
      && forall k :: 0 <= k < i - 1 ==> !IsHeaderOf(ls[k], section)
  }

  predicate SetsKey(line: bytes, key: bytes) {
    !IsComment(line) && IsSettingOf(line, key)
  }

  /** Line j is the first from i on that sets the key, and no header comes before it. */
  predicate Stands(ls: seq<bytes>, key: bytes, i: nat, j: nat) {
    && i <= j < |ls| && SetsKey(ls[j], key)
    && (forall k :: i <= k <= j ==> !IsHeader(ls[k]))
    && forall k :: i <= k < j ==> !SetsKey(ls[k], key)
  }

  lemma {:induction false} SettingStands(ls: seq<bytes>, key: bytes, i: nat)
    requires i <= |ls|
    ensures Setting(ls[i..], key).Some? <==> exists j: nat :: Stands(ls, key, i, j)
    ensures forall j: nat :: Stands(ls, key, i, j) ==> Setting(ls[i..], key) == Some(ls[j])
    decreases |ls| - i
  {
    hide IsHeader, IsComment, IsSettingOf;
    if i < |ls| {
      assert ls[i..][1..] == ls[i + 1..];
      SettingStands(ls, key, i + 1);
      if !IsHeader(ls[i]) && SetsKey(ls[i], key) {
        assert Stands(ls, key, i, i);
      } else if !IsHeader(ls[i]) {
        StandsLater(ls, key, i, i + 1);
      }
    }
  }

  lemma StandsLater(ls: seq<bytes>, key: bytes, i: nat, next: nat)
    requires i < |ls| && next == i + 1 && !IsHeader(ls[i]) && !SetsKey(ls[i], key)
    ensures forall j: nat :: Stands(ls, key, i, j) <==> Stands(ls, key, next, j)
  {
    hide IsHeader, SetsKey;
  }

  lemma {:induction false} BehindBegins(ls: seq<bytes>, section: bytes, n: nat)
    requires section != [] && n <= |ls| && forall k :: 0 <= k < n ==> !IsHeaderOf(ls[k], section)
    ensures forall i: nat :: Begins(ls, section, i) ==> Behind(ls[n..], section) == Some(ls[i..])
    ensures Behind(ls[n..], section).Some? ==> exists i: nat :: Begins(ls, section, i)
    decreases |ls| - n
  {
    hide IsHeaderOf;
    if n < |ls| {
      assert ls[n..][1..] == ls[n + 1..];
      if IsHeaderOf(ls[n], section) {
        assert Begins(ls, section, n + 1);
        forall i: nat | Begins(ls, section, i)
          ensures i == n + 1
        {
        }
      } else {
        BehindBegins(ls, section, n + 1);
      }
    }
  }

  /** A lookup, exactly: the first line that sets the key behind the first header of the
      section and before the next header. */
  lemma LookupExactly(ls: seq<bytes>, section: bytes, key: bytes)
    ensures Lookup(ls, section, key).Some? <==>
              exists i: nat, j: nat :: Begins(ls, section, i) && Stands(ls, key, i, j)
    ensures forall i: nat, j: nat :: Begins(ls, section, i) && Stands(ls, key, i, j) ==>
              Lookup(ls, section, key) == Some(ValueIn(ls[j]))
  {
    hide Setting, ValueIn, IsHeaderOf, Stands;
    assert ls[0..] == ls;
    if section == [] {
      SettingStands(ls, key, 0);
      assert Begins(ls, section, 0);
    } else {
      BehindBegins(ls, section, 0);
      if i: nat :| Begins(ls, section, i) {
        SettingStands(ls, key, i);
        forall i': nat | Begins(ls, section, i')
          ensures i' == i
        {
        }
      }
    }
  }

  /** When setting a key succeeds. */
  lemma PutSucceedsIff(file: Option<bytes>, section: bytes, key: bytes, value: bytes, writable: bool)
    ensures PutSetting(file, section, key, value, writable).ok
       <==> writable || LookupFile(file, section, key) == Some(value)
  {
    hide KeyLine, SectionLine, Edit, Overwrite, Chunks, Flat, ValueIn, Setting, Behind;
  }

  lemma {:induction false} ChunkIs(d: bytes, room: nat)
    ensures var c := FirstChunk(d, room);
            && (forall i :: 0 <= i < |c| - 1 ==> c[i] != 10)
            && (|c| < room && |c| < |d| ==> c != [] && c[|c| - 1] == 10)
  {
    if d != [] && room != 0 {
      ChunkIs(d[1..], room - 1);
    }
  }

  /** A file is read in lines of at most 511 bytes, each as long as it can be: it ends at
      an LF, at the end of the file, or where the buffer is full. */
  lemma LinesRead(d: bytes)
    requires d != []
    ensures Chunks(d) != []
    ensures var l := Chunks(d)[0];
            && l <= d && 0 < |l| <= 511 && Chunks(d)[1..] == Chunks(d[|l|..])
            && (forall i :: 0 <= i < |l| - 1 ==> l[i] != 10)
            && (|l| < 511 && |l| < |d| ==> l[|l| - 1] == 10)
  {
    ChunkIs(d, 511);
    hide FirstChunk;
  }

  // ---------------------------------------------------------------------
  // Appending
  // ---------------------------------------------------------------------

  /** What the copy cache of 512 bytes holds after these lines; it is emptied when the
      next line would not leave room for the final NUL. */
  function Held(ls: seq<bytes>, size: nat): nat {
    if ls == [] then size
    else Held(ls[1..], if size + |ls[0]| <= 511 then size + |ls[0]| else |ls[0]|)
  }

  /** The lines put between the end of a text and what is appended to it: none if the
      cache shows the LF at the end of the text, with something before it; else an LF. */
  function Between(ls: seq<bytes>, size: nat, ended: bool): seq<bytes> {
    var open := if ls == [] then !ended else ls[|ls| - 1] == [] || ls[|ls| - 1][|ls[|ls| - 1]| - 1] != 10;
    if open || Held(ls, size) <= 1 then [[10]] else []
  }

  lemma BetweenNext(ls: seq<bytes>, size: nat, ended: bool, more: seq<bytes>)
    requires ls != []
    ensures Between(ls, size, ended) == Between(ls[1..], Cached(size, ls[0]), Ended(ls[0]))
    ensures [ls[0]] + (ls[1..] + more) == ls + more
  {
  }

  /** A section that is missing is appended with the key, behind all lines. */
  lemma {:induction false} SectionAppended(ls: seq<bytes>, section: bytes, key: bytes, line: bytes, size: nat,
                                           ended: bool)
    requires section != [] && forall i :: 0 <= i < |ls| ==> !IsHeaderOf(ls[i], section)
    ensures Edit(ls, section, key, line, size, ended)
         == ls + (Between(ls, size, ended) + [SectionLine(section), line])
    decreases |ls|
  {
    hide IsHeaderOf, SectionLine, EditKeys;
    if ls != [] {
      hide Between, Cached, Ended;
      BetweenNext(ls, size, ended, Between(ls, size, ended) + [SectionLine(section), line]);
      SectionAppended(ls[1..], section, key, line, Cached(size, ls[0]), Ended(ls[0]));
    }
  }

  /** A key that is missing from the last section is appended to it. */
  lemma {:induction false} KeyAppended(ls: seq<bytes>, key: bytes, line: bytes, size: nat, ended: bool)
    requires forall i :: 0 <= i < |ls| ==> !IsHeader(ls[i]) && !IsSettingOf(ls[i], key)
    ensures EditKeys(ls, key, line, size, ended) == ls + (Between(ls, size, ended) + [line])
    decreases |ls|
  {
    hide IsHeader, IsSettingOf;
    if ls != [] {
      hide Between, Cached, Ended;
      BetweenNext(ls, size, ended, Between(ls, size, ended) + [line]);
      KeyAppended(ls[1..], key, line, Cached(size, ls[0]), Ended(ls[0]));
    }
  }

  lemma {:induction false} HeldInAll(ls: seq<bytes>, size: nat)
    requires size + |Flat(ls)| <= 511
    ensures Held(ls, size) == size + |Flat(ls)|
    decreases |ls|
  {
    if ls != [] {
      HeldInAll(ls[1..], size + |ls[0]|);
    }
  }

  /** The lines of a text end where the text ends. */
  lemma {:induction false} LastLine(d: bytes)
    requires d != []
    ensures Chunks(d) != [] && Chunks(d)[|Chunks(d)| - 1] != []
    ensures var l := Chunks(d)[|Chunks(d)| - 1];
            l[|l| - 1] == d[|d| - 1]
    decreases |d|
  {
    var c := FirstChunk(d, LINE_ROOM);
    if |c| < |d| {
      LastLine(d[|c|..]);
      assert d == c + d[|c|..];
    }
  }

  /** In particular a text of two to 511 bytes gets an LF if and only if it lacks one at
      the end; an empty text, and a single byte, gets one in any case. */
  lemma LineEndAdded(d: bytes)
    requires |d| <= 511
    ensures Between(Chunks(d), 0, false) == if |d| <= 1 || d[|d| - 1] != 10 then [[10]] else []
  {
    if d != [] {
      hide Chunks, Held, Flat;
      FlatOfChunks(d);
      HeldInAll(Chunks(d), 0);
      LastLine(d);
    }
  }
}
