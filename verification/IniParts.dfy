/** What is written for a key may take more than one line, when the value holds line
    ends. When the lines behind the first do no harm. */
module IniParts {
  import opened Bytes
  import opened TgLines
  import opened IniValue
  import opened IniLines
  import opened IniEdit
  import opened IniSettings

  /** The lines that are written for a key and a value, as they will be read. */
  function WrittenLines(key: bytes, value: bytes): (ls: seq<bytes>)
    ensures ls != []
  {
    Chunks(KeyLine(key, value))
  }

  /** Those behind the first. */
  function Extra(key: bytes, value: bytes): seq<bytes> {
    WrittenLines(key, value)[1..]
  }

  /** The name a line gives a value to; none is empty. */
  function NameIn(line: bytes): bytes {
    var sp := SkipLeading(line);
    var e := Separator(sp);
    if e < |sp| then SkipTrailing(sp[..e]) else []
  }

  /** A line that no lookup of another key takes notice of. */
  predicate Silent(line: bytes, key: bytes) {
    !IsHeader(line) && (IsComment(line) || NameIn(line) == [] || Caseless(key, NameIn(line)))
  }

  predicate AllSilent(ls: seq<bytes>, key: bytes) {
    forall i :: 0 <= i < |ls| ==> Silent(ls[i], key)
  }

  predicate Harmless(key: bytes, value: bytes) {
    AllSilent(Extra(key, value), key)
  }

  /** What a value reads as once it was written. */
  function ReadsAs(key: bytes, value: bytes): bytes {
    ReadValue(FirstLine(Printed(value, ValueRoom(key)) + [LF]))
  }

  // ---------------------------------------------------------------------
  // The written lines
  // ---------------------------------------------------------------------

  /** The first line, byte by byte. */
  lemma FirstLineNext(d: bytes)
    ensures FirstLine(d) == if d == [] then [] else if d[0] == LF then [LF] else [d[0]] + FirstLine(d[1..])
  {
    if d != [] && d[0] != LF {
      FindNext(d, LF);
      hide Find;
    }
  }

  lemma FindNext(d: bytes, b: byte)
    requires d != [] && d[0] != b
    ensures Find(d, b) == 1 + Find(d[1..], b)
  {
  }

  lemma {:induction false} ChunkIsFirstLine(d: bytes, room: nat)
    requires |d| <= room
    ensures FirstChunk(d, room) == FirstLine(d)
  {
    hide FirstLine;
    FirstLineNext(d);
    if d != [] && d[0] != LF {
      ChunkIsFirstLine(d[1..], room - 1);
    }
  }

  lemma {:induction false} FirstLineBehind(k: bytes, p: bytes)
    requires LF !in k
    ensures FirstLine(k + p) == k + FirstLine(p)
  {
    hide FirstLine;
    if k == [] {
      assert k + p == p;
    } else {
      var d := k + p;
      assert d[1..] == k[1..] + p && d[0] == k[0];
      FirstLineBehind(k[1..], p);
      FirstLineNext(d);
      assert k == [k[0]] + k[1..];
    }
  }

  predicate AllEnded(ls: seq<bytes>) {
    forall i :: 0 <= i < |ls| ==> EndedLine(ls[i])
  }

  lemma {:induction false} FirstLineEnded(d: bytes)
    requires Ended(d)
    ensures Ended(FirstLine(d)) && FirstLine(d) != []
    ensures forall i :: 0 <= i < |FirstLine(d)| - 1 ==> FirstLine(d)[i] != LF
    ensures |FirstLine(d)| < |d| ==> Ended(d[|FirstLine(d)|..])
  {
    var i := Find(d, LF);
    assert i < |d|;
  }

  /** A short text that ends in LF is cut into ended lines. */
  lemma {:induction false} ShortIsEnded(d: bytes)
    requires |d| <= LINE_ROOM && (d == [] || Ended(d))
    ensures AllEnded(Chunks(d))
    decreases |d|
  {
    if d != [] {
      var c := FirstChunk(d, LINE_ROOM);
      ChunkIsFirstLine(d, LINE_ROOM);
      FirstLineEnded(d);
      hide FirstLine, FirstChunk;
      ShortIsEnded(d[|c|..]);
    }
  }

  lemma WrittenEnded(key: bytes, value: bytes)
    ensures AllEnded(WrittenLines(key, value)) && AllEnded(Extra(key, value))
  {
    hide KeyLine, Chunks;
    LastIsEnd(key, value);
    ShortIsEnded(KeyLine(key, value));
  }

  lemma LastIsEnd(key: bytes, value: bytes)
    ensures Ended(KeyLine(key, value))
  {
    hide Printed;
  }

  /** The first of the written lines sets the key. */
  lemma WrittenFirst(key: bytes, value: bytes)
    requires KeyOk(key)
    ensures var first := WrittenLines(key, value)[0];
            && Sets(first, key) && ValueIn(first) == ReadsAs(key, value)
            && EndedLine(first) && first != [LF]
  {
    WrittenEnded(key, value);
    var p := Printed(value, ValueRoom(key)) + [LF];
    KeyLineIs(key, value);
    FirstOfChunks(KeyLine(key, value));
    ChunkIsFirstLine(KeyLine(key, value), LINE_ROOM);
    hide Printed, KeyLine, FirstLine, FirstChunk, Chunks, Sets, ValueIn;
    assert LF !in key + [EQUALS];
    FirstLineBehind(key + [EQUALS], p);
    NamedSets(key, FirstLine(p));
  }

  lemma FirstOfChunks(d: bytes)
    requires d != []
    ensures Chunks(d) != [] && Chunks(d)[0] == FirstChunk(d, LINE_ROOM)
  {
  }

  lemma KeyLineIs(key: bytes, value: bytes)
    requires KeyOk(key)
    ensures KeyLine(key, value) == (key + [EQUALS]) + (Printed(value, ValueRoom(key)) + [LF])
  {
    hide Printed;
  }

  /** A value without LF takes one line, */
  lemma OneLineWritten(key: bytes, value: bytes)
    requires KeyOk(key) && LF !in value
    ensures WrittenLines(key, value) == [KeyLine(key, value)]
  {
    var line := KeyLine(key, value);
    PrintedHoldsLineEnd(value, ValueRoom(key));
    KeyLineIs(key, value);
    var p := key + [EQUALS] + Printed(value, ValueRoom(key));
    assert LF !in p && line == p + [LF];
    FirstLineWhole(p);
    ChunkIsFirstLine(line, LINE_ROOM);
    hide FirstChunk, FirstLine, KeyLine;
    assert FirstChunk(line, LINE_ROOM) == line;
    assert line[|line|..] == [];
    assert Chunks(line) == [line] + Chunks([]);
  }

  /** and so does no harm. */
  lemma OneLineIsHarmless(key: bytes, value: bytes)
    requires KeyOk(key) && LF !in value
    ensures Harmless(key, value)
  {
    OneLineWritten(key, value);
  }

  // ---------------------------------------------------------------------
  // Several lines in place of one
  // ---------------------------------------------------------------------

  lemma {:induction false} FlatConcat(a: seq<bytes>, b: seq<bytes>)
    ensures Flat(a + b) == Flat(a) + Flat(b)
  {
    if a == [] {
      assert a + b == b;
    } else {
      assert (a + b)[1..] == a[1..] + b;
      FlatConcat(a[1..], b);
    }
  }

  lemma FlatOne(line: bytes)
    ensures Flat([line]) == line
  {
    assert Flat([line][1..]) == [];
  }

  /** The same text in several lines. */
  lemma SpreadFlat(a: seq<bytes>, line: bytes, ls: seq<bytes>, b: seq<bytes>)
    requires line == Flat(ls)
    ensures Flat(a + [line] + b) == Flat(a + ls + b)
  {
    hide Flat;
    FlatConcat(a + [line], b);
    FlatConcat(a, [line]);
    FlatConcat(a + ls, b);
    FlatConcat(a, ls);
    FlatOne(line);
  }

  lemma {:induction false} EndedMendable(ls: seq<bytes>, b: seq<bytes>)
    requires AllEnded(ls) && Mendable(b)
    ensures Mendable(ls + b)
  {
    hide EndedLine, Mendable;
    if ls == [] {
      assert ls + b == b;
    } else {
      EndedMendable(ls[1..], b);
      MendableCons(ls[0], ls[1..] + b);
      assert [ls[0]] + (ls[1..] + b) == ls + b;
    }
  }

  lemma {:induction false} EndedTidy(ls: seq<bytes>, b: seq<bytes>)
    requires AllEnded(ls) && Tidy(b)
    ensures Tidy(ls + b)
  {
    hide EndedLine, Tidy;
    if ls == [] {
      assert ls + b == b;
    } else {
      EndedTidy(ls[1..], b);
      TidyCons(ls[0], ls[1..] + b);
      assert [ls[0]] + (ls[1..] + b) == ls + b;
    }
  }

  lemma {:induction false} SpreadTidy(a: seq<bytes>, line: bytes, ls: seq<bytes>, b: seq<bytes>)
    requires EndedLine(line) && AllEnded(ls) && Tidy(a + [line] + b)
    ensures Tidy(a + ls + b)
  {
    var es := a + [line] + b;
    if a == [] {
      assert es[1..] == b && a + ls + b == ls + b;
      EndedTidy(ls, b);
    } else {
      assert es[1..] == a[1..] + [line] + b && |es| >= 2;
      SpreadTidy(a[1..], line, ls, b);
      TidyCons(a[0], a[1..] + ls + b);
      assert [a[0]] + (a[1..] + ls + b) == a + ls + b;
    }
  }

  lemma {:induction false} SpreadMendable(a: seq<bytes>, line: bytes, ls: seq<bytes>, b: seq<bytes>)
    requires EndedLine(line) && line != [LF] && AllEnded(ls) && Mendable(a + [line] + b)
    ensures Mendable(a + ls + b)
  {
    hide EndedLine, OneLine, Ended;
    var es := a + [line] + b;
    if a == [] {
      assert es[1..] == b && a + ls + b == ls + b;
      NotBoth(line);
      EndedMendable(ls, b);
    } else if EndedLine(a[0]) {
      NotBoth(a[0]);
      assert es[1..] == a[1..] + [line] + b;
      SpreadMendable(a[1..], line, ls, b);
      MendableCons(a[0], a[1..] + ls + b);
      assert [a[0]] + (a[1..] + ls + b) == a + ls + b;
    } else {
      assert es[1] == if |a| == 1 then line else a[1];
      assert es[2..] == a[2..] + [line] + b;
      SpreadTidy(a[2..], line, ls, b);
      assert (a + ls + b)[2..] == a[2..] + ls + b;
    }
  }

  lemma NotBoth(l: bytes)
    requires EndedLine(l)
    ensures !OpenLine(l)
  {
  }

  lemma SilentForOthers(line: bytes, key: bytes, key': bytes)
    requires Silent(line, key) && !Caseless(key, key')
    ensures !IsHeader(line) && (IsComment(line) || !IsSettingOf(line, key'))
  {
    hide SkipLeading, SkipTrailing, Separator;
    var sp := SkipLeading(line);
    if IsSettingOf(line, key') {
      assert Caseless(NameIn(line), key');
      if Caseless(key, NameIn(line)) {
        SameThrough(key, NameIn(line), key');
      }
    }
  }

  lemma SameThrough(a: bytes, b: bytes, c: bytes)
    requires Caseless(a, b) && Caseless(b, c)
    ensures Caseless(a, c) && Caseless(b, a)
  {
  }

  lemma {:induction false} SilentSetting(ls: seq<bytes>, b: seq<bytes>, key: bytes, key': bytes)
    requires AllSilent(ls, key) && !Caseless(key, key')
    ensures Setting(ls + b, key') == Setting(b, key')
  {
    hide IsHeader, IsSettingOf, IsComment, Silent, Caseless;
    if ls == [] {
      assert ls + b == b;
    } else {
      SilentForOthers(ls[0], key, key');
      SilentSetting(ls[1..], b, key, key');
      SettingCons(ls[0], ls[1..] + b, key');
      assert [ls[0]] + (ls[1..] + b) == ls + b;
    }
  }

  lemma {:induction false} SilentBehind(ls: seq<bytes>, b: seq<bytes>, key: bytes, section': bytes)
    requires AllSilent(ls, key) && section' != []
    ensures Behind(ls + b, section') == Behind(b, section')
  {
    hide IsHeaderOf;
    if ls == [] {
      assert ls + b == b;
    } else {
      assert Silent(ls[0], key);
      if IsHeaderOf(ls[0], section') {
        HeaderOfIsHeader(ls[0], section');
      }
      SilentBehind(ls[1..], b, key, section');
      BehindCons(ls[0], ls[1..] + b, section');
      assert [ls[0]] + (ls[1..] + b) == ls + b;
    }
  }

  lemma SetsSame(line: bytes, key: bytes, key': bytes)
    requires Sets(line, key) && Caseless(key, key')
    ensures Sets(line, key')
  {
    hide SkipLeading, SkipTrailing, Separator;
    SameThrough(SkipTrailing(SkipLeading(line)[..Separator(SkipLeading(line))]), key, key');
  }

  lemma SpreadSettingFirst(line: bytes, more: seq<bytes>, b: seq<bytes>, key: bytes, key': bytes)
    requires Sets(line, key) && AllSilent(more, key)
    ensures Setting([line] + (more + b), key') == Setting([line] + b, key')
  {
    hide IsHeader, IsSettingOf, IsComment, Caseless, AllSilent;
    SettingCons(line, more + b, key');
    SettingCons(line, b, key');
    if Caseless(key, key') {
      SetsSame(line, key, key');
    } else {
      SilentSetting(more, b, key, key');
    }
  }

  lemma {:induction false} SpreadSetting(a: seq<bytes>, line: bytes, more: seq<bytes>, b: seq<bytes>, key: bytes,
                                         key': bytes)
    requires Sets(line, key) && AllSilent(more, key)
    ensures Setting(a + [line] + more + b, key') == Setting(a + [line] + b, key')
  {
    hide IsHeader, IsSettingOf, IsComment, AllSilent, Sets;
    if a == [] {
      SpreadSettingFirst(line, more, b, key, key');
      assert a + [line] + more + b == [line] + (more + b) && a + [line] + b == [line] + b;
    } else {
      SpreadSetting(a[1..], line, more, b, key, key');
      SettingCons(a[0], a[1..] + [line] + more + b, key');
      SettingCons(a[0], a[1..] + [line] + b, key');
      assert [a[0]] + (a[1..] + [line] + more + b) == a + [line] + more + b;
      assert [a[0]] + (a[1..] + [line] + b) == a + [line] + b;
    }
  }

  lemma SpreadFoundFirst(line: bytes, more: seq<bytes>, b: seq<bytes>, key: bytes, section': bytes)
    requires Sets(line, key) && AllSilent(more, key) && section' != []
    ensures Behind([line] + (more + b), section') == Behind([line] + b, section')
  {
    if IsHeaderOf(line, section') {
      HeaderOfIsHeader(line, section');
    }
    hide IsHeaderOf, IsSettingOf, IsComment, AllSilent;
    BehindCons(line, more + b, section');
    BehindCons(line, b, section');
    SilentBehind(more, b, key, section');
  }

  /** Silent lines behind the line of a key are seen by no lookup. */
  lemma {:induction false} SpreadFound(a: seq<bytes>, line: bytes, more: seq<bytes>, b: seq<bytes>, key: bytes,
                                       section': bytes, key': bytes)
    requires Sets(line, key) && AllSilent(more, key)
    ensures Found(a + [line] + more + b, section', key') == Found(a + [line] + b, section', key')
    decreases |a|
  {
    hide IsHeaderOf, AllSilent, Sets, Setting;
    SpreadSetting(a, line, more, b, key, key');
    if section' != [] {
      if a == [] {
        SpreadFoundFirst(line, more, b, key, section');
        assert a + [line] + more + b == [line] + (more + b) && a + [line] + b == [line] + b;
      } else {
        BehindCons(a[0], a[1..] + [line] + more + b, section');
        BehindCons(a[0], a[1..] + [line] + b, section');
        assert [a[0]] + (a[1..] + [line] + more + b) == a + [line] + more + b;
        assert [a[0]] + (a[1..] + [line] + b) == a + [line] + b;
        SpreadSetting(a[1..], line, more, b, key, key');
        SpreadFound(a[1..], line, more, b, key, section', key');
      }
    }
  }

  // ---------------------------------------------------------------------
  // What stands before and behind the new line
  // ---------------------------------------------------------------------

  /** No line of these sets the key or ends the section. */
  predicate Quiet(a: seq<bytes>, key: bytes) {
    a != [] ==> !IsHeader(a[0]) && (IsComment(a[0]) || !IsSettingOf(a[0], key)) && Quiet(a[1..], key)
  }

  /** Behind these lines a lookup of the key comes to the next line. */
  predicate Leads(a: seq<bytes>, section: bytes, key: bytes) {
    if section == [] then Quiet(a, key)
    else if a == [] then false
    else if IsHeaderOf(a[0], section) then Quiet(a[1..], key)
    else Leads(a[1..], section, key)
  }

  lemma AroundCons(l: bytes, a: seq<bytes>, line: bytes, b: seq<bytes>)
    ensures [l] + (a + [line] + b) == ([l] + a) + [line] + b
  {
  }

  lemma {:induction false} QuietFinds(a: seq<bytes>, key: bytes, line: bytes, c: seq<bytes>)
    requires Quiet(a, key) && Sets(line, key)
    ensures Setting(a + [line] + c, key) == Some(line)
  {
    hide IsHeader, IsSettingOf, IsComment;
    if a == [] {
      SettingCons(line, c, key);
      assert a + [line] + c == [line] + c;
    } else {
      QuietFinds(a[1..], key, line, c);
      SettingCons(a[0], a[1..] + [line] + c, key);
      AroundCons(a[0], a[1..], line, c);
      assert [a[0]] + a[1..] == a;
    }
  }

  lemma {:induction false} LeadsFinds(a: seq<bytes>, section: bytes, key: bytes, line: bytes, c: seq<bytes>)
    requires Leads(a, section, key) && Sets(line, key)
    ensures Found(a + [line] + c, section, key) == Some(line)
  {
    hide IsHeaderOf, Quiet, Sets, Setting;
    if section == [] {
      QuietFinds(a, key, line, c);
    } else {
      BehindCons(a[0], a[1..] + [line] + c, section);
      AroundCons(a[0], a[1..], line, c);
      assert [a[0]] + a[1..] == a;
      if IsHeaderOf(a[0], section) {
        QuietFinds(a[1..], key, line, c);
      } else {
        LeadsFinds(a[1..], section, key, line, c);
      }
    }
  }

  lemma QuietCons(l: bytes, a: seq<bytes>, key: bytes)
    requires !IsHeader(l) && (IsComment(l) || !IsSettingOf(l, key)) && Quiet(a, key)
    ensures Quiet([l] + a, key)
  {
    assert ([l] + a)[1..] == a;
  }

  lemma GapQuiet(size: nat, ended: bool, key: bytes)
    ensures Quiet(Gap(size, ended), key)
  {
    GapIsSilent([], key);
    assert [[LF]][1..] == [];
  }

  /** The edit puts its line between lines that do not depend on it, and where a lookup
      of the key comes to it first. */
  lemma {:induction false} EditKeysAround(ls: seq<bytes>, key: bytes, line: bytes, line': bytes, size: nat, ended: bool)
      returns (a: seq<bytes>, b: seq<bytes>)
    ensures EditKeys(ls, key, line, size, ended) == a + [line] + b
    ensures EditKeys(ls, key, line', size, ended) == a + [line'] + b
    ensures Quiet(a, key)
  {
    hide IsHeader, IsSettingOf, IsComment, Gap;
    if ls == [] {
      a, b := Gap(size, ended), [];
      GapQuiet(size, ended, key);
      assert a + [line] + b == a + [line] && a + [line'] + b == a + [line'];
    } else if IsHeader(ls[0]) || IsSettingOf(ls[0], key) {
      a, b := [], if IsHeader(ls[0]) then ls else ls[1..];
      assert a + [line] + b == [line] + b && a + [line'] + b == [line'] + b;
    } else {
      a, b := EditKeysAround(ls[1..], key, line, line', Cached(size, ls[0]), Ended(ls[0]));
      AroundCons(ls[0], a, line, b);
      AroundCons(ls[0], a, line', b);
      QuietCons(ls[0], a, key);
      a := [ls[0]] + a;
    }
  }

  lemma LeadsCons(l: bytes, a: seq<bytes>, section: bytes, key: bytes)
    requires section != []
    requires if IsHeaderOf(l, section) then Quiet(a, key) else Leads(a, section, key)
    ensures Leads([l] + a, section, key)
  {
    assert ([l] + a)[1..] == a;
  }

  lemma {:induction false} EditAround(ls: seq<bytes>, section: bytes, key: bytes, line: bytes, line': bytes, size: nat,
                                      ended: bool) returns (a: seq<bytes>, b: seq<bytes>)
    requires SectionOk(section)
    ensures Edit(ls, section, key, line, size, ended) == a + [line] + b
    ensures Edit(ls, section, key, line', size, ended) == a + [line'] + b
    ensures Leads(a, section, key)
  {
    hide IsHeader, IsHeaderOf, IsSettingOf, IsComment, EditKeys, SectionLine, Quiet;
    if section == [] {
      a, b := EditKeysAround(ls, key, line, line', size, ended);
    } else if ls == [] {
      a, b := Gap(size, ended) + [SectionLine(section)], [];
      NewSectionLeads(size, ended, section, key);
      assert a + [line] + b == Gap(size, ended) + [SectionLine(section), line];
      assert a + [line'] + b == Gap(size, ended) + [SectionLine(section), line'];
    } else {
      if IsHeaderOf(ls[0], section) {
        a, b := EditKeysAround(ls[1..], key, line, line', 0, false);
      } else {
        a, b := EditAround(ls[1..], section, key, line, line', Cached(size, ls[0]), Ended(ls[0]));
      }
      AroundCons(ls[0], a, line, b);
      AroundCons(ls[0], a, line', b);
      LeadsCons(ls[0], a, section, key);
      a := [ls[0]] + a;
    }
  }

  lemma NewSectionLeads(size: nat, ended: bool, section: bytes, key: bytes)
    requires SectionOk(section) && section != []
    ensures Leads(Gap(size, ended) + [SectionLine(section)], section, key)
    ensures Leads([SectionLine(section)], section, key)
  {
    SectionLineHeads(section);
    GapIsSilent(section, key);
    hide SectionLine, IsHeaderOf;
    assert [SectionLine(section)][1..] == [] && Quiet([], key);
    assert Leads([SectionLine(section)], section, key);
    if Gap(size, ended) == [] {
      assert [] + [SectionLine(section)] == [SectionLine(section)];
    } else {
      LeadsCons([LF], [SectionLine(section)], section, key);
      assert [[LF]] + [SectionLine(section)] == [[LF], SectionLine(section)];
    }
  }
}
