/** Lines of the settings file: how the edited text is read again, whether or not its
    last line was ended, and that the edit concerns one line only. */
module IniSettings {
  import opened Bytes
  import opened TgLines
  import opened IniValue
  import opened IniLines
  import opened IniEdit

  // ---------------------------------------------------------------------
  // Files whose lines fit the buffer
  // ---------------------------------------------------------------------

  predicate OneLine(l: bytes) {
    0 < |l| <= LINE_ROOM && forall i :: 0 <= i < |l| - 1 ==> l[i] != LF
  }

  predicate EndedLine(l: bytes) {
    OneLine(l) && Ended(l)
  }

  /** A line without LF, with room for one. */
  predicate OpenLine(l: bytes) {
    OneLine(l) && !Ended(l) && |l| < LINE_ROOM
  }

  /** Whole lines; only the last may lack its LF. */
  predicate Tidy(ls: seq<bytes>) {
    ls != [] ==> (EndedLine(ls[0]) || (|ls| == 1 && OpenLine(ls[0]))) && Tidy(ls[1..])
  }

  predicate Fits(data: bytes) {
    Tidy(Chunks(data))
  }

  lemma {:induction false} ChunkIsLine(l: bytes, rest: bytes, room: nat)
    requires l != [] && |l| <= room && (forall i :: 0 <= i < |l| - 1 ==> l[i] != LF)
    requires Ended(l) || rest == []
    ensures FirstChunk(l + rest, room) == l
  {
    var d := l + rest;
    if |l| == 1 {
      if l[0] != LF {
        assert d[1..] == [];
      }
    } else {
      assert d[1..] == l[1..] + rest;
      ChunkIsLine(l[1..], rest, room - 1);
    }
  }

  /** Lines written one after the other are read as these lines. */
  lemma {:induction false} ChunksOfFlat(ls: seq<bytes>)
    requires Tidy(ls)
    ensures Chunks(Flat(ls)) == ls
    decreases |ls|
  {
    if ls != [] {
      var l, rest := ls[0], Flat(ls[1..]);
      ChunksOfFlat(ls[1..]);
      ChunkIsLine(l, rest, LINE_ROOM);
      assert (l + rest)[|l|..] == rest;
    }
  }

  // ---------------------------------------------------------------------
  // A missing line end changes nothing
  // ---------------------------------------------------------------------

  lemma {:induction false} SkipLeadingEnd(l: bytes)
    ensures SkipLeading(l + [LF]) == if SkipLeading(l) == [] then [] else SkipLeading(l) + [LF]
  {
    if l == [] {
      assert SkipLeading([LF][1..]) == [];
    } else if Blank(l[0]) {
      assert (l + [LF])[1..] == l[1..] + [LF];
      SkipLeadingEnd(l[1..]);
    }
  }

  lemma {:induction false} UncommentedEnd(s: bytes, inString: bool)
    ensures var u := Uncommented(s, inString);
            Uncommented(s + [LF], inString) == u || Uncommented(s + [LF], inString) == u + [LF]
  {
    hide Uncommented, OpensComment, Paired;
    if s == [] {
      RestKept([LF], inString);
      Stopped(s, inString);
      assert [] + [LF] == [LF];
    } else if OpensComment(s[0]) && !inString {
      Stopped(s, inString);
      Stopped(s + [LF], inString);
    } else if Paired(s) {
      PairIs(s);
      UncommentedEnd(s[2..], inString);
      assert s + [LF] == [s[0], QUOTE] + (s[2..] + [LF]);
      UncommentedPair(s[0], s[2..], inString);
      UncommentedPair(s[0], s[2..] + [LF], inString);
    } else {
      var next := if s[0] == QUOTE then !inString else inString;
      UncommentedEnd(s[1..], next);
      NotPairedEnd(s);
      assert s == [s[0]] + s[1..];
      assert s + [LF] == [s[0]] + (s[1..] + [LF]);
      UncommentedOne(s[0], s[1..], inString);
      UncommentedOne(s[0], s[1..] + [LF], inString);
    }
  }

  lemma Stopped(s: bytes, inString: bool)
    requires s == [] || (OpensComment(s[0]) && !inString)
    ensures Uncommented(s, inString) == []
  {
  }

  lemma PairIs(s: bytes)
    requires Paired(s)
    ensures (s[0] == QUOTE || s[0] == BACKSLASH) && 2 <= |s| && s == [s[0], QUOTE] + s[2..]
  {
  }

  lemma NotPairedEnd(s: bytes)
    requires !Paired(s)
    ensures !Paired(s + [LF])
  {
  }

  lemma SkipTrailingEnd(u: bytes)
    ensures SkipTrailing(u + [LF]) == SkipTrailing(u)
  {
    assert (u + [LF])[..|u|] == u;
  }

  lemma ReadValueEnd(rest: bytes)
    ensures ReadValue(rest + [LF]) == ReadValue(rest)
  {
    SkipLeadingEnd(rest);
    var s := SkipLeading(rest);
    UncommentedEnd(s, false);
    SkipTrailingEnd(Uncommented(s, false));
    hide SkipLeading, SkipTrailing, Uncommented;
  }

  lemma FindEnd(s: bytes, b: byte)
    requires b != LF
    ensures var i := Find(s, b); Find(s + [LF], b) == if i < |s| then i else |s| + 1
  {
    var t, i := s + [LF], Find(s, b);
    if i < |s| {
      assert forall j :: 0 <= j < i ==> t[j] == s[j];
      FindAt(t, b, i);
    } else {
      assert forall j :: 0 <= j < |s| ==> t[j] == s[j];
    }
  }

  lemma FindLastEnd(s: bytes, b: byte)
    requires b != LF
    ensures var i := FindLast(s, b); FindLast(s + [LF], b) == if i < |s| then i else |s| + 1
  {
    var t := s + [LF];
    assert t[..|t| - 1] == s;
  }

  lemma HeaderEnd(l: bytes, section: bytes)
    ensures IsHeader(l + [LF]) == IsHeader(l)
    ensures IsComment(l + [LF]) == IsComment(l)
    ensures IsHeaderOf(l + [LF], section) == IsHeaderOf(l, section)
  {
    SkipLeadingEnd(l);
    var sp := SkipLeading(l);
    FindLastEnd(sp, CLOSE);
    hide SkipLeading, FindLast, Caseless;
    var t := sp + [LF];
    if sp != [] && sp[0] == OPEN && FindLast(sp, CLOSE) < |sp| {
      assert t[1..FindLast(sp, CLOSE)] == sp[1..FindLast(sp, CLOSE)];
    }
  }

  lemma SeparatorEnd(sp: bytes)
    ensures var e := Separator(sp); var t := sp + [LF];
            && Separator(t) == (if e < |sp| then e else |t|)
            && (e < |sp| ==> t[..e] == sp[..e] && t[e + 1..] == sp[e + 1..] + [LF])
  {
    FindEnd(sp, EQUALS);
    FindEnd(sp, COLON);
    hide Find;
  }

  lemma SettingEnd(l: bytes, key: bytes)
    ensures IsSettingOf(l + [LF], key) == IsSettingOf(l, key)
    ensures ValueIn(l + [LF]) == ValueIn(l)
  {
    SkipLeadingEnd(l);
    var sp := SkipLeading(l);
    SeparatorEnd(sp);
    NoSeparator();
    hide SkipLeading, SkipTrailing, Separator, ReadValue, Caseless;
    if sp != [] && Separator(sp) < |sp| {
      ReadValueEnd(sp[Separator(sp) + 1..]);
    }
  }

  lemma NoSeparator()
    ensures Separator([]) == 0
  {
  }

  /** A line and the same line ended are looked at alike. */
  lemma LineEndIrrelevant(l: bytes, section: bytes, key: bytes)
    ensures IsHeader(l + [LF]) == IsHeader(l)
    ensures IsHeaderOf(l + [LF], section) == IsHeaderOf(l, section)
    ensures IsSettingOf(l + [LF], key) == IsSettingOf(l, key)
    ensures IsComment(l + [LF]) == IsComment(l)
    ensures ValueIn(l + [LF]) == ValueIn(l)
  {
    HeaderEnd(l, section);
    SettingEnd(l, key);
  }

  function ValueOf(line: Option<bytes>): Option<bytes> {
    if line.None? then None else Some(ValueIn(line.value))
  }

  lemma LookupIsFound(ls: seq<bytes>, section: bytes, key: bytes)
    ensures Lookup(ls, section, key) == ValueOf(Found(ls, section, key))
  {
  }

  // ---------------------------------------------------------------------
  // The edited text is read as the edited lines
  // ---------------------------------------------------------------------

  /** An open line takes the line end that was written behind it. */
  function Mended(es: seq<bytes>): seq<bytes> {
    if es == [] then []
    else if 2 <= |es| && !Ended(es[0]) && es[1] == [LF] then [es[0] + [LF]] + es[2..]
    else [es[0]] + Mended(es[1..])
  }

  predicate Mendable(es: seq<bytes>) {
    || es == []
    || (2 <= |es| && OpenLine(es[0]) && es[1] == [LF] && Tidy(es[2..]))
    || (|es| == 1 && OpenLine(es[0]))
    || (EndedLine(es[0]) && Mendable(es[1..]))
  }

  lemma TidyCons(l: bytes, ls: seq<bytes>)
    requires EndedLine(l) && Tidy(ls)
    ensures Tidy([l] + ls)
  {
    assert ([l] + ls)[1..] == ls;
  }

  lemma MendableCons(l: bytes, es: seq<bytes>)
    requires EndedLine(l) && Mendable(es)
    ensures Mendable([l] + es)
  {
    assert ([l] + es)[1..] == es;
  }

  lemma {:induction false} TidyMendable(ls: seq<bytes>)
    requires Tidy(ls)
    ensures Mendable(ls)
  {
    if ls != [] {
      TidyMendable(ls[1..]);
    }
  }

  lemma MendsFirst(es: seq<bytes>)
    requires 2 <= |es| && OpenLine(es[0]) && es[1] == [LF] && Tidy(es[2..])
    ensures Mended(es) == [es[0] + [LF]] + es[2..]
    ensures EndedLine(es[0] + [LF])
    ensures Flat(Mended(es)) == Flat(es)
  {
    EndsOpenLine(es[0]);
    hide Flat, Tidy, OneLine, Ended;
    MendsText(es[0], es[2..]);
    assert es == [es[0]] + ([[LF]] + es[2..]);
  }

  lemma EndsOpenLine(l: bytes)
    requires OpenLine(l)
    ensures EndedLine(l + [LF]) && !Ended(l)
  {
  }

  lemma MendsText(l: bytes, ls: seq<bytes>)
    ensures Flat([l] + ([[LF]] + ls)) == Flat([l + [LF]] + ls)
  {
    FlatCons(l, [[LF]] + ls);
    FlatCons([LF], ls);
    FlatCons(l + [LF], ls);
  }

  /** The same text, now in lines as they are read. */
  lemma {:induction false} MendedIsTidy(es: seq<bytes>)
    requires Mendable(es)
    ensures Tidy(Mended(es)) && Flat(Mended(es)) == Flat(es)
  {
    hide OneLine, Ended;
    if 2 <= |es| && OpenLine(es[0]) && es[1] == [LF] && Tidy(es[2..]) {
      MendsFirst(es);
      TidyCons(es[0] + [LF], es[2..]);
    } else if 1 == |es| && OpenLine(es[0]) {
      assert Mended(es) == es;
    } else if es != [] {
      MendedIsTidy(es[1..]);
      TidyCons(es[0], Mended(es[1..]));
      FlatCons(es[0], Mended(es[1..]));
    }
  }

  lemma {:induction false} MendedSetting(es: seq<bytes>, key: bytes)
    ensures ValueOf(Setting(Mended(es), key)) == ValueOf(Setting(es, key))
  {
    hide IsHeader, IsSettingOf, IsComment, ValueIn, Ended;
    if 2 <= |es| && !Ended(es[0]) && es[1] == [LF] {
      LineEndIrrelevant(es[0], [], key);
      GapIsSilent([], key);
      assert es[1..][1..] == es[2..];
      SettingCons(es[0] + [LF], es[2..], key);
    } else if es != [] {
      MendedSetting(es[1..], key);
      SettingCons(es[0], Mended(es[1..]), key);
    }
  }

  /** Mending does not change what any lookup returns. */
  lemma {:induction false} MendedLookup(es: seq<bytes>, section: bytes, key: bytes)
    ensures Lookup(Mended(es), section, key) == Lookup(es, section, key)
  {
    hide IsHeaderOf, ValueIn, Setting, Ended;
    MendedSetting(es, key);
    if section != [] {
      if 2 <= |es| && !Ended(es[0]) && es[1] == [LF] {
        LineEndIrrelevant(es[0], section, key);
        GapIsSilent(section, key);
        assert es[1..][1..] == es[2..];
        BehindCons(es[0] + [LF], es[2..], section);
        SilentGap(es[2..], key);
        BehindCons([LF], es[2..], section);
        assert es[1..] == [[LF]] + es[2..];
      } else if es != [] {
        MendedLookup(es[1..], section, key);
        BehindCons(es[0], Mended(es[1..]), section);
        MendedSetting(es[1..], key);
      }
    }
  }

  lemma SilentGap(ls: seq<bytes>, key: bytes)
    ensures Setting([[LF]] + ls, key) == Setting(ls, key)
  {
    GapIsSilent([], key);
    SettingCons([LF], ls, key);
  }

  lemma GapMendable(size: nat, ended: bool, ls: seq<bytes>)
    requires Tidy(ls)
    ensures Mendable(Gap(size, ended) + ls)
  {
    TidyMendable(ls);
    if Gap(size, ended) == [] {
      assert [] + ls == ls;
    } else {
      MendableCons([LF], ls);
    }
  }

  lemma OpenMendable(l: bytes, size: nat, ls: seq<bytes>)
    requires OpenLine(l) && Tidy(ls)
    ensures Mendable([l] + (Gap(size, false) + ls))
  {
    assert ([l] + ([[LF]] + ls))[2..] == ls;
  }

  lemma TidyOne(line: bytes)
    requires EndedLine(line)
    ensures Tidy([line])
  {
  }

  lemma {:induction false} EditKeysMendable(ls: seq<bytes>, key: bytes, line: bytes, size: nat, ended: bool)
    requires Tidy(ls) && EndedLine(line)
    ensures Mendable(EditKeys(ls, key, line, size, ended))
  {
    hide IsHeader, IsSettingOf, EndedLine, Ended, Mendable, Gap;
    TidyOne(line);
    if ls == [] {
      GapMendable(size, ended, [line]);
    } else if IsHeader(ls[0]) {
      TidyCons(line, ls);
      TidyMendable([line] + ls);
    } else if IsSettingOf(ls[0], key) {
      TidyCons(line, ls[1..]);
      TidyMendable([line] + ls[1..]);
    } else if EndedLine(ls[0]) {
      EditKeysMendable(ls[1..], key, line, Cached(size, ls[0]), Ended(ls[0]));
      MendableCons(ls[0], EditKeys(ls[1..], key, line, Cached(size, ls[0]), Ended(ls[0])));
    } else {
      OpenMendable(ls[0], Cached(size, ls[0]), [line]);
    }
  }

  lemma {:induction false} EditMendable(ls: seq<bytes>, section: bytes, key: bytes, line: bytes, size: nat, ended: bool)
    requires Tidy(ls) && EndedLine(line) && (section != [] ==> EndedLine(SectionLine(section)))
    ensures Mendable(Edit(ls, section, key, line, size, ended))
  {
    hide IsHeaderOf, EndedLine, Ended, Mendable, Gap, SectionLine, EditKeys;
    TidyOne(line);
    if section == [] {
      EditKeysMendable(ls, key, line, size, ended);
    } else if ls == [] {
      TidyCons(SectionLine(section), [line]);
      assert [SectionLine(section)] + [line] == [SectionLine(section), line];
      GapMendable(size, ended, [SectionLine(section), line]);
    } else if IsHeaderOf(ls[0], section) {
      if EndedLine(ls[0]) {
        EditKeysMendable(ls[1..], key, line, 0, false);
        MendableCons(ls[0], EditKeys(ls[1..], key, line, 0, false));
      } else {
        EditNothing(key, line);
        OpenMendable(ls[0], 0, [line]);
      }
    } else if EndedLine(ls[0]) {
      EditMendable(ls[1..], section, key, line, Cached(size, ls[0]), Ended(ls[0]));
      MendableCons(ls[0], Edit(ls[1..], section, key, line, Cached(size, ls[0]), Ended(ls[0])));
    } else {
      TidyCons(SectionLine(section), [line]);
      assert [SectionLine(section)] + [line] == [SectionLine(section), line];
      OpenMendable(ls[0], Cached(size, ls[0]), [SectionLine(section), line]);
    }
  }

  lemma EditNothing(key: bytes, line: bytes)
    ensures EditKeys([], key, line, 0, false) == Gap(0, false) + [line]
  {
  }

  lemma SectionLineEnded(section: bytes)
    requires SectionOk(section) && section != []
    ensures EndedLine(SectionLine(section))
  {
    var p := [OPEN] + section + [CLOSE];
    assert LF !in p;
    assert SectionLine(section) == p + [LF];
  }

  /** What is added at the end of a file besides the line itself. */
  predicate Addition(more: seq<bytes>, section: bytes, line: bytes) {
    more in {[line], [[LF], line], [SectionLine(section), line], [[LF], SectionLine(section), line]}
  }

  /** The edit replaces one line that sets the key, or adds the line; all other lines
      stay as they are and in their order. */
  ghost predicate OneLineEdit(ls: seq<bytes>, edited: seq<bytes>, section: bytes, key: bytes, line: bytes, i: nat) {
    i <= |ls| &&
    if i == |ls| then exists more :: Addition(more, section, line) && edited == ls + more
    else edited == ls[..i] + [line] + ls[i..] || (IsSettingOf(ls[i], key) && edited == ls[..i] + [line] + ls[i + 1..])
  }

  lemma OneLineEditCons(c: bytes, ls: seq<bytes>, edited: seq<bytes>, section: bytes, key: bytes, line: bytes, i: nat)
    requires OneLineEdit(ls, edited, section, key, line, i)
    ensures OneLineEdit([c] + ls, [c] + edited, section, key, line, i + 1)
  {
    hide IsSettingOf, Addition;
    var all := [c] + ls;
    if i == |ls| {
      var more :| Addition(more, section, line) && edited == ls + more;
      assert [c] + (ls + more) == all + more;
    } else {
      assert all[..i + 1] == [c] + ls[..i] && all[i + 1..] == ls[i..] && all[i + 1] == ls[i];
      assert all[i + 2..] == ls[i + 1..];
      assert [c] + (ls[..i] + [line] + ls[i..]) == all[..i + 1] + [line] + all[i + 1..];
      assert [c] + (ls[..i] + [line] + ls[i + 1..]) == all[..i + 1] + [line] + all[i + 2..];
    }
  }

  lemma OneLineEditFirst(ls: seq<bytes>, section: bytes, key: bytes, line: bytes)
    requires ls != []
    ensures OneLineEdit(ls, [line] + ls, section, key, line, 0)
    ensures IsSettingOf(ls[0], key) ==> OneLineEdit(ls, [line] + ls[1..], section, key, line, 0)
  {
    hide IsSettingOf;
    assert ls[..0] + [line] + ls[0..] == [line] + ls;
    assert ls[..0] + [line] + ls[1..] == [line] + ls[1..];
  }

  lemma Appends(size: nat, ended: bool, section: bytes, key: bytes, line: bytes)
    ensures OneLineEdit([], Gap(size, ended) + [line], section, key, line, 0)
    ensures OneLineEdit([], Gap(size, ended) + [SectionLine(section), line], section, key, line, 0)
  {
    hide SectionLine;
    var one, two := Gap(size, ended) + [line], Gap(size, ended) + [SectionLine(section), line];
    assert one == [line] || one == [[LF], line];
    assert two == [SectionLine(section), line] || two == [[LF], SectionLine(section), line];
    assert Addition(one, section, line) && [] + one == one;
    assert Addition(two, section, line) && [] + two == two;
  }

  lemma {:induction false} EditKeysIsOneLine(ls: seq<bytes>, section: bytes, key: bytes, line: bytes, size: nat,
                                             ended: bool) returns (i: nat)
    ensures OneLineEdit(ls, EditKeys(ls, key, line, size, ended), section, key, line, i)
  {
    hide IsHeader, IsSettingOf, OneLineEdit, Gap;
    if ls == [] {
      i := 0;
      Appends(size, ended, section, key, line);
    } else if IsHeader(ls[0]) || IsSettingOf(ls[0], key) {
      i := 0;
      OneLineEditFirst(ls, section, key, line);
    } else {
      i := EditKeysIsOneLine(ls[1..], section, key, line, Cached(size, ls[0]), Ended(ls[0]));
      OneLineEditCons(ls[0], ls[1..], EditKeys(ls[1..], key, line, Cached(size, ls[0]), Ended(ls[0])), section, key,
                      line, i);
      assert [ls[0]] + ls[1..] == ls;
      i := i + 1;
    }
  }

  lemma {:induction false} EditIsOneLine(ls: seq<bytes>, section: bytes, key: bytes, line: bytes, size: nat,
                                         ended: bool) returns (i: nat)
    ensures OneLineEdit(ls, Edit(ls, section, key, line, size, ended), section, key, line, i)
  {
    hide IsHeaderOf, EditKeys, OneLineEdit, Gap;
    if section == [] {
      i := EditKeysIsOneLine(ls, section, key, line, size, ended);
    } else if ls == [] {
      i := 0;
      Appends(size, ended, section, key, line);
    } else {
      assert [ls[0]] + ls[1..] == ls;
      if IsHeaderOf(ls[0], section) {
        i := EditKeysIsOneLine(ls[1..], section, key, line, 0, false);
        OneLineEditCons(ls[0], ls[1..], EditKeys(ls[1..], key, line, 0, false), section, key, line, i);
      } else {
        i := EditIsOneLine(ls[1..], section, key, line, Cached(size, ls[0]), Ended(ls[0]));
        OneLineEditCons(ls[0], ls[1..], Edit(ls[1..], section, key, line, Cached(size, ls[0]), Ended(ls[0])), section,
                        key, line, i);
      }
      i := i + 1;
    }
  }
}
