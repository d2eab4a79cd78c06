/** Setting a key is a plain edit of one line: the key reads back, every other key
    reads as before. */
module IniEdit {
  import opened Bytes
  import opened TgLines
  import opened IniValue
  import opened IniLines

  /** Keys that can be told from other text on a line. */
  predicate KeyOk(key: bytes) {
    && 0 < |key| <= KEY_MAX && LF !in key && EQUALS !in key
    && !Blank(key[0]) && !Blank(key[|key| - 1])
    && key[0] != OPEN && !OpensComment(key[0])
  }

  predicate SectionOk(section: bytes) {
    |section| <= SECTION_MAX && LF !in section
  }

  /** A line that sets the key and can be found. */
  predicate Sets(line: bytes, key: bytes) {
    IsSettingOf(line, key) && !IsHeader(line) && !IsComment(line)
  }

  // ---------------------------------------------------------------------
  // What lines are found by
  // ---------------------------------------------------------------------

  lemma HeaderOfIsHeader(line: bytes, section: bytes)
    requires IsHeaderOf(line, section)
    ensures IsHeader(line)
  {
  }

  lemma SameSection(line: bytes, s: bytes, s': bytes)
    requires IsHeaderOf(line, s)
    ensures IsHeaderOf(line, s') <==> Caseless(s, s')
  {
    hide SkipLeading, FindLast;
  }

  lemma SameKey(line: bytes, k: bytes, k': bytes)
    requires IsSettingOf(line, k) && IsSettingOf(line, k')
    ensures Caseless(k, k')
  {
    hide SkipLeading, SkipTrailing, Separator;
  }

  lemma CommentsSetNothing(line: bytes, key: bytes)
    requires IsSettingOf(line, key) && KeyOk(key)
    ensures !IsComment(line)
  {
    hide SkipLeading, SkipTrailing, Separator;
    var sp := SkipLeading(line);
    var name := sp[..Separator(sp)];
    var t := SkipTrailing(name);
    assert t[0] == name[0] == sp[0];
    assert Lower(t[0]) == Lower(key[0]);
  }

  /** An added line end is neither header nor setting. */
  lemma GapIsSilent(section: bytes, key: bytes)
    ensures !IsHeader([LF]) && !IsHeaderOf([LF], section) && !IsSettingOf([LF], key) && !IsComment([LF])
  {
    assert SkipLeading([LF][1..]) == [];
  }

  lemma FindAt(s: bytes, b: byte, i: nat)
    requires i < |s| && s[i] == b && forall j :: 0 <= j < i ==> s[j] != b
    ensures Find(s, b) == i
  {
  }

  lemma NamedParts(key: bytes, p: bytes)
    requires KeyOk(key)
    ensures var line := key + [EQUALS] + p;
            && SkipLeading(line) == line && Separator(line) == |key|
            && line[..|key|] == key && line[|key| + 1..] == p
  {
    var line := key + [EQUALS] + p;
    assert line[0] == key[0];
    assert forall j :: 0 <= j < |key| ==> line[j] == key[j];
    FindAt(line, EQUALS, |key|);
  }

  /** A line that begins with the key and an equal sign sets the key, to what follows. */
  lemma NamedSets(key: bytes, p: bytes)
    requires KeyOk(key)
    ensures Sets(key + [EQUALS] + p, key)
    ensures ValueIn(key + [EQUALS] + p) == ReadValue(p)
  {
    NamedParts(key, p);
    hide ReadValue, Separator, SkipLeading;
    assert SkipTrailing(key) == key;
  }

  lemma FindLastAt(s: bytes, b: byte, i: nat)
    requires i < |s| && s[i] == b && forall j :: i < j < |s| ==> s[j] != b
    ensures FindLast(s, b) == i
  {
  }

  lemma SectionLineHeads(section: bytes)
    requires SectionOk(section) && section != []
    ensures IsHeaderOf(SectionLine(section), section)
  {
    var line := SectionLine(section);
    assert line[0] == OPEN && SkipLeading(line) == line;
    FindLastAt(line, CLOSE, |section| + 1);
    assert line[1..|section| + 1] == section;
  }

  // ---------------------------------------------------------------------
  // Looking up after the edit
  // ---------------------------------------------------------------------

  lemma SettingCons(l: bytes, ls: seq<bytes>, key: bytes)
    ensures Setting([l] + ls, key) == if IsHeader(l) then None
                                      else if !IsComment(l) && IsSettingOf(l, key) then Some(l)
                                      else Setting(ls, key)
  {
    assert ([l] + ls)[1..] == ls;
  }

  lemma BehindCons(l: bytes, ls: seq<bytes>, section: bytes)
    requires section != []
    ensures Behind([l] + ls, section) == if IsHeaderOf(l, section) then Some(ls) else Behind(ls, section)
  {
    assert ([l] + ls)[1..] == ls;
  }

  lemma AfterGap(size: nat, ended: bool, ls: seq<bytes>, section: bytes, key: bytes)
    ensures Setting(Gap(size, ended) + ls, key) == Setting(ls, key)
    ensures section != [] ==> Behind(Gap(size, ended) + ls, section) == Behind(ls, section)
  {
    hide Setting, Behind, IsHeader, IsHeaderOf, IsSettingOf, IsComment;
    if Gap(size, ended) == [] {
      assert [] + ls == ls;
    } else {
      GapIsSilent(section, key);
      SettingCons([LF], ls, key);
      if section != [] {
        BehindCons([LF], ls, section);
      }
    }
  }

  lemma {:induction false} KeyIsSet(ls: seq<bytes>, key: bytes, line: bytes, size: nat, ended: bool)
    requires KeyOk(key) && Sets(line, key)
    ensures Setting(EditKeys(ls, key, line, size, ended), key) == Some(line)
  {
    hide IsHeader, IsSettingOf, IsComment, KeyOk;
    SettingCons(line, [], key);
    if ls == [] {
      AfterGap(size, ended, [line], [], key);
      assert [line] + [] == [line];
    } else if IsHeader(ls[0]) {
      SettingCons(line, ls, key);
    } else if IsSettingOf(ls[0], key) {
      SettingCons(line, ls[1..], key);
    } else {
      KeyIsSet(ls[1..], key, line, Cached(size, ls[0]), Ended(ls[0]));
      SettingCons(ls[0], EditKeys(ls[1..], key, line, Cached(size, ls[0]), Ended(ls[0])), key);
    }
  }

  lemma {:induction false} OtherKeysKept(ls: seq<bytes>, key: bytes, line: bytes, size: nat, ended: bool, key': bytes)
    requires KeyOk(key) && Sets(line, key) && !Caseless(key, key')
    ensures Setting(EditKeys(ls, key, line, size, ended), key') == Setting(ls, key')
  {
    hide IsHeader, IsSettingOf, IsComment, KeyOk, Caseless;
    if IsSettingOf(line, key') {
      SameKey(line, key, key');
    }
    if ls == [] {
      AfterGap(size, ended, [line], [], key');
      SettingCons(line, [], key');
      assert [line] + [] == [line];
    } else if IsHeader(ls[0]) {
      SettingCons(line, ls, key');
    } else if IsSettingOf(ls[0], key) {
      if IsSettingOf(ls[0], key') {
        SameKey(ls[0], key, key');
      }
      SettingCons(line, ls[1..], key');
    } else {
      OtherKeysKept(ls[1..], key, line, Cached(size, ls[0]), Ended(ls[0]), key');
      SettingCons(ls[0], EditKeys(ls[1..], key, line, Cached(size, ls[0]), Ended(ls[0])), key');
    }
  }

  /** The edit of a section ends where the next section begins. */
  lemma {:induction false} LaterSectionsKept(ls: seq<bytes>, key: bytes, line: bytes, size: nat, ended: bool,
                                             section': bytes)
    requires !IsHeader(line) && section' != []
    ensures Behind(EditKeys(ls, key, line, size, ended), section') == Behind(ls, section')
  {
    hide IsHeader, IsHeaderOf, IsSettingOf;
    if IsHeaderOf(line, section') {
      HeaderOfIsHeader(line, section');
    }
    if ls == [] {
      AfterGap(size, ended, [line], section', key);
      BehindCons(line, [], section');
      assert [line] + [] == [line];
    } else if IsHeader(ls[0]) {
      BehindCons(line, ls, section');
    } else {
      if IsHeaderOf(ls[0], section') {
        HeaderOfIsHeader(ls[0], section');
      }
      if IsSettingOf(ls[0], key) {
        BehindCons(line, ls[1..], section');
      } else {
        LaterSectionsKept(ls[1..], key, line, Cached(size, ls[0]), Ended(ls[0]), section');
        BehindCons(ls[0], EditKeys(ls[1..], key, line, Cached(size, ls[0]), Ended(ls[0])), section');
      }
    }
  }

  /** Before its header a section's edit changes nothing. */
  lemma {:induction false} EarlierKeysKept(ls: seq<bytes>, section: bytes, key: bytes, line: bytes, size: nat,
                                           ended: bool, key': bytes)
    requires SectionOk(section) && section != []
    ensures Setting(Edit(ls, section, key, line, size, ended), key') == Setting(ls, key')
  {
    hide IsHeader, IsHeaderOf, IsSettingOf, IsComment, EditKeys, SectionLine;
    if ls == [] {
      SectionLineHeads(section);
      HeaderOfIsHeader(SectionLine(section), section);
      AfterGap(size, ended, [SectionLine(section), line], [], key');
    } else if IsHeaderOf(ls[0], section) {
      HeaderOfIsHeader(ls[0], section);
      SettingCons(ls[0], EditKeys(ls[1..], key, line, 0, false), key');
    } else {
      EarlierKeysKept(ls[1..], section, key, line, Cached(size, ls[0]), Ended(ls[0]), key');
      SettingCons(ls[0], Edit(ls[1..], section, key, line, Cached(size, ls[0]), Ended(ls[0])), key');
    }
  }

  /** The edited file has the line of the key where a lookup finds it. */
  lemma {:induction false} EditSets(ls: seq<bytes>, section: bytes, key: bytes, line: bytes, size: nat, ended: bool)
    requires KeyOk(key) && SectionOk(section) && Sets(line, key)
    ensures Found(Edit(ls, section, key, line, size, ended), section, key) == Some(line)
  {
    hide IsHeader, IsHeaderOf, IsSettingOf, IsComment, EditKeys, SectionLine, KeyOk, Setting, Sets;
    if section == [] {
      KeyIsSet(ls, key, line, size, ended);
    } else if ls == [] {
      SectionLineHeads(section);
      AfterGap(size, ended, [SectionLine(section), line], section, key);
      BehindCons(SectionLine(section), [line], section);
      assert [SectionLine(section)] + [line] == [SectionLine(section), line];
      SetsAlone(line, key);
    } else if IsHeaderOf(ls[0], section) {
      KeyIsSet(ls[1..], key, line, 0, false);
      BehindCons(ls[0], EditKeys(ls[1..], key, line, 0, false), section);
    } else {
      EditSets(ls[1..], section, key, line, Cached(size, ls[0]), Ended(ls[0]));
      BehindCons(ls[0], Edit(ls[1..], section, key, line, Cached(size, ls[0]), Ended(ls[0])), section);
    }
  }

  lemma SetsAlone(line: bytes, key: bytes)
    requires Sets(line, key)
    ensures Setting([line], key) == Some(line)
  {
  }

  lemma OtherKeyNotSet(line: bytes, key: bytes, key': bytes)
    requires Sets(line, key) && !Caseless(key, key')
    ensures Setting([line], key') == None
  {
    if IsSettingOf(line, key') {
      SameKey(line, key, key');
    }
    assert Setting([line][1..], key') == None;
  }

  /** Appending a section is seen by nobody else. */
  lemma AppendedSection(section: bytes, key: bytes, line: bytes, size: nat, ended: bool, section': bytes, key': bytes)
    requires SectionOk(section) && section != [] && Sets(line, key)
    requires section' != [] && !(Caseless(section, section') && Caseless(key, key'))
    ensures Found(Gap(size, ended) + [SectionLine(section), line], section', key') == None
  {
    hide IsHeader, IsHeaderOf, IsSettingOf, IsComment, SectionLine, Setting, Caseless, Behind;
    var ls := [SectionLine(section), line];
    SectionLineHeads(section);
    SameSection(SectionLine(section), section, section');
    AfterGap(size, ended, ls, section', key');
    BehindCons(SectionLine(section), [line], section');
    assert [SectionLine(section)] + [line] == ls;
    BehindCons(line, [], section');
    assert [line] + [] == [line];
    NothingBehind(section');
    if Caseless(section, section') {
      OtherKeyNotSet(line, key, key');
    } else if IsHeaderOf(line, section') {
      HeaderOfIsHeader(line, section');
    }
  }

  lemma NothingBehind(section: bytes)
    requires section != []
    ensures Behind([], section) == None
  {
  }

  /** Every other key is found as before, in whatever section. */
  lemma {:induction false} EditKeepsOthers(ls: seq<bytes>, section: bytes, key: bytes, line: bytes, size: nat,
                                           ended: bool, section': bytes, key': bytes)
    requires KeyOk(key) && SectionOk(section) && Sets(line, key)
    requires !(Caseless(section, section') && Caseless(key, key'))
    ensures Found(Edit(ls, section, key, line, size, ended), section', key') == Found(ls, section', key')
  {
    hide IsHeader, IsHeaderOf, IsSettingOf, IsComment, EditKeys, SectionLine, KeyOk, Setting;
    if section == [] {
      if section' == [] {
        OtherKeysKept(ls, key, line, size, ended, key');
      } else {
        LaterSectionsKept(ls, key, line, size, ended, section');
      }
    } else if section' == [] {
      EarlierKeysKept(ls, section, key, line, size, ended, key');
    } else if ls == [] {
      AppendedSection(section, key, line, size, ended, section', key');
    } else {
      OtherSectionKept(ls, section, key, line, size, ended, section', key');
      if !IsHeaderOf(ls[0], section) {
        EditKeepsOthers(ls[1..], section, key, line, Cached(size, ls[0]), Ended(ls[0]), section', key');
      }
    }
  }

  lemma OtherSectionKept(ls: seq<bytes>, section: bytes, key: bytes, line: bytes, size: nat, ended: bool,
                         section': bytes, key': bytes)
    requires KeyOk(key) && SectionOk(section) && Sets(line, key) && ls != [] && section != [] && section' != []
    requires !(Caseless(section, section') && Caseless(key, key'))
    ensures var edited := Edit(ls, section, key, line, size, ended);
            if IsHeaderOf(ls[0], section) || IsHeaderOf(ls[0], section')
            then Found(edited, section', key') == Found(ls, section', key')
            else Behind(edited, section')
                 == Behind(Edit(ls[1..], section, key, line, Cached(size, ls[0]), Ended(ls[0])), section')
  {
    hide IsHeader, IsHeaderOf, IsSettingOf, IsComment, EditKeys, SectionLine, KeyOk, Setting, Caseless;
    if IsHeaderOf(ls[0], section) {
      SameSection(ls[0], section, section');
      BehindCons(ls[0], EditKeys(ls[1..], key, line, 0, false), section');
      if IsHeaderOf(ls[0], section') {
        OtherKeysKept(ls[1..], key, line, 0, false, key');
      } else {
        LaterSectionsKept(ls[1..], key, line, 0, false, section');
      }
    } else {
      var tail := Edit(ls[1..], section, key, line, Cached(size, ls[0]), Ended(ls[0]));
      BehindCons(ls[0], tail, section');
      EarlierKeysKept(ls[1..], section, key, line, Cached(size, ls[0]), Ended(ls[0]), key');
    }
  }

  // ---------------------------------------------------------------------
  // The shortcut
  // ---------------------------------------------------------------------

  lemma {:induction false} OverwriteKeysIsEdit(ls: seq<bytes>, key: bytes, line: bytes, size: nat, ended: bool)
    requires KeyOk(key) && Setting(ls, key).Some?
    ensures OverwriteKeys(ls, key, line) == EditKeys(ls, key, line, size, ended)
  {
    hide IsHeader, IsSettingOf, IsComment, KeyOk;
    if IsSettingOf(ls[0], key) {
      CommentsSetNothing(ls[0], key);
    } else {
      OverwriteKeysIsEdit(ls[1..], key, line, Cached(size, ls[0]), Ended(ls[0]));
    }
  }

  /** Overwriting a line in place gives the same file as rewriting it. */
  lemma {:induction false} OverwriteIsEdit(ls: seq<bytes>, section: bytes, key: bytes, line: bytes, size: nat,
                                           ended: bool)
    requires KeyOk(key) && Found(ls, section, key).Some?
    ensures Overwrite(ls, section, key, line) == Edit(ls, section, key, line, size, ended)
  {
    hide IsHeader, IsHeaderOf, IsSettingOf, IsComment, KeyOk, Setting;
    if section == [] {
      OverwriteKeysIsEdit(ls, key, line, size, ended);
    } else if IsHeaderOf(ls[0], section) {
      OverwriteKeysIsEdit(ls[1..], key, line, 0, false);
    } else {
      OverwriteIsEdit(ls[1..], section, key, line, Cached(size, ls[0]), Ended(ls[0]));
    }
  }
}
