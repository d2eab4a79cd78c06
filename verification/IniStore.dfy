/** The settings file as a store of values: what one call and any run of calls mean
    for every key. */
module IniStore {
  import opened Bytes
  import opened TgLines
  import opened IniValue
  import opened IniLines
  import opened IniEdit
  import opened IniSettings
  import opened IniParts

  // ---------------------------------------------------------------------
  // The new file
  // ---------------------------------------------------------------------

  function LookupFile(file: Option<bytes>, section: bytes, key: bytes): Option<bytes> {
    var data :- file;
    Lookup(Chunks(data), section, key)
  }

  predicate FileFits(file: Option<bytes>) {
    file.Some? ==> Fits(file.value)
  }

  predicate SameSetting(section: bytes, key: bytes, section': bytes, key': bytes) {
    Caseless(section, section') && Caseless(key, key')
  }

  /** Whichever way a file is changed, it is changed to the edited lines. */
  lemma PutIsEdit(data: bytes, section: bytes, key: bytes, value: bytes)
    requires KeyOk(key)
    ensures var r := PutSetting(Some(data), section, key, value, true);
            var found := Lookup(Chunks(data), section, key);
            r == Put(Some(if found == Some(value) then data
                          else Flat(Edit(Chunks(data), section, key, KeyLine(key, value), 0, false))), true)
  {
    hide KeyLine, Edit, Overwrite, KeyOk, Found, Flat, ValueIn;
    var ls := Chunks(data);
    LookupIsFound(ls, section, key);
    if Found(ls, section, key).Some? {
      OverwriteIsEdit(ls, section, key, KeyLine(key, value), 0, false);
    }
  }

  /** The rewritten file is read as the edited lines, however the cache was flushed:
      the written lines stand where the edit puts its line. */
  lemma EditedFile(data: bytes, section: bytes, key: bytes, value: bytes) returns (a: seq<bytes>, b: seq<bytes>)
    requires Fits(data) && SectionOk(section) && KeyOk(key)
    ensures var edited := Edit(Chunks(data), section, key, KeyLine(key, value), 0, false);
            Fits(Flat(edited)) && Chunks(Flat(edited)) == Mended(a + WrittenLines(key, value) + b)
    ensures var first := WrittenLines(key, value)[0];
            Edit(Chunks(data), section, key, first, 0, false) == a + [first] + b && Leads(a, section, key)
  {
    hide KeyLine, SectionLine, Edit, KeyOk, Flat, Tidy, WrittenLines, Chunks, Sets, ValueIn, Leads;
    var ls, written := Chunks(data), WrittenLines(key, value);
    WrittenFirst(key, value);
    WrittenEnded(key, value);
    WrittenIsKeyLine(key, value);
    if section != [] {
      SectionLineEnded(section);
    }
    a, b := EditAround(ls, section, key, KeyLine(key, value), written[0], 0, false);
    EditMendable(ls, section, key, written[0], 0, false);
    SpreadMendable(a, written[0], written, b);
    SpreadFlat(a, KeyLine(key, value), written, b);
    MendedIsTidy(a + written + b);
    ChunksOfFlat(Mended(a + written + b));
  }

  lemma WrittenIsKeyLine(key: bytes, value: bytes)
    ensures Flat(WrittenLines(key, value)) == KeyLine(key, value)
  {
    FlatOfChunks(KeyLine(key, value));
  }

  lemma WrittenApart(a: seq<bytes>, ls: seq<bytes>, b: seq<bytes>)
    requires ls != []
    ensures a + ls + b == a + [ls[0]] + ls[1..] + b
    ensures a + ls + b == a + [ls[0]] + (ls[1..] + b)
    ensures a + ls + b == a + ([ls[0]] + (ls[1..] + b))
  {
  }

  lemma NewFileLookup(section: bytes, key: bytes, line: bytes, section': bytes, key': bytes)
    requires SectionOk(section) && KeyOk(key) && Sets(line, key)
    ensures var ls := if section == [] then [line] else [SectionLine(section), line];
            && Found(ls, section, key) == Some(line)
            && (!SameSetting(section, key, section', key') ==> Found(ls, section', key') == None)
  {
    hide KeyOk, SectionLine, Edit, Setting, Behind, Sets, Caseless;
    var ls := if section == [] then [line] else [SectionLine(section), line];
    var edited := Edit([], section, key, line, 0, false);
    EditNew(section, key, line);
    assert edited == Gap(0, false) + ls;
    EditSets([], section, key, line, 0, false);
    AfterGapFound(ls, section, key);
    if !SameSetting(section, key, section', key') {
      EditKeepsOthers([], section, key, line, 0, false, section', key');
      AfterGapFound(ls, section', key');
      NothingFound(section', key');
    }
  }

  lemma EditNew(section: bytes, key: bytes, line: bytes)
    ensures Edit([], section, key, line, 0, false)
         == Gap(0, false) + (if section == [] then [line] else [SectionLine(section), line])
  {
  }

  lemma AfterGapFound(ls: seq<bytes>, section: bytes, key: bytes)
    ensures Found(Gap(0, false) + ls, section, key) == Found(ls, section, key)
  {
    AfterGap(0, false, ls, section, key);
    hide Setting;
  }

  lemma NothingFound(section: bytes, key: bytes)
    ensures Found([], section, key) == None
  {
  }

  /** The lines of a file that is made anew. */
  lemma NewFile(section: bytes, key: bytes, value: bytes)
    requires SectionOk(section) && KeyOk(key)
    ensures var file := SectionLine(section) + KeyLine(key, value);
            var a := if section == [] then [] else [SectionLine(section)];
            Fits(file) && Chunks(file) == a + WrittenLines(key, value) + []
  {
    hide KeyLine, KeyOk, SectionLine, WrittenLines, Flat, Tidy, Chunks;
    var a := if section == [] then [] else [SectionLine(section)];
    var ls := WrittenLines(key, value);
    WrittenEnded(key, value);
    WrittenIsKeyLine(key, value);
    EmptyTidy();
    EndedTidy(ls, []);
    if section != [] {
      SectionLineEnded(section);
      TidyCons(SectionLine(section), ls + []);
      FlatCons(SectionLine(section), ls + []);
      assert a + ls + [] == [SectionLine(section)] + (ls + []);
    } else {
      assert SectionLine(section) == [] by { NoSection(); }
      assert [] + KeyLine(key, value) == KeyLine(key, value);
      assert a + ls + [] == ls + [];
    }
    assert ls + [] == ls;
    ChunksOfFlat(a + ls + []);
  }

  lemma EmptyTidy()
    ensures Tidy([])
  {
  }

  lemma NoSection()
    ensures SectionLine([]) == []
  {
  }

  // ---------------------------------------------------------------------
  // One call
  // ---------------------------------------------------------------------

  lemma PutsIntoNewFile(section: bytes, key: bytes, value: bytes, section': bytes, key': bytes)
    requires SectionOk(section) && KeyOk(key)
    ensures var r := PutSetting(None, section, key, value, true);
            && r.ok && r.file.Some? && Fits(r.file.value)
            && LookupFile(r.file, section, key) == Some(ReadsAs(key, value))
            && (!SameSetting(section, key, section', key') && Harmless(key, value)
                ==> LookupFile(r.file, section', key') == None)
  {
    hide KeyLine, KeyOk, SectionLine, WrittenLines, Found, Sets, Caseless, ValueIn, ReadsAs, Lookup, AllSilent;
    var a, ls := if section == [] then [] else [SectionLine(section)], WrittenLines(key, value);
    WrittenFirst(key, value);
    NewFile(section, key, value);
    NewFileLeads(section, key);
    LeadsFinds(a, section, key, ls[0], ls[1..] + []);
    WrittenApart(a, ls, []);
    LookupIsFound(a + ls + [], section, key);
    LookupIsFound(a + ls + [], section', key');
    if !SameSetting(section, key, section', key') && Harmless(key, value) {
      NewFileLookup(section, key, ls[0], section', key');
      SpreadFound(a, ls[0], ls[1..], [], key, section', key');
      assert a + [ls[0]] + [] == if section == [] then [ls[0]] else [SectionLine(section), ls[0]];
    }
  }

  lemma NewFileLeads(section: bytes, key: bytes)
    requires SectionOk(section)
    ensures Leads(if section == [] then [] else [SectionLine(section)], section, key)
  {
    if section != [] {
      NewSectionLeads(0, false, section, key);
    }
  }

  lemma PutsIntoFile(data: bytes, section: bytes, key: bytes, value: bytes, section': bytes, key': bytes)
    requires SectionOk(section) && KeyOk(key) && Fits(data)
    requires Lookup(Chunks(data), section, key) != Some(value)
    ensures var r := PutSetting(Some(data), section, key, value, true);
            && r.ok && r.file.Some? && Fits(r.file.value)
            && LookupFile(r.file, section, key) == Some(ReadsAs(key, value))
            && (!SameSetting(section, key, section', key') && Harmless(key, value)
                ==> LookupFile(r.file, section', key') == LookupFile(Some(data), section', key'))
  {
    hide KeyLine, KeyOk, Edit, WrittenLines, Found, Sets, Caseless, ValueIn, Lookup, PutSetting, Flat, Chunks, Tidy,
         ReadsAs, Mended, AllSilent, Leads;
    var written := WrittenLines(key, value);
    PutIsEdit(data, section, key, value);
    WrittenFirst(key, value);
    var a, b := EditedFile(data, section, key, value);
    WrittenApart(a, written, b);
    LeadsFinds(a, section, key, written[0], written[1..] + b);
    MendedLookup(a + written + b, section, key);
    LookupIsFound(a + written + b, section, key);
    if !SameSetting(section, key, section', key') && Harmless(key, value) {
      MendedLookup(a + written + b, section', key');
      LookupIsFound(a + written + b, section', key');
      LookupIsFound(Chunks(data), section', key');
      SpreadFound(a, written[0], written[1..], b, key, section', key');
      EditKeepsOthers(Chunks(data), section, key, written[0], 0, false, section', key');
    }
  }

  /** Setting a key, to any value. It reads back if and only if the value survives
      quoting (or was set already), and in any case as what the first written line
      says; every other key, in whatever section, reads as before unless a further
      line of the value does harm; and the lines still fit. */
  lemma PutThenLookup(file: Option<bytes>, section: bytes, key: bytes, value: bytes, writable: bool,
                      section': bytes, key': bytes)
    requires FileFits(file) && SectionOk(section) && KeyOk(key)
    ensures var r := PutSetting(file, section, key, value, writable);
            var was := LookupFile(file, section, key);
            && FileFits(r.file)
            && (r.ok ==> LookupFile(r.file, section, key)
                         == Some(if was == Some(value) then value else ReadsAs(key, value)))
            && (r.ok ==> (LookupFile(r.file, section, key) == Some(value)
                          <==> Survives(value, ValueRoom(key)) || was == Some(value)))
            && (r.ok && !SameSetting(section, key, section', key') && Harmless(key, value)
                ==> LookupFile(r.file, section', key') == LookupFile(file, section', key'))
            && (!r.ok ==> r.file == file)
  {
    hide KeyLine, KeyOk, Survives, Found, Caseless, ValueIn, Lookup, Flat, Chunks, Tidy, Edit, Overwrite, SectionLine,
         Harmless, Printed, ReadValue;
    SurvivesIff(value, ValueRoom(key));
    if file.Some? {
      LookupIsFound(Chunks(file.value), section, key);
      if Lookup(Chunks(file.value), section, key) != Some(value) {
        PutsIntoFile(file.value, section, key, value, section', key');
      }
    } else {
      PutsIntoNewFile(section, key, value, section', key');
    }
  }

  // ---------------------------------------------------------------------
  // Exactly the harmless values leave others alone
  // ---------------------------------------------------------------------

  /** A key other than this one. */
  function OtherKey(key: bytes): (other: bytes)
    ensures KeyOk(other) && !Caseless(key, other)
  {
    assert SkipLeading([122]) == [122];
    if Caseless(key, [122]) then [121] else [122]
  }

  /** The first line that does harm. */
  lemma {:induction false} FirstHarm(ls: seq<bytes>, key: bytes) returns (i: nat)
    requires !AllSilent(ls, key)
    ensures i < |ls| && !Silent(ls[i], key) && AllSilent(ls[..i], key)
    decreases |ls|
  {
    hide Silent;
    if Silent(ls[0], key) {
      i := FirstHarm(ls[1..], key);
      assert ls[..i + 1] == [ls[0]] + ls[1..][..i];
      i := i + 1;
    } else {
      i := 0;
    }
  }

  lemma HarmSplits(ls: seq<bytes>, i: nat, b: seq<bytes>)
    requires i < |ls|
    ensures ls + b == ls[..i] + ([ls[i]] + (ls[i + 1..] + b))
  {
  }

  /** A further line that sets another key makes that key appear in a new file. */
  lemma SettingDoesHarm(section: bytes, key: bytes, value: bytes, i: nat)
    requires SectionOk(section) && KeyOk(key) && i < |Extra(key, value)|
    requires AllSilent(Extra(key, value)[..i], key)
    requires var l := Extra(key, value)[i]; !IsHeader(l) && !Silent(l, key)
    ensures var other := NameIn(Extra(key, value)[i]);
            && !SameSetting(section, key, section, other)
            && LookupFile(None, section, other) == None
            && LookupFile(PutSetting(None, section, key, value, true).file, section, other).Some?
  {
    SetsAnother(Extra(key, value)[i], key);
    hide KeyLine, KeyOk, SectionLine, WrittenLines, Sets, ValueIn, Lookup, Leads, AllSilent, IsHeader, IsComment,
         Caseless, Setting, NameIn, Behind, Silent;
    var ls, more := WrittenLines(key, value), Extra(key, value);
    var a := if section == [] then [] else [SectionLine(section)];
    var other := NameIn(more[i]);
    WrittenFirst(key, value);
    NewFile(section, key, value);
    WrittenApart(a, ls, []);
    SeenBehind(ls[0], more, i, [], key, other);
    SettingCons(more[i], more[i + 1..] + [], other);
    AllInSection(section, [ls[0]] + (more + []));
    LookupIsFound(a + ls + [], section, other);
  }

  /** Behind silent lines a lookup comes to the next one. */
  lemma SeenBehind(line: bytes, more: seq<bytes>, i: nat, b: seq<bytes>, key: bytes, other: bytes)
    requires Sets(line, key) && !Caseless(key, other) && i < |more| && AllSilent(more[..i], key)
    ensures Setting([line] + (more + b), other) == Setting([more[i]] + (more[i + 1..] + b), other)
  {
    OtherIsNotSet(line, key, other);
    hide Setting, Sets, Caseless, AllSilent, IsHeader, IsSettingOf, IsComment;
    HarmSplits(more, i, b);
    SilentSetting(more[..i], [more[i]] + (more[i + 1..] + b), key, other);
    SettingCons(line, more + b, other);
  }

  lemma AllInSection(section: bytes, ls: seq<bytes>)
    requires SectionOk(section)
    ensures var a := if section == [] then [] else [SectionLine(section)];
            Behind(a + ls, section) == Some(ls)
  {
    hide SectionLine;
    if section == [] {
      assert [] + ls == ls;
    } else {
      SectionLineHeads(section);
      BehindCons(SectionLine(section), ls, section);
    }
  }

  lemma OtherIsNotSet(line: bytes, key: bytes, other: bytes)
    requires Sets(line, key) && !Caseless(key, other)
    ensures !IsHeader(line) && !IsSettingOf(line, other)
  {
    if IsSettingOf(line, other) {
      SameKey(line, key, other);
    }
  }

  lemma SetsAnother(line: bytes, key: bytes)
    requires !IsHeader(line) && !Silent(line, key)
    ensures IsSettingOf(line, NameIn(line)) && !IsComment(line) && !Caseless(key, NameIn(line))
  {
    hide SkipLeading, SkipTrailing, Separator;
  }

  /** A further line that is a header hides the keys behind it. */
  lemma HeaderDoesHarm(section: bytes, key: bytes, value: bytes, i: nat)
    requires SectionOk(section) && KeyOk(key) && i < |Extra(key, value)|
    requires AllSilent(Extra(key, value)[..i], key) && IsHeader(Extra(key, value)[i])
    ensures var file := Some(SectionLine(section) + KeyLine(key, []) + KeyLine(OtherKey(key), []));
            var r := PutSetting(file, section, key, value, true);
            && FileFits(file) && r.ok
            && !SameSetting(section, key, section, OtherKey(key))
            && LookupFile(file, section, OtherKey(key)).Some?
            && LookupFile(r.file, section, OtherKey(key)) == None
  {
    hide KeyLine, KeyOk, SectionLine, WrittenLines, Sets, ValueIn, Lookup, Leads, AllSilent, IsHeader, Caseless, Flat,
         Chunks, Edit, Mended, PutSetting;
    var other := OtherKey(key);
    var ol := KeyLine(other, []);
    var pre := if section == [] then [] else [SectionLine(section)];
    var data := SectionLine(section) + KeyLine(key, []) + ol;
    var ls := WrittenLines(key, value);
    TwoKeys(section, key, other);
    TwoKeysLookup(section, key, other);
    NotEmpty(key, value);
    PutIsEdit(data, section, key, value);
    var a, b := EditedFile(data, section, key, value);
    WrittenFirst(key, value);
    EditOfTwo(section, key, other, ls[0]);
    SameAround(pre, a, ls[0], ol, b, section, key, other);
    MendedLookup(pre + ls + [ol], section, other);
    HeaderHides(section, key, value, i, other, ol);
  }

  lemma HeaderHides(section: bytes, key: bytes, value: bytes, i: nat, other: bytes, ol: bytes)
    requires SectionOk(section) && KeyOk(key) && i < |Extra(key, value)| && !Caseless(key, other)
    requires AllSilent(Extra(key, value)[..i], key) && IsHeader(Extra(key, value)[i])
    ensures var pre := if section == [] then [] else [SectionLine(section)];
            Lookup(pre + WrittenLines(key, value) + [ol], section, other) == None
  {
    hide KeyLine, KeyOk, SectionLine, WrittenLines, Sets, ValueIn, Lookup, AllSilent, IsHeader, IsComment, Caseless,
         Setting, Behind, IsSettingOf;
    var pre := if section == [] then [] else [SectionLine(section)];
    var ls, more := WrittenLines(key, value), Extra(key, value);
    WrittenFirst(key, value);
    LookupIsFound(pre + ls + [ol], section, other);
    WrittenApart(pre, ls, [ol]);
    AllInSection(section, [ls[0]] + (more + [ol]));
    SeenBehind(ls[0], more, i, [ol], key, other);
    SettingCons(more[i], more[i + 1..] + [ol], other);
  }

  lemma NotEmpty(key: bytes, value: bytes)
    requires KeyOk(key) && Extra(key, value) != []
    ensures value != []
  {
    if LF !in value {
      OneLineWritten(key, value);
    }
  }

  /** A file with two keys, both empty. */
  lemma TwoKeys(section: bytes, key: bytes, other: bytes)
    requires SectionOk(section) && KeyOk(key) && KeyOk(other)
    ensures var data := SectionLine(section) + KeyLine(key, []) + KeyLine(other, []);
            var pre := if section == [] then [] else [SectionLine(section)];
            Fits(data) && Chunks(data) == pre + [KeyLine(key, []), KeyLine(other, [])]
  {
    hide KeyLine, KeyOk, SectionLine, Flat, Tidy, Chunks;
    var k0, ol := KeyLine(key, []), KeyLine(other, []);
    OneLineWritten(key, []);
    OneLineWritten(other, []);
    WrittenEnded(key, []);
    WrittenEnded(other, []);
    assert WrittenLines(key, [])[0] == k0 && WrittenLines(other, [])[0] == ol;
    TidyOne(ol);
    TidyCons(k0, [ol]);
    assert [k0] + [ol] == [k0, ol];
    FlatOne(ol);
    FlatCons(k0, [ol]);
    if section == [] {
      NoSection();
      assert [] + [k0, ol] == [k0, ol] && [] + k0 + ol == k0 + ol;
      ChunksOfFlat([k0, ol]);
    } else {
      SectionLineEnded(section);
      TidyCons(SectionLine(section), [k0, ol]);
      FlatCons(SectionLine(section), [k0, ol]);
      Regroup(SectionLine(section), k0, ol);
      ChunksOfFlat([SectionLine(section)] + [k0, ol]);
    }
  }

  lemma EmptySets(key: bytes)
    requires KeyOk(key)
    ensures Sets(KeyLine(key, []), key) && ValueIn(KeyLine(key, [])) == []
  {
    WrittenFirst(key, []);
    OneLineWritten(key, []);
    hide KeyLine, KeyOk, ValueIn, Sets, WrittenLines, ReadsAs;
    EmptyReads(key);
  }

  lemma EmptyReads(key: bytes)
    ensures ReadsAs(key, []) == []
  {
    assert Printed([], ValueRoom(key)) + [LF] == [LF];
    hide ReadValue, Find, Printed;
    NoReading();
    FirstLineNext([LF]);
  }

  lemma NoReading()
    ensures ReadValue([LF]) == []
  {
    assert [LF][1..] == [];
    assert SkipLeading([LF]) == [];
  }

  lemma TwoKeysLookup(section: bytes, key: bytes, other: bytes)
    requires SectionOk(section) && KeyOk(key) && KeyOk(other) && !Caseless(key, other)
    ensures var pre := if section == [] then [] else [SectionLine(section)];
            var ls := pre + [KeyLine(key, []), KeyLine(other, [])];
            Lookup(ls, section, key) == Some([]) && Lookup(ls, section, other) == Some([])
  {
    hide KeyLine, KeyOk, SectionLine, ValueIn, Caseless, Behind, Setting, IsSettingOf, IsHeader, IsComment;
    var k0, ol := KeyLine(key, []), KeyLine(other, []);
    EmptySets(key);
    EmptySets(other);
    AllInSection(section, [k0, ol]);
    assert [k0] + [ol] == [k0, ol] && [ol] + [] == [ol];
    SettingCons(k0, [ol], key);
    SettingCons(k0, [ol], other);
    SettingCons(ol, [], other);
    OtherIsNotSet(k0, key, other);
  }

  lemma EditOfTwo(section: bytes, key: bytes, other: bytes, line: bytes)
    requires SectionOk(section) && KeyOk(key) && KeyOk(other)
    ensures var pre := if section == [] then [] else [SectionLine(section)];
            Edit(pre + [KeyLine(key, []), KeyLine(other, [])], section, key, line, 0, false)
            == pre + [line] + [KeyLine(other, [])]
  {
    hide KeyLine, KeyOk, SectionLine, ValueIn, IsSettingOf, IsHeader, IsComment, IsHeaderOf, Gap;
    var k0, ol := KeyLine(key, []), KeyLine(other, []);
    EmptySets(key);
    assert [k0, ol][1..] == [ol];
    assert EditKeys([k0, ol], key, line, 0, false) == [line] + [ol];
    if section == [] {
      assert [] + [k0, ol] == [k0, ol] && [] + [line] + [ol] == [line] + [ol];
    } else {
      SectionLineHeads(section);
      var ls := [SectionLine(section)] + [k0, ol];
      assert ls[1..] == [k0, ol];
      assert [SectionLine(section)] + ([line] + [ol]) == [SectionLine(section)] + [line] + [ol];
    }
  }

  /** A line occurs in one place only. */
  lemma SameAround(pre: seq<bytes>, a: seq<bytes>, line: bytes, ol: bytes, b: seq<bytes>, section: bytes, key: bytes,
                   other: bytes)
    requires SectionOk(section) && pre == if section == [] then [] else [SectionLine(section)]
    requires KeyOk(other) && ol == KeyLine(other, []) && Sets(line, key) && !Caseless(key, other)
    requires a + [line] + b == pre + [line] + [ol]
    ensures a == pre && b == [ol]
  {
    EmptySets(other);
    OtherIsNotSet(line, key, other);
    if section != [] {
      SectionLineHeads(section);
      HeaderOfIsHeader(SectionLine(section), section);
    }
    hide KeyLine, KeyOk, SectionLine, ValueIn, IsSettingOf, IsHeader, IsComment, Caseless;
    var es := a + [line] + b;
    assert es[|a|] == line;
    assert es == pre + [line] + [ol];
    assert |a| == |pre|;
    assert es[..|a|] == a == pre;
    assert es[|a| + 1..] == b == [ol];
  }

  /** Setting the key to this value changes what no other key reads as. */
  ghost predicate LeavesOthers(section: bytes, key: bytes, value: bytes) {
    forall file, section', key' :: FileFits(file) && !SameSetting(section, key, section', key') ==>
      LookupFile(PutSetting(file, section, key, value, true).file, section', key') == LookupFile(file, section', key')
  }

  /** Exactly the harmless values leave all other keys of all files alone; those without
      LF are among them. */
  lemma LeavesOthersIff(section: bytes, key: bytes, value: bytes)
    requires SectionOk(section) && KeyOk(key)
    ensures LeavesOthers(section, key, value) <==> Harmless(key, value)
    ensures LF !in value ==> Harmless(key, value)
  {
    hide KeyOk, Silent, AllSilent, PutSetting, LookupFile, FileFits, SameSetting, WrittenLines, NameIn, IsHeader;
    if LF !in value {
      OneLineIsHarmless(key, value);
    }
    if Harmless(key, value) {
      forall file, section', key' | FileFits(file) && !SameSetting(section, key, section', key')
        ensures LookupFile(PutSetting(file, section, key, value, true).file, section', key')
             == LookupFile(file, section', key')
      {
        PutThenLookup(file, section, key, value, true, section', key');
        PutSucceeds(file, section, key, value);
      }
    } else {
      var i := FirstHarm(Extra(key, value), key);
      if IsHeader(Extra(key, value)[i]) {
        HeaderDoesHarm(section, key, value, i);
      } else {
        SettingDoesHarm(section, key, value, i);
        NoFileFits();
      }
    }
  }

  lemma NoFileFits()
    ensures FileFits(None)
  {
  }

  lemma PutSucceeds(file: Option<bytes>, section: bytes, key: bytes, value: bytes)
    ensures PutSetting(file, section, key, value, true).ok
  {
  }

  // ---------------------------------------------------------------------
  // Any run of calls
  // ---------------------------------------------------------------------

  datatype Call = Call(section: bytes, key: bytes, value: bytes, writable: bool)

  /** A call whose names can be told from other text, and whose value does no harm. */
  predicate Settable(c: Call) {
    SectionOk(c.section) && KeyOk(c.key) && Harmless(c.key, c.value)
  }

  function PutAll(file: Option<bytes>, calls: seq<Call>): Option<bytes>
    decreases |calls|
  {
    if calls == [] then file
    else PutAll(PutSetting(file, calls[0].section, calls[0].key, calls[0].value, calls[0].writable).file, calls[1..])
  }

  /** What the key should read as: what the value last set with success reads as, or
      that value itself if the key had it. */
  function Expected(file: Option<bytes>, calls: seq<Call>, section: bytes, key: bytes, was: Option<bytes>)
      : Option<bytes>
    decreases |calls|
  {
    if calls == [] then was
    else
      var c := calls[0];
      var r := PutSetting(file, c.section, c.key, c.value, c.writable);
      var sets := r.ok && SameSetting(c.section, c.key, section, key) && was != Some(c.value);
      Expected(r.file, calls[1..], section, key, if sets then Some(ReadsAs(c.key, c.value)) else was)
  }

  lemma SameHeader(line: bytes, s: bytes, s': bytes)
    requires Caseless(s, s')
    ensures IsHeaderOf(line, s) == IsHeaderOf(line, s')
  {
    hide SkipLeading, FindLast;
  }

  lemma SameKeyLine(line: bytes, k: bytes, k': bytes)
    requires Caseless(k, k')
    ensures IsSettingOf(line, k) == IsSettingOf(line, k')
  {
    hide SkipLeading, SkipTrailing, Separator;
  }

  lemma {:induction false} SameSettingFound(ls: seq<bytes>, k: bytes, k': bytes)
    requires Caseless(k, k')
    ensures Setting(ls, k) == Setting(ls, k')
  {
    hide IsHeader, IsSettingOf, IsComment, Caseless;
    if ls != [] {
      SameKeyLine(ls[0], k, k');
      SameSettingFound(ls[1..], k, k');
    }
  }

  lemma {:induction false} SameSectionFound(ls: seq<bytes>, s: bytes, s': bytes)
    requires Caseless(s, s')
    ensures Behind(ls, s) == Behind(ls, s')
  {
    assert s == [] <==> s' == [];
    hide IsHeaderOf, Caseless;
    if s != [] && ls != [] {
      SameHeader(ls[0], s, s');
      SameSectionFound(ls[1..], s, s');
    }
  }

  /** Names that differ in case only are the same name. */
  lemma SameLookup(file: Option<bytes>, s: bytes, k: bytes, s': bytes, k': bytes)
    requires SameSetting(s, k, s', k')
    ensures LookupFile(file, s, k) == LookupFile(file, s', k')
  {
    hide Behind, Setting, Caseless, ValueIn, Chunks;
    if file.Some? {
      var ls := Chunks(file.value);
      SameSectionFound(ls, s, s');
      if Behind(ls, s).Some? {
        SameSettingFound(Behind(ls, s).value, k, k');
      }
    }
  }

  /** The file is a map from names to values: over every run of calls each key reads
      as what was last set for it, or as at the start, whatever else was set and
      whether lines were overwritten, inserted or appended. */
  lemma {:induction false} FileIsMap(file: Option<bytes>, calls: seq<Call>, section: bytes, key: bytes)
    requires FileFits(file) && forall i :: 0 <= i < |calls| ==> Settable(calls[i])
    ensures FileFits(PutAll(file, calls))
    ensures LookupFile(PutAll(file, calls), section, key)
         == Expected(file, calls, section, key, LookupFile(file, section, key))
    decreases |calls|
  {
    if calls != [] {
      hide Survives, FileFits, LookupFile, PutSetting, SameSetting, ReadsAs, Harmless, SectionOk, KeyOk;
      var c := calls[0];
      assert Settable(c);
      var r := PutSetting(file, c.section, c.key, c.value, c.writable);
      PutThenLookup(file, c.section, c.key, c.value, c.writable, section, key);
      if SameSetting(c.section, c.key, section, key) {
        SameLookup(r.file, c.section, c.key, section, key);
        SameLookup(file, c.section, c.key, section, key);
      }
      FileIsMap(r.file, calls[1..], section, key);
    }
  }
}
