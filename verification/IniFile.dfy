/** Reading and rewriting the settings file: lines are read one at a time, and copied
    by rereading them once a cache is full. */
module IniFile {
  import opened Bytes
  import opened TgLines
  import opened IniValue
  import opened IniLines
  import opened IniBuffer

  // ---------------------------------------------------------------------
  // Reading
  // ---------------------------------------------------------------------

  /** A file opened for reading. */
  class IniSource {
    const data: CString
    var pos: nat

    predicate Valid()
      reads this
    {
      pos <= |data|
    }

    constructor (text: CString)
      ensures Valid() && data == text && pos == 0
    {
      data, pos := text, 0;
    }

    /** Reads byte by byte up to and including the first LF, or until the room or the
        file is used up; None at the end of the file. */
    method Read(room: nat) returns (line: Option<CString>)
      requires Valid() && 0 < room
      modifies this
      ensures Valid() && old(pos) <= pos
      ensures line == if old(pos) == |data| then None else Some(data[old(pos)..pos])
      ensures line.Some? ==> 0 < |line.value| <= room && LF !in line.value[..|line.value| - 1]
      ensures line.Some? && pos < |data| && data[pos - 1] != LF ==> |line.value| == room
      ensures data[old(pos)..pos] == FirstChunk(data[old(pos)..], room)
    {
      hide Reading, FirstChunk;
      if pos == |data| {
        return None;
      }
      ghost var start, rest := pos, data[pos..];
      var text: bytes := [];
      ReadingStart(rest, room);
      while pos < |data| && |text| < room && !Ended(text)
        invariant start <= pos <= |data| && text == data[start..pos] && |text| <= room
        invariant Reading(rest, text, room)
        decreases |data| - pos
      {
        ReadingNext(rest, text, room);
        text := text + [data[pos]];
        pos := pos + 1;
      }
      ReadingDone(rest, text, room);
      assert NUL !in data[start..pos];
      return Some(text);
    }
  }

  /** What was read so far is the start of the chunk. */
  ghost predicate Reading(rest: bytes, text: bytes, room: nat) {
    && text <= rest && |text| <= room
    && (forall i :: 0 <= i < |text| - 1 ==> text[i] != LF)
    && FirstChunk(rest, room) == text + if Ended(text) then [] else FirstChunk(rest[|text|..], room - |text|)
  }

  lemma ReadingStart(rest: bytes, room: nat)
    ensures Reading(rest, [], room)
  {
    assert rest[0..] == rest && [] + FirstChunk(rest, room) == FirstChunk(rest, room);
  }

  lemma ReadingNext(rest: bytes, text: bytes, room: nat)
    requires Reading(rest, text, room) && |text| < |rest| && |text| < room && !Ended(text)
    ensures Reading(rest, text + [rest[|text|]], room)
  {
    hide FirstChunk;
    var more, b := rest[|text|..], rest[|text|];
    FirstByte(more, room - |text|);
    assert more[1..] == rest[|text| + 1..];
    Regroup(text, [b], if b == LF then [] else FirstChunk(more[1..], room - |text| - 1));
  }

  lemma FirstByte(d: bytes, room: nat)
    requires d != [] && 0 < room
    ensures FirstChunk(d, room) == [d[0]] + if d[0] == LF then [] else FirstChunk(d[1..], room - 1)
  {
  }

  lemma ReadingDone(rest: bytes, text: bytes, room: nat)
    requires Reading(rest, text, room) && rest != [] && 0 < room
    requires |text| == |rest| || |text| == room || Ended(text)
    ensures text == FirstChunk(rest, room) && text != []
    ensures LF !in text[..|text| - 1]
  {
    hide FirstChunk;
  }

  lemma ChunksNext(data: bytes, pos: nat)
    requires pos < |data|
    ensures var c := FirstChunk(data[pos..], LINE_ROOM);
            && 0 < |c| <= |data| - pos && c == data[pos..pos + |c|]
            && Chunks(data[pos..]) == [c] + Chunks(data[pos + |c|..])
  {
    var rest := data[pos..];
    var c := FirstChunk(rest, LINE_ROOM);
    assert rest[|c|..] == data[pos + |c|..];
  }

  lemma ChunksDone(data: bytes, pos: nat)
    requires pos == |data|
    ensures Chunks(data[pos..]) == []
  {
  }

  method MatchHeader(line: CString, section: CString) returns (isHeader: bool, isSection: bool)
    ensures isHeader == IsHeader(line) && isSection == IsHeaderOf(line, section)
  {
    var i := SkipBlanks(line);
    var sp := line[i..];
    isHeader := sp != [] && sp[0] == OPEN;
    var ep := FindLast(sp, CLOSE);
    isSection := isHeader && ep < |sp| && Caseless(sp[1..ep], section);
  }

  /** Whether the line sets the key, and where the text behind the equal sign starts. */
  method MatchKey(line: CString, key: CString) returns (isComment: bool, isSetting: bool, at: nat)
    ensures isComment == IsComment(line) && isSetting == IsSettingOf(line, key)
    ensures at <= |line| && (isSetting ==> ValueIn(line) == ReadValue(line[at..]))
  {
    var i := SkipBlanks(line);
    var sp := line[i..];
    isComment := sp != [] && OpensComment(sp[0]);
    var ep := Separator(sp);
    if ep == |sp| {
      return isComment, false, 0;
    }
    var e := TrimBlanks(sp, ep);
    at := i + ep + 1;
    assert sp[ep + 1..] == line[at..];
    hide SkipLeading, SkipTrailing, Separator, ReadValue, Caseless;
    isSetting := key != [] && Caseless(sp[..e], key);
  }

  /** Cleans the value in the line buffer and copies it out. */
  method ExtractValue(line: CString, at: nat, buffer: array<byte>, size: nat)
    requires at <= |line| <= LINE_ROOM && 0 < size <= buffer.Length
    modifies buffer
    ensures Holds(buffer, 0, Cut(ReadValue(line[at..]), size - 1)) && NUL !in ReadValue(line[at..])
  {
    hide Clean, Unescape;
    var local := new byte[INI_BUFFERSIZE];
    StringCopy(local, 0, line, INI_BUFFERSIZE, QuoteNone);
    var k := SkipBlanks(line[at..]);
    var sp := line[at..][k..];
    assert local[at + k..at + k + |sp|] == local[0..|line|][at + k..] == sp;
    var start, text, option := CleanString(local, at + k, sp);
    UnescapeKeepsOut(text, NUL);
    StringCopy(buffer, 0, text, size, option);
  }

  /** What is left to look at and to overwrite from a position on. */
  ghost predicate Seeking(data: bytes, pos: nat, section: bytes, key: bytes, line: bytes)
    requires pos <= |data|
  {
    && Found(Chunks(data), section, key) == Found(Chunks(data[pos..]), section, key)
    && Flat(Overwrite(Chunks(data), section, key, line))
       == data[..pos] + Flat(Overwrite(Chunks(data[pos..]), section, key, line))
  }

  /** The same, once the header of the section was read. */
  ghost predicate SeekingKey(data: bytes, pos: nat, section: bytes, key: bytes, line: bytes)
    requires pos <= |data|
  {
    && Found(Chunks(data), section, key) == Setting(Chunks(data[pos..]), key)
    && Flat(Overwrite(Chunks(data), section, key, line))
       == data[..pos] + Flat(OverwriteKeys(Chunks(data[pos..]), key, line))
  }

  lemma Onward(data: bytes, pos: nat, c: bytes, tail: bytes)
    requires pos + |c| <= |data| && c == data[pos..pos + |c|]
    ensures data[..pos] + (c + tail) == data[..pos + |c|] + tail
  {
    assert data[..pos + |c|] == data[..pos] + c;
  }

  lemma SeekStart(data: bytes, section: bytes, key: bytes, line: bytes)
    ensures Seeking(data, 0, section, key, line)
    ensures section == [] ==> SeekingKey(data, 0, section, key, line)
  {
    assert data[0..] == data && data[..0] == [];
    hide Chunks, Flat, Setting, OverwriteKeys;
  }

  lemma OverwriteCons(c: bytes, ls: seq<bytes>, section: bytes, key: bytes, line: bytes)
    requires section != []
    ensures Found([c] + ls, section, key)
         == if IsHeaderOf(c, section) then Setting(ls, key) else Found(ls, section, key)
    ensures IsHeaderOf(c, section) ==> Overwrite([c] + ls, section, key, line) == [c] + OverwriteKeys(ls, key, line)
    ensures !IsHeaderOf(c, section) ==>
              Overwrite([c] + ls, section, key, line) == [c] + Overwrite(ls, section, key, line)
  {
    assert ([c] + ls)[1..] == ls;
    hide IsHeaderOf, Setting, OverwriteKeys;
  }

  lemma OverwriteKeysCons(c: bytes, ls: seq<bytes>, key: bytes, line: bytes)
    requires !IsHeader(c)
    ensures var sets := !IsComment(c) && IsSettingOf(c, key);
            && Setting([c] + ls, key) == (if sets then Some(c) else Setting(ls, key))
            && OverwriteKeys([c] + ls, key, line) == if sets then [line] + ls else [c] + OverwriteKeys(ls, key, line)
  {
    assert ([c] + ls)[1..] == ls;
    hide IsHeader, IsComment, IsSettingOf;
  }

  lemma HeaderEndsKeys(c: bytes, ls: seq<bytes>, key: bytes)
    requires IsHeader(c)
    ensures Setting([c] + ls, key) == None
  {
  }

  /** Reading on past one chunk. */
  lemma SeekNext(data: bytes, pos: nat, c: bytes, section: bytes, key: bytes, line: bytes)
    requires pos + |c| <= |data| && c == data[pos..pos + |c|]
    requires Chunks(data[pos..]) == [c] + Chunks(data[pos + |c|..])
    requires Seeking(data, pos, section, key, line) && section != []
    ensures IsHeaderOf(c, section) ==> SeekingKey(data, pos + |c|, section, key, line)
    ensures !IsHeaderOf(c, section) ==> Seeking(data, pos + |c|, section, key, line)
  {
    hide Chunks, Flat, IsHeaderOf, FirstChunk, OverwriteKeys, Setting, Found, Overwrite;
    var rest := Chunks(data[pos + |c|..]);
    OverwriteCons(c, rest, section, key, line);
    if IsHeaderOf(c, section) {
      FlatCons(c, OverwriteKeys(rest, key, line));
      Onward(data, pos, c, Flat(OverwriteKeys(rest, key, line)));
    } else {
      FlatCons(c, Overwrite(rest, section, key, line));
      Onward(data, pos, c, Flat(Overwrite(rest, section, key, line)));
    }
  }

  lemma SeekKeyNext(data: bytes, pos: nat, c: bytes, section: bytes, key: bytes, line: bytes)
    requires pos + |c| <= |data| && c == data[pos..pos + |c|]
    requires Chunks(data[pos..]) == [c] + Chunks(data[pos + |c|..])
    requires SeekingKey(data, pos, section, key, line)
    ensures IsHeader(c) ==> Found(Chunks(data), section, key) == None
    ensures !IsHeader(c) && !IsComment(c) && IsSettingOf(c, key) ==>
              Found(Chunks(data), section, key) == Some(c) &&
              Flat(Overwrite(Chunks(data), section, key, line)) == data[..pos] + line + data[pos + |c|..]
    ensures !IsHeader(c) && !(!IsComment(c) && IsSettingOf(c, key)) ==>
              SeekingKey(data, pos + |c|, section, key, line)
  {
    hide Chunks, Flat, IsHeader, IsSettingOf, IsComment, FirstChunk, Found, Overwrite, Setting, OverwriteKeys;
    var rest := Chunks(data[pos + |c|..]);
    if IsHeader(c) {
      HeaderEndsKeys(c, rest, key);
    } else {
      OverwriteKeysCons(c, rest, key, line);
      if !IsComment(c) && IsSettingOf(c, key) {
        FlatOfChunks(data[pos + |c|..]);
        FlatCons(line, rest);
        assert data[..pos] + (line + data[pos + |c|..]) == data[..pos] + line + data[pos + |c|..];
      } else {
        FlatCons(c, OverwriteKeys(rest, key, line));
        Onward(data, pos, c, Flat(OverwriteKeys(rest, key, line)));
      }
    }
  }

  /** Reads up to and including the header of the section. */
  method FindSection(f: IniSource, section: CString, key: CString, ghost line: bytes) returns (found: bool)
    requires f.pos == 0
    modifies f
    ensures f.Valid()
    ensures found ==> f.pos <= |f.data| && SeekingKey(f.data, f.pos, section, key, line)
    ensures !found ==> Found(Chunks(f.data), section, key) == None
  {
    hide Seeking, SeekingKey, Chunks, FirstChunk;
    SeekStart(f.data, section, key, line);
    if section == [] {
      return true;
    }
    while true
      invariant f.Valid() && Seeking(f.data, f.pos, section, key, line)
      decreases |f.data| - f.pos
    {
      ghost var before := f.pos;
      if f.pos < |f.data| {
        ChunksNext(f.data, f.pos);
        SeekNext(f.data, f.pos, FirstChunk(f.data[f.pos..], LINE_ROOM), section, key, line);
      }
      var read := f.Read(LINE_ROOM);
      if read.None? {
        SeekFailed(f.data, before, section, key, line);
        return false;
      }
      var _, isSection := MatchHeader(read.value, section);
      if isSection {
        return true;
      }
    }
  }

  lemma SeekFailed(data: bytes, pos: nat, section: bytes, key: bytes, line: bytes)
    requires pos == |data| && Seeking(data, pos, section, key, line) && section != []
    ensures Found(Chunks(data), section, key) == None
  {
    ChunksDone(data, pos);
    hide Flat, Overwrite;
  }

  lemma SeekKeyFailed(data: bytes, pos: nat, section: bytes, key: bytes, line: bytes)
    requires pos == |data| && SeekingKey(data, pos, section, key, line)
    ensures Found(Chunks(data), section, key) == None
  {
    ChunksDone(data, pos);
    hide Flat, Overwrite, Found;
  }

  /** Finds the value of a key. The line it stands on starts at `head`, and reading
      stops behind it. `line` only serves to say what overwriting it would give. */
  method GetKeyString(f: IniSource, section: CString, key: CString, buffer: array<byte>, size: nat, ghost line: bytes)
      returns (matched: bool, head: nat)
    requires f.pos == 0 && 0 < size <= buffer.Length
    modifies f, buffer
    ensures f.Valid()
    ensures matched == Found(Chunks(f.data), section, key).Some?
    ensures matched ==>
              var l := Found(Chunks(f.data), section, key).value;
              && Holds(buffer, 0, Cut(ValueIn(l), size - 1)) && NUL !in ValueIn(l)
              && |l| <= LINE_ROOM && head + |l| == f.pos <= |f.data|
              && Flat(Overwrite(Chunks(f.data), section, key, line)) == f.data[..head] + line + f.data[f.pos..]
  {
    hide SeekingKey, Chunks, FirstChunk, Overwrite, Found, Flat, ValueIn, ReadValue, IsHeader, IsHeaderOf,
         IsComment, IsSettingOf, Cut;
    head := 0;
    var found := FindSection(f, section, key, line);
    if !found {
      return false, head;
    }
    while true
      invariant f.Valid() && SeekingKey(f.data, f.pos, section, key, line)
      decreases |f.data| - f.pos
    {
      head := f.pos;
      if f.pos < |f.data| {
        ChunksNext(f.data, f.pos);
        SeekKeyNext(f.data, f.pos, FirstChunk(f.data[f.pos..], LINE_ROOM), section, key, line);
      } else {
        SeekKeyFailed(f.data, f.pos, section, key, line);
      }
      var read := f.Read(LINE_ROOM);
      if read.None? {
        return false, head;
      }
      var isHeader, _ := MatchHeader(read.value, section);
      if isHeader {
        return false, head;
      }
      var isComment, isSetting, at := MatchKey(read.value, key);
      if !isComment && isSetting {
        ExtractValue(read.value, at, buffer, size);
        return true, head;
      }
    }
  }

  lemma CutHoldsNoEnd(s: bytes, n: nat)
    requires NUL !in s
    ensures NUL !in Cut(s, n)
  {
  }

  /** The value of a key, or the default; n is its length in the buffer. */
  method GetString(file: Option<CString>, section: CString, key: CString, fallback: CString, buffer: array<byte>,
                   size: int) returns (n: nat)
    requires size <= buffer.Length
    modifies buffer
    ensures size <= 0 ==> n == 0 && buffer[..] == old(buffer[..])
    ensures 0 < size ==>
              var found := if file.None? then None else Lookup(Chunks(file.value), section, key);
              var text := Cut(if found.Some? then found.value else fallback, size - 1);
              n == |text| && Holds(buffer, 0, text)
  {
    hide Chunks, Flat, Overwrite, ValueIn, Cut, Holds, Setting, Behind;
    if size <= 0 {
      return 0;
    }
    ghost var text := fallback;
    var ok := false;
    if file.Some? {
      var f := new IniSource(file.value);
      var head;
      ok, head := GetKeyString(f, section, key, buffer, size, []);
      if ok {
        text := ValueIn(Found(Chunks(file.value), section, key).value);
      }
    }
    if !ok {
      StringCopy(buffer, 0, fallback, size, QuoteNone);
    }
    CutHoldsNoEnd(text, size - 1);
    n := EndOf(buffer, 0, Cut(text, size - 1));
  }
}
