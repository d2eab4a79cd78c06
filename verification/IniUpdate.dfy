/** Setting a key in the file: the copy goes through a cache that only counts bytes
    and rereads them when they are written. */
module IniUpdate {
  import opened Bytes
  import opened TgLines
  import opened IniValue
  import opened IniLines
  import opened IniBuffer
  import opened IniFile

  // ---------------------------------------------------------------------
  // Rereading
  // ---------------------------------------------------------------------

  /** The n bytes from a on are whole chunks. */
  predicate Aligned(data: bytes, a: nat, n: nat)
    requires a + n <= |data|
    decreases n
  {
    n == 0 ||
    var k := |FirstChunk(data[a..], LINE_ROOM)|;
    0 < k <= n && Aligned(data, a + k, n - k)
  }

  lemma {:induction false} AlignedAppend(data: bytes, a: nat, n: nat, k: nat)
    requires a + n + k <= |data| && 0 < k
    requires Aligned(data, a, n) && |FirstChunk(data[a + n..], LINE_ROOM)| == k
    ensures Aligned(data, a, n + k)
    decreases n
  {
    hide FirstChunk;
    if 0 < n {
      var j := |FirstChunk(data[a..], LINE_ROOM)|;
      AlignedAppend(data, a + j, n - j, k);
    }
  }

  /** With less room, but enough, the same chunk is read. */
  lemma {:induction false} SmallerRoom(d: bytes, m: nat, n: nat)
    requires |FirstChunk(d, n)| <= m <= n
    ensures FirstChunk(d, m) == FirstChunk(d, n)
  {
    if d != [] && 0 < n && d[0] != LF {
      SmallerRoom(d[1..], m - 1, n - 1);
    }
  }

  /** Rereading one chunk of the cached bytes, into what room the buffer still has. */
  lemma Reread(data: bytes, mark: nat, pos: nat, size: nat)
    requires pos < size < INI_BUFFERSIZE && mark + size <= |data|
    requires Aligned(data, mark + pos, size - pos)
    ensures var c := FirstChunk(data[mark + pos..], LINE_ROOM - pos);
            && 0 < |c| <= size - pos
            && data[mark..mark + pos] + c == data[mark..mark + pos + |c|]
            && Aligned(data, mark + pos + |c|, size - pos - |c|)
  {
    hide FirstChunk;
    var rest := data[mark + pos..];
    SmallerRoom(rest, LINE_ROOM - pos, LINE_ROOM);
    var c := FirstChunk(rest, LINE_ROOM - pos);
    assert c == rest[..|c|] == data[mark + pos..mark + pos + |c|];
  }

  predicate EndedAt(data: bytes, pos: nat)
    requires pos <= |data|
  {
    0 < pos && data[pos - 1] == LF
  }

  lemma AlignedNothing(data: bytes, a: nat)
    requires a <= |data|
    ensures Aligned(data, a, 0)
  {
  }

  /** What is known when one more chunk is read behind the cached bytes. */
  lemma CarryFacts(out: bytes, data: bytes, mark: nat, n: nat, line: bytes)
    requires mark + n < |data| && Aligned(data, mark, n)
    requires line == FirstChunk(data[mark + n..], LINE_ROOM)
    ensures 0 < |line| <= LINE_ROOM && mark + n + |line| <= |data| && line == data[mark + n..mark + n + |line|]
    ensures Aligned(data, mark, n + |line|) && Aligned(data, mark + n, |line|)
    ensures out + data[mark..mark + n] + line == out + data[mark..mark + n + |line|]
  {
    hide Chunks, FirstChunk, Aligned;
    ChunksNext(data, mark + n);
    AlignedAppend(data, mark, n, |line|);
    AlignedNothing(data, mark + n);
    AlignedAppend(data, mark + n, 0, |line|);
    TextGrows(out, data, mark, mark + n, line);
  }

  lemma TextGrows(out: bytes, data: bytes, mark: nat, at: nat, c: bytes)
    requires mark <= at && at + |c| <= |data| && c == data[at..at + |c|]
    ensures out + data[mark..at] + c == out + data[mark..at + |c|]
  {
    assert data[mark..at + |c|] == data[mark..at] + c;
  }

  // ---------------------------------------------------------------------
  // The copy
  // ---------------------------------------------------------------------

  class IniCopy {
    const source: IniSource
    var mark: nat       // where the cached bytes start in the source
    var cacheLen: nat   // how many they are
    var out: bytes      // the file being written

    ghost predicate Valid()
      reads this, source
    {
      && mark + cacheLen <= |source.data| && cacheLen < INI_BUFFERSIZE
      && Aligned(source.data, mark, cacheLen)
    }

    /** Everything read so far is written or cached. */
    ghost predicate Settled()
      reads this, source
    {
      Valid() && source.pos == mark + cacheLen
    }

    /** What was written, and what the cache stands for. */
    ghost function Text(): bytes
      requires Valid()
      reads this, source
    {
      out + source.data[mark..mark + cacheLen]
    }

    constructor (text: CString)
      ensures fresh(source) && source.data == text && source.pos == 0
      ensures Settled() && mark == 0 && cacheLen == 0 && out == []
    {
      source := new IniSource(text);
      mark, cacheLen, out := 0, 0, [];
    }

    method CacheAccum(line: CString) returns (fits: bool)
      modifies this`cacheLen
      ensures fits == (old(cacheLen) + |line| < INI_BUFFERSIZE)
      ensures cacheLen == if fits then old(cacheLen) + |line| else old(cacheLen)
    {
      if cacheLen + |line| >= INI_BUFFERSIZE {
        return false;
      }
      cacheLen := cacheLen + |line|;
      return true;
    }

    /** Rereads the cached bytes and writes them; ended tells whether they are seen to
        end a line. */
    method CacheFlush() returns (ended: bool)
      requires Valid()
      modifies this, source
      ensures Settled() && cacheLen == 0 && mark == old(mark + cacheLen)
      ensures out == old(Text())
      ensures ended <==> 1 < old(cacheLen) && source.data[mark - 1] == LF
    {
      hide FirstChunk, Aligned;
      source.pos := mark;
      var buffer: bytes := [];
      var pos := 0;
      while pos < cacheLen
        invariant 0 <= pos <= cacheLen && source.pos == mark + pos
        invariant mark == old(mark) && cacheLen == old(cacheLen) && out == old(out)
        invariant buffer == source.data[mark..mark + pos]
        invariant Aligned(source.data, mark + pos, cacheLen - pos)
      {
        Reread(source.data, mark, pos, cacheLen);
        var piece := source.Read(LINE_ROOM - pos);
        buffer := buffer + piece.value;
        pos := pos + |piece.value|;
      }
      if buffer != [] {
        out := out + buffer;
      }
      ended := pos > 1 && buffer[pos - 1] == LF;
      mark := source.pos;
      cacheLen := 0;
      AlignedNothing(source.data, mark);
    }

    /** Takes the line that was just read into the cache, which is flushed first if it
        has no room. */
    method Carry(line: CString)
      requires Valid() && mark + cacheLen < |source.data|
      requires line == FirstChunk(source.data[mark + cacheLen..], LINE_ROOM)
      requires source.pos == mark + cacheLen + |line|
      modifies this, source
      ensures Settled() && source.pos == old(source.pos)
      ensures cacheLen == Cached(old(cacheLen), line)
      ensures Text() == old(Text()) + line
    {
      hide FirstChunk, Aligned;
      ghost var data := source.data;
      CarryFacts(out, data, mark, cacheLen, line);
      var fits := CacheAccum(line);
      if !fits {
        var _ := CacheFlush();
        assert out + data[mark..mark] == out;
        TextGrows(out, data, mark, mark, line);
        var again := source.Read(LINE_ROOM);
        var _ := CacheAccum(again.value);
      }
    }

    /** Flushes, and ends the last line unless it is seen to be ended. */
    method EndLine()
      requires Valid()
      modifies this, source
      ensures var at := old(mark + cacheLen);
              out == old(Text()) + if 1 < old(cacheLen) && EndedAt(source.data, at) then [] else [LF]
    {
      hide Aligned;
      var flag := CacheFlush();
      if !flag {
        out := out + [LF];
      }
    }

    /** Copies what is left of the source. */
    method CopyRest()
      requires Settled()
      modifies this, source
      ensures Valid() && out == old(Text()) + source.data[old(source.pos)..]
    {
      hide FirstChunk, Chunks, Aligned, Cached;
      ghost var start := source.pos;
      assert Text() == Text() + source.data[start..start];
      while true
        invariant Settled() && start <= source.pos
        invariant Text() == old(Text()) + source.data[start..source.pos]
        decreases |source.data| - source.pos
      {
        ghost var at := source.pos;
        if at < |source.data| {
          ChunksNext(source.data, at);
          TextGrows(old(Text()), source.data, start, at, FirstChunk(source.data[at..], LINE_ROOM));
        }
        var read := source.Read(LINE_ROOM);
        if read.None? {
          break;
        }
        Carry(read.value);
      }
      assert source.data[start..source.pos] == source.data[start..];
      var _ := CacheFlush();
    }

    /** Writes the line that sets the key. */
    method PutKey(key: CString, value: CString)
      modifies this`out
      ensures out == old(out) + KeyLine(key, value)
    {
      hide KeyLine;
      var buf := new byte[INI_BUFFERSIZE];
      WriteKey(buf, key, value);
      KeyLineHoldsNoEnd(key, value);
      var end := EndOf(buf, 0, KeyLine(key, value));
      out := out + buf[..end];
    }

    /** Writes the header of the section, if there is one. */
    method PutSection(section: CString)
      modifies this`out
      ensures out == old(out) + SectionLine(section)
    {
      var buf := new byte[INI_BUFFERSIZE];
      var written := WriteSection(buf, section);
      if written {
        assert NUL !in Cut(section, SECTION_MAX);
        var end := EndOf(buf, 0, SectionLine(section));
        out := out + buf[..end];
      }
    }
  }

  // ---------------------------------------------------------------------
  // The edit
  // ---------------------------------------------------------------------

  lemma GapText(size: nat, ended: bool, more: seq<bytes>)
    ensures Flat(Gap(size, ended) + more) == (if 1 < size && ended then [] else [LF]) + Flat(more)
  {
    FlatCons([LF], more);
    assert [] + more == more && [] + Flat(more) == Flat(more);
  }

  lemma EditCons(c: bytes, ls: seq<bytes>, section: bytes, key: bytes, line: bytes, size: nat, ended: bool)
    requires section != []
    ensures var e := Edit([c] + ls, section, key, line, size, ended);
            Flat(e) == c + Flat(if IsHeaderOf(c, section) then EditKeys(ls, key, line, 0, false)
                                else Edit(ls, section, key, line, Cached(size, c), Ended(c)))
  {
    assert ([c] + ls)[1..] == ls;
    hide IsHeaderOf, EditKeys, Flat;
    FlatCons(c, if IsHeaderOf(c, section) then EditKeys(ls, key, line, 0, false)
                 else Edit(ls, section, key, line, Cached(size, c), Ended(c)));
  }

  lemma EditKeysCons(c: bytes, ls: seq<bytes>, key: bytes, line: bytes, size: nat, ended: bool)
    ensures var e := EditKeys([c] + ls, key, line, size, ended);
            Flat(e) == if IsHeader(c) then line + (c + Flat(ls))
                       else if IsSettingOf(c, key) then line + Flat(ls)
                       else c + Flat(EditKeys(ls, key, line, Cached(size, c), Ended(c)))
  {
    assert ([c] + ls)[1..] == ls;
    hide IsHeader, IsSettingOf, Flat;
    FlatCons(line, [c] + ls);
    FlatCons(c, ls);
    FlatCons(line, ls);
    FlatCons(c, EditKeys(ls, key, line, Cached(size, c), Ended(c)));
  }

  /** With an empty cache nothing is known about the text before. */
  lemma EmptyCache(ls: seq<bytes>, key: bytes, line: bytes, e: bool, e': bool)
    ensures EditKeys(ls, key, line, 0, e) == EditKeys(ls, key, line, 0, e')
  {
  }

  /** The text so far, and the edit of what was not read yet, make up the goal. */
  ghost predicate Editing(goal: bytes, text: bytes, data: bytes, pos: nat, section: bytes, key: bytes, line: bytes,
                          size: nat)
    requires pos <= |data|
  {
    goal == text + Flat(Edit(Chunks(data[pos..]), section, key, line, size, EndedAt(data, pos)))
  }

  ghost predicate EditingKeys(goal: bytes, text: bytes, data: bytes, pos: nat, key: bytes, line: bytes, size: nat)
    requires pos <= |data|
  {
    goal == text + Flat(EditKeys(Chunks(data[pos..]), key, line, size, EndedAt(data, pos)))
  }

  lemma EditingStart(data: bytes, section: bytes, key: bytes, line: bytes)
    ensures Editing(Flat(Edit(Chunks(data), section, key, line, 0, false)), [], data, 0, section, key, line, 0)
    ensures section == [] ==>
              EditingKeys(Flat(Edit(Chunks(data), section, key, line, 0, false)), [], data, 0, key, line, 0)
  {
    assert data[0..] == data;
    hide Chunks, Flat, EditKeys;
  }

  lemma EditingNext(goal: bytes, text: bytes, data: bytes, pos: nat, c: bytes, section: bytes, key: bytes, line: bytes,
                    size: nat)
    requires pos + |c| <= |data| && c == data[pos..pos + |c|] && c != []
    requires Chunks(data[pos..]) == [c] + Chunks(data[pos + |c|..])
    requires Editing(goal, text, data, pos, section, key, line, size) && section != []
    ensures IsHeaderOf(c, section) ==> EditingKeys(goal, text + c, data, pos + |c|, key, line, 0)
    ensures !IsHeaderOf(c, section) ==>
              Editing(goal, text + c, data, pos + |c|, section, key, line, Cached(size, c))
  {
    hide Chunks, Flat, IsHeaderOf, Edit, EditKeys, Cached;
    var rest := Chunks(data[pos + |c|..]);
    EditCons(c, rest, section, key, line, size, EndedAt(data, pos));
    assert EndedAt(data, pos + |c|) == Ended(c);
    EmptyCache(rest, key, line, false, EndedAt(data, pos + |c|));
    Regroup(text, c, Flat(if IsHeaderOf(c, section) then EditKeys(rest, key, line, 0, false)
                          else Edit(rest, section, key, line, Cached(size, c), Ended(c))));
  }

  lemma EditingKeysNext(goal: bytes, text: bytes, data: bytes, pos: nat, c: bytes, key: bytes, line: bytes, size: nat)
    requires pos + |c| <= |data| && c == data[pos..pos + |c|] && c != []
    requires Chunks(data[pos..]) == [c] + Chunks(data[pos + |c|..])
    requires EditingKeys(goal, text, data, pos, key, line, size)
    ensures IsHeader(c) ==> goal == text + line + data[pos..]
    ensures !IsHeader(c) && IsSettingOf(c, key) ==> goal == text + line + data[pos + |c|..]
    ensures !IsHeader(c) && !IsSettingOf(c, key) ==>
              EditingKeys(goal, text + c, data, pos + |c|, key, line, Cached(size, c))
  {
    hide Chunks, Flat, IsHeader, IsSettingOf, EditKeys, Cached;
    var rest := Chunks(data[pos + |c|..]);
    EditKeysCons(c, rest, key, line, size, EndedAt(data, pos));
    FlatOfChunks(data[pos + |c|..]);
    assert EndedAt(data, pos + |c|) == Ended(c);
    assert data[pos..] == c + data[pos + |c|..];
    Regroup(text, line, data[pos..]);
    Regroup(text, line, data[pos + |c|..]);
    Regroup(text, c, Flat(EditKeys(rest, key, line, Cached(size, c), Ended(c))));
  }

  /** At the end of the file the key, and its section if that is missing, is appended. */
  lemma EditingEnd(goal: bytes, text: bytes, data: bytes, pos: nat, section: bytes, key: bytes, line: bytes, size: nat)
    requires pos == |data|
    ensures Editing(goal, text, data, pos, section, key, line, size) && section != [] ==>
              goal == text + (if 1 < size && EndedAt(data, pos) then [] else [LF]) + SectionLine(section) + line
    ensures EditingKeys(goal, text, data, pos, key, line, size) ==>
              goal == text + (if 1 < size && EndedAt(data, pos) then [] else [LF]) + line
  {
    ChunksDone(data, pos);
    hide Chunks, Flat, Gap, SectionLine;
    var gap := if 1 < size && EndedAt(data, pos) then [] else [LF];
    GapText(size, EndedAt(data, pos), [line]);
    GapText(size, EndedAt(data, pos), [SectionLine(section), line]);
    FlatTwo(SectionLine(section), line);
    Regroup(text, gap, line);
    Regroup(text, gap, SectionLine(section) + line);
    Regroup(text + gap, SectionLine(section), line);
  }

  lemma FlatTwo(a: bytes, b: bytes)
    ensures Flat([b]) == b && Flat([a, b]) == a + b
  {
    FlatCons(b, []);
    FlatCons(a, [b]);
    assert [b] + [] == [b] && [a] + [b] == [a, b] && b + [] == b;
  }

  /** Copies up to and including the header of the section; when there is none, the
      file is completed with a new section. */
  method CopySection(copy: IniCopy, section: CString, key: CString, value: CString, ghost goal: bytes)
      returns (found: bool)
    requires copy.Settled() && copy.source.pos == 0 && copy.cacheLen == 0 && copy.out == []
    requires goal == Flat(Edit(Chunks(copy.source.data), section, key, KeyLine(key, value), 0, false))
    modifies copy, copy.source
    ensures !found ==> copy.out == goal
    ensures found ==>
              copy.Settled() && copy.cacheLen == 0 &&
              EditingKeys(goal, copy.out, copy.source.data, copy.source.pos, key, KeyLine(key, value), 0)
  {
    hide Editing, EditingKeys, KeyLine, SectionLine, FirstChunk, Chunks, Edit, Aligned, IsHeader, IsHeaderOf;
    ghost var data := copy.source.data;
    ghost var line := KeyLine(key, value);
    EditingStart(data, section, key, line);
    assert copy.Text() == [];
    if section == [] {
      var _ := copy.CacheFlush();
      return true;
    }
    while true
      invariant copy.Settled()
      invariant Editing(goal, copy.Text(), data, copy.source.pos, section, key, line, copy.cacheLen)
      decreases |data| - copy.source.pos
    {
      ghost var at, text := copy.source.pos, copy.Text();
      if at < |data| {
        ChunksNext(data, at);
        EditingNext(goal, text, data, at, FirstChunk(data[at..], LINE_ROOM), section, key, line, copy.cacheLen);
      }
      var read := copy.source.Read(LINE_ROOM);
      if read.None? {
        EditingEnd(goal, text, data, at, section, key, line, copy.cacheLen);
        copy.EndLine();
        copy.PutSection(section);
        copy.PutKey(key, value);
        return false;
      }
      var _, isSection := MatchHeader(read.value, section);
      copy.Carry(read.value);
      if isSection {
        break;
      }
    }
    var _ := copy.CacheFlush();
    return true;
  }

  /** Copies up to the line of the key, sets the key, and copies the rest. */
  method CopyWithKey(copy: IniCopy, key: CString, value: CString, ghost goal: bytes)
    requires copy.Settled() && copy.cacheLen == 0
    requires EditingKeys(goal, copy.out, copy.source.data, copy.source.pos, key, KeyLine(key, value), 0)
    modifies copy, copy.source
    ensures copy.out == goal
  {
    hide EditingKeys, KeyLine, FirstChunk, Chunks, Aligned, IsHeader, IsComment, IsSettingOf, IsHeaderOf, ValueIn,
         ReadValue;
    ghost var data := copy.source.data;
    ghost var line := KeyLine(key, value);
    assert copy.Text() == copy.out;
    while true
      invariant copy.Settled()
      invariant EditingKeys(goal, copy.Text(), data, copy.source.pos, key, line, copy.cacheLen)
      decreases |data| - copy.source.pos
    {
      ghost var at, text := copy.source.pos, copy.Text();
      if at < |data| {
        ChunksNext(data, at);
        EditingKeysNext(goal, text, data, at, FirstChunk(data[at..], LINE_ROOM), key, line, copy.cacheLen);
      }
      var read := copy.source.Read(LINE_ROOM);
      if read.None? {
        EditingEnd(goal, text, data, at, [], key, line, copy.cacheLen);
        copy.EndLine();
        copy.PutKey(key, value);
        return;
      }
      var isHeader, _ := MatchHeader(read.value, []);
      var _, isSetting, _ := MatchKey(read.value, key);
      if isSetting || isHeader {
        FinishCopy(copy, key, value, isHeader, read.value);
        return;
      }
      copy.Carry(read.value);
    }
  }

  /** Sets the key before the line that was just read, which is kept if it is a
      header and dropped otherwise. */
  method FinishCopy(copy: IniCopy, key: CString, value: CString, keep: bool, ghost c: bytes)
    requires copy.Valid() && copy.mark + copy.cacheLen < |copy.source.data|
    requires c == FirstChunk(copy.source.data[copy.mark + copy.cacheLen..], LINE_ROOM)
    modifies copy, copy.source
    ensures var at := old(copy.mark + copy.cacheLen);
            at + |c| <= |copy.source.data| &&
            copy.out == old(copy.Text()) + KeyLine(key, value)
                        + copy.source.data[if keep then at else at + |c|..]
  {
    hide KeyLine, FirstChunk, Chunks, Aligned;
    ghost var data, at := copy.source.data, copy.mark + copy.cacheLen;
    ChunksNext(data, at);
    AlignedNothing(data, at);
    AlignedNothing(data, at + |c|);
    AlignedAppend(data, at, 0, |c|);
    var _ := copy.CacheFlush();
    copy.PutKey(key, value);
    ghost var sofar := copy.out;
    var again := copy.source.Read(LINE_ROOM);
    if keep {
      var _ := copy.CacheAccum(again.value);
      assert copy.Text() == sofar + c;
    } else {
      copy.mark := copy.source.pos;
      assert copy.Text() == sofar;
    }
    copy.CopyRest();
    assert data[at..] == c + data[at + |c|..];
    Regroup(sofar, c, data[at + |c|..]);
  }

  lemma KeyLineHoldsNoEnd(key: bytes, value: bytes)
    requires NUL !in key && NUL !in value
    ensures NUL !in KeyLine(key, value)
  {
    hide Printed;
    assert NUL !in Cut(key, KEY_MAX);
    PrintedHoldsNoEnd(value, ValueRoom(key));
  }

  /** The value fits the buffer it is compared in. */
  lemma ValueFits(line: bytes)
    requires |line| <= LINE_ROOM
    ensures Cut(ValueIn(line), LINE_ROOM) == ValueIn(line)
  {
    hide SkipLeading, Separator, ReadValue;
    var sp := SkipLeading(line);
    if Separator(sp) < |sp| {
      ReadIsShorter(sp[Separator(sp) + 1..]);
    }
  }

  /** Rewrites the file with the key set. */
  method Rewrite(data: CString, section: CString, key: CString, value: CString) returns (out: bytes)
    ensures out == Flat(Edit(Chunks(data), section, key, KeyLine(key, value), 0, false))
  {
    hide Edit, KeyLine, Chunks, Aligned, EditingKeys;
    var copy := new IniCopy(data);
    ghost var goal := Flat(Edit(Chunks(data), section, key, KeyLine(key, value), 0, false));
    var found := CopySection(copy, section, key, value, goal);
    if found {
      CopyWithKey(copy, key, value, goal);
    }
    return copy.out;
  }

  /** Makes a file that holds nothing but the key. */
  method Create(section: CString, key: CString, value: CString) returns (out: bytes)
    ensures out == SectionLine(section) + KeyLine(key, value)
  {
    hide SectionLine, KeyLine;
    var copy := new IniCopy([]);
    copy.PutSection(section);
    copy.PutKey(key, value);
    assert copy.out == [] + SectionLine(section) + KeyLine(key, value);
    return copy.out;
  }

  /** Sets a key. `writable` tells whether the file can be opened for writing. */
  method PutString(file: Option<CString>, section: CString, key: CString, value: CString, writable: bool)
      returns (result: Option<bytes>, ok: bool)
    ensures Put(result, ok) == PutSetting(file, section, key, value, writable)
  {
    hide SectionLine, KeyLine, Edit, Overwrite, Chunks, ValueIn, Found, Flat;
    if file.None? {
      if !writable {
        return None, false;
      }
      var created := Create(section, key, value);
      return Some(created), true;
    }
    var data := file.value;
    var f := new IniSource(data);
    var buffer := new byte[INI_BUFFERSIZE];
    var matches, head := GetKeyString(f, section, key, buffer, INI_BUFFERSIZE, KeyLine(key, value));
    if matches {
      ghost var found := Found(Chunks(data), section, key).value;
      ValueFits(found);
      var end := EndOf(buffer, 0, ValueIn(found));
      if buffer[..end] == value {
        return file, true;
      }
      WriteKey(buffer, key, value);
      KeyLineHoldsNoEnd(key, value);
      var length := EndOf(buffer, 0, KeyLine(key, value));
      if length == f.pos - head {
        if !writable {
          return file, false;
        }
        return Some(data[..head] + buffer[..length] + data[f.pos..]), true;
      }
    }
    if !writable {
      return file, false;
    }
    var rewritten := Rewrite(data, section, key, value);
    return Some(rewritten), true;
  }
}
