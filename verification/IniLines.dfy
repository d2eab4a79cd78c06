/** The settings file as a list of lines: looking a key up, and the edit that setting
    a key amounts to. */
module IniLines {
  import opened Bytes
  import opened TgLines
  import opened IniValue

  const LINE_ROOM := INI_BUFFERSIZE - 1
  const OPEN: byte := 91
  const CLOSE: byte := 93

  // ---------------------------------------------------------------------
  // Lines
  // ---------------------------------------------------------------------

  /** What one read into a buffer with this room takes: up to and including an LF. */
  function FirstChunk(d: bytes, room: nat): (c: bytes)
    ensures c <= d && |c| <= room
    ensures d != [] && 0 < room ==> c != []
  {
    if d == [] || room == 0 then []
    else if d[0] == LF then [LF]
    else [d[0]] + FirstChunk(d[1..], room - 1)
  }

  /** What successive reads return; a line too long for the buffer comes in pieces. */
  function Chunks(d: bytes): (ls: seq<bytes>)
    decreases |d|
  {
    if d == [] then []
    else
      var c := FirstChunk(d, LINE_ROOM);
      [c] + Chunks(d[|c|..])
  }

  function Flat(ls: seq<bytes>): bytes {
    if ls == [] then [] else ls[0] + Flat(ls[1..])
  }

  lemma FlatCons(l: bytes, ls: seq<bytes>)
    ensures Flat([l] + ls) == l + Flat(ls)
  {
    assert ([l] + ls)[1..] == ls;
  }

  /** The chunks of a file, put together, are the file. */
  lemma {:induction false} FlatOfChunks(d: bytes)
    ensures Flat(Chunks(d)) == d
    decreases |d|
  {
    if d != [] {
      var c := FirstChunk(d, LINE_ROOM);
      FlatOfChunks(d[|c|..]);
      assert d == c + d[|c|..];
      assert Chunks(d)[1..] == Chunks(d[|c|..]);
    }
  }

  predicate Ended(l: bytes) {
    l != [] && l[|l| - 1] == LF
  }

  // ---------------------------------------------------------------------
  // Looking up
  // ---------------------------------------------------------------------

  function Lower(b: byte): byte {
    if 65 <= b <= 90 then b + 32 else b
  }

  predicate Caseless(a: bytes, b: bytes) {
    |a| == |b| && forall i :: 0 <= i < |a| ==> Lower(a[i]) == Lower(b[i])
  }

  /** The last position of b, or |s|. */
  function FindLast(s: bytes, b: byte): (i: nat)
    ensures i <= |s|
    ensures i < |s| ==> s[i] == b
    ensures forall j :: 0 <= j < |s| && s[j] == b ==> j <= i < |s|
  {
    if s == [] then 0
    else if s[|s| - 1] == b then |s| - 1
    else
      var i := FindLast(s[..|s| - 1], b);
      if i == |s| - 1 then |s| else i
  }

  predicate IsHeader(line: bytes) {
    var sp := SkipLeading(line);
    sp != [] && sp[0] == OPEN
  }

  predicate IsHeaderOf(line: bytes, section: bytes) {
    var sp := SkipLeading(line);
    var e := FindLast(sp, CLOSE);
    sp != [] && sp[0] == OPEN && e < |sp| && Caseless(sp[1..e], section)
  }

  /** Where the name ends: at the first equal sign, or else at the first colon. */
  function Separator(sp: bytes): (e: nat)
    ensures e <= |sp|
  {
    var e := Find(sp, EQUALS);
    if e < |sp| then e else Find(sp, COLON)
  }

  predicate IsSettingOf(line: bytes, key: bytes) {
    var sp := SkipLeading(line);
    var e := Separator(sp);
    e < |sp| && key != [] && Caseless(SkipTrailing(sp[..e]), key)
  }

  predicate IsComment(line: bytes) {
    var sp := SkipLeading(line);
    sp != [] && OpensComment(sp[0])
  }

  function ValueIn(line: bytes): bytes {
    var sp := SkipLeading(line);
    var e := Separator(sp);
    if e < |sp| then ReadValue(sp[e + 1..]) else []
  }

  /** The lines behind the first header of the section; all lines for no section. */
  function Behind(ls: seq<bytes>, section: bytes): (r: Option<seq<bytes>>)
    ensures r.Some? ==> |r.value| <= |ls|
  {
    if section == [] then Some(ls)
    else if ls == [] then None
    else if IsHeaderOf(ls[0], section) then Some(ls[1..])
    else Behind(ls[1..], section)
  }

  /** The first line of the key before the next header. */
  function Setting(ls: seq<bytes>, key: bytes): Option<bytes> {
    if ls == [] || IsHeader(ls[0]) then None
    else if !IsComment(ls[0]) && IsSettingOf(ls[0], key) then Some(ls[0])
    else Setting(ls[1..], key)
  }

  function Lookup(ls: seq<bytes>, section: bytes, key: bytes): Option<bytes> {
    var rest :- Behind(ls, section);
    var line :- Setting(rest, key);
    Some(ValueIn(line))
  }

  // ---------------------------------------------------------------------
  // Writing
  // ---------------------------------------------------------------------

  const KEY_MAX := INI_BUFFERSIZE - 4
  const SECTION_MAX := INI_BUFFERSIZE - 5

  /** The room that is left for the value behind a key. */
  function ValueRoom(key: bytes): (n: nat)
    ensures 0 < n
  {
    INI_BUFFERSIZE - (|Cut(key, KEY_MAX)| + 1) - 2
  }

  function KeyLine(key: bytes, value: bytes): (l: bytes)
    ensures l != [] && |l| <= LINE_ROOM
  {
    Cut(key, KEY_MAX) + [EQUALS] + Printed(value, ValueRoom(key)) + [LF]
  }

  function SectionLine(section: bytes): (l: bytes)
    ensures |l| <= LINE_ROOM
  {
    if section == [] then [] else [OPEN] + Cut(section, SECTION_MAX) + [CLOSE, LF]
  }

  /** How many bytes the copy cache holds after these lines; it is flushed when the
      next line would not fit. */
  function Cached(size: nat, l: bytes): nat {
    if size + |l| >= INI_BUFFERSIZE then |l| else size + |l|
  }

  /** Before something is appended, a line end is written unless the cache shows that
      there is one. */
  function Gap(size: nat, ended: bool): seq<bytes> {
    if 1 < size && ended then [] else [[LF]]
  }

  /** The lines behind the section header with the key set to the new line. `size` is
      what the cache holds, and `ended` whether the text so far ends in LF. */
  function EditKeys(ls: seq<bytes>, key: bytes, line: bytes, size: nat, ended: bool): seq<bytes> {
    if ls == [] then Gap(size, ended) + [line]
    else if IsHeader(ls[0]) then [line] + ls
    else if IsSettingOf(ls[0], key) then [line] + ls[1..]
    else [ls[0]] + EditKeys(ls[1..], key, line, Cached(size, ls[0]), Ended(ls[0]))
  }

  /** The whole file with the key set; a section that is missing is appended. */
  function Edit(ls: seq<bytes>, section: bytes, key: bytes, line: bytes, size: nat, ended: bool): seq<bytes> {
    if section == [] then EditKeys(ls, key, line, size, ended)
    else if ls == [] then Gap(size, ended) + [SectionLine(section), line]
    else if IsHeaderOf(ls[0], section) then [ls[0]] + EditKeys(ls[1..], key, line, 0, false)
    else [ls[0]] + Edit(ls[1..], section, key, line, Cached(size, ls[0]), Ended(ls[0]))
  }

  /** The line of the key overwritten where it stands. */
  function OverwriteKeys(ls: seq<bytes>, key: bytes, line: bytes): seq<bytes> {
    if ls == [] || IsHeader(ls[0]) then ls
    else if !IsComment(ls[0]) && IsSettingOf(ls[0], key) then [line] + ls[1..]
    else [ls[0]] + OverwriteKeys(ls[1..], key, line)
  }

  function Overwrite(ls: seq<bytes>, section: bytes, key: bytes, line: bytes): seq<bytes> {
    if section == [] then OverwriteKeys(ls, key, line)
    else if ls == [] then ls
    else if IsHeaderOf(ls[0], section) then [ls[0]] + OverwriteKeys(ls[1..], key, line)
    else [ls[0]] + Overwrite(ls[1..], section, key, line)
  }

  /** The line a lookup stops at. */
  function Found(ls: seq<bytes>, section: bytes, key: bytes): Option<bytes> {
    var rest :- Behind(ls, section);
    Setting(rest, key)
  }

  /** Setting a key: the file afterwards, and whether the call reports success. Without
      a file a new one is made; a value that is set already is left alone; a line of
      the same length is overwritten; otherwise the file is rewritten. */
  datatype Put = Put(file: Option<bytes>, ok: bool)

  function PutSetting(file: Option<bytes>, section: bytes, key: bytes, value: bytes, writable: bool): Put {
    var line := KeyLine(key, value);
    match file
    case None =>
      if writable then Put(Some(SectionLine(section) + line), true) else Put(None, false)
    case Some(data) =>
      var ls := Chunks(data);
      var found := Found(ls, section, key);
      if found.Some? && ValueIn(found.value) == value then Put(file, true)
      else if !writable then Put(file, false)
      else if found.Some? && |found.value| == |line| then Put(Some(Flat(Overwrite(ls, section, key, line))), true)
      else Put(Some(Flat(Edit(ls, section, key, line, 0, false))), true)
  }
}
