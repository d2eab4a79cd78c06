/** The file format of the durable mirror: printer, parser and their agreement. */
module MqImage {
  import opened Bytes
  import opened MqModel

  const TWO32 := 0x1_0000_0000
  const VERSION := 1
  const HEADER_SIZE := 20
  const RECORD_HEAD := 8

  /** "MQPQUEUE" */
  const MAGIC: bytes := [77, 81, 80, 81, 85, 69, 85, 69]

  // ---------------------------------------------------------------------
  // Scalars
  // ---------------------------------------------------------------------

  type uint32 = v: int | 0 <= v < TWO32

  function PutU32(v: uint32): (b: bytes)
    ensures |b| == 4
  {
    [(v % 256) as byte, (v / 256 % 256) as byte, (v / 65536 % 256) as byte, (v / 16777216 % 256) as byte]
  }

  function GetU32(b: bytes, off: nat): (v: uint32)
    requires off + 4 <= |b|
  {
    b[off] as int + 256 * b[off + 1] as int + 65536 * b[off + 2] as int + 16777216 * b[off + 3] as int
  }

  /** The conversions of C between 32-bit signed and unsigned. */
  function ToUnsigned(v: int32): uint32 {
    if v < 0 then v + TWO32 else v
  }

  function ToSigned(v: uint32): int32 {
    if v < 0x8000_0000 then v else v - TWO32
  }

  function PutI32(v: int32): (b: bytes)
    ensures |b| == 4
  {
    PutU32(ToUnsigned(v))
  }

  function GetI32(b: bytes, off: nat): (v: int32)
    requires off + 4 <= |b|
  {
    ToSigned(GetU32(b, off))
  }

  /** Little-endian encoding and decoding are inverse, on every 32-bit value and on
      every four bytes. */
  lemma ScalarRoundTrip(v: uint32, s: int32, pre: bytes, post: bytes, b: bytes, off: nat)
    requires off + 4 <= |b|
    ensures GetU32(pre + PutU32(v) + post, |pre|) == v
    ensures GetI32(pre + PutI32(s) + post, |pre|) == s
    ensures PutU32(GetU32(b, off)) == b[off..off + 4]
    ensures PutI32(GetI32(b, off)) == b[off..off + 4]
  {
    PutThenGet(v, pre, post);
    PutThenGet(ToUnsigned(s), pre, post);
    GetThenPut(b, off);
    assert ToUnsigned(GetI32(b, off)) == GetU32(b, off);
  }

  lemma Digits(v: int)
    requires 0 <= v < TWO32
    ensures v == v % 256 + 256 * (v / 256 % 256) + 65536 * (v / 65536 % 256) + 16777216 * (v / 16777216 % 256)
  {
  }

  lemma PutThenGet(v: uint32, pre: bytes, post: bytes)
    ensures GetU32(pre + PutU32(v) + post, |pre|) == v
  {
    var d := PutU32(v);
    Digits(v);
    hide PutU32;
    var b := pre + d + post;
    assert b[|pre|] == d[0] && b[|pre| + 1] == d[1] && b[|pre| + 2] == d[2] && b[|pre| + 3] == d[3];
  }

  lemma Undigits(p: int, q: int, r: int, s: int)
    requires 0 <= p < 256 && 0 <= q < 256 && 0 <= r < 256 && 0 <= s < 256
    ensures var v := p + 256 * q + 65536 * r + 16777216 * s;
            v % 256 == p && v / 256 % 256 == q && v / 65536 % 256 == r && v / 16777216 % 256 == s
  {
    var v := p + 256 * q + 65536 * r + 16777216 * s;
    assert v / 256 == q + 256 * r + 65536 * s;
    assert v / 65536 == r + 256 * s;
    assert v / 16777216 == s;
  }

  lemma GetThenPut(b: bytes, off: nat)
    requires off + 4 <= |b|
    ensures PutU32(GetU32(b, off)) == b[off..off + 4]
  {
    Undigits(b[off] as int, b[off + 1] as int, b[off + 2] as int, b[off + 3] as int);
  }

  // ---------------------------------------------------------------------
  // Printing
  // ---------------------------------------------------------------------

  function RecordHead(r: Record): (b: bytes)
    requires |r.payload| < TWO32
    ensures |b| == RECORD_HEAD
  {
    PutI32(r.friendnum) + PutU32(|r.payload|)
  }

  /** Every record is one the queue would accept. */
  predicate Storable(rs: seq<Record>) {
    forall i :: 0 <= i < |rs| ==> Acceptable(rs[i].friendnum, rs[i].payload)
  }

  function Body(rs: seq<Record>): bytes
    requires Storable(rs)
  {
    if rs == [] then [] else RecordHead(rs[0]) + rs[0].payload + Body(rs[1..])
  }

  function Header(count: uint32): (b: bytes)
    ensures |b| == HEADER_SIZE
  {
    MAGIC + PutU32(VERSION) + PutU32(count) + PutU32(0)
  }

  function Image(rs: seq<Record>): bytes
    requires Storable(rs) && |rs| < TWO32
  {
    Header(|rs|) + Body(rs)
  }

  // ---------------------------------------------------------------------
  // Parsing
  // ---------------------------------------------------------------------

  /** The count records that start at off, or None when one of them is malformed. */
  function ParseRecords(b: bytes, off: nat, count: nat): (r: Option<seq<Record>>)
    requires off <= |b|
    ensures r.Some? ==> |r.value| == count && Storable(r.value)
    decreases count
  {
    if count == 0 then Some([])
    else if off + RECORD_HEAD > |b| then None
    else
      var friendnum, len := GetI32(b, off), GetU32(b, off + 4);
      var start := off + RECORD_HEAD;
      if friendnum < 0 || len == 0 || len >= MQ_PAYLOAD_MAX || start + len > |b| then None
      else
        var rest := ParseRecords(b, start + len, count - 1);
        if rest.None? then None
        else Some([Record(friendnum, b[start..start + len])] + rest.value)
  }

  /** What a file of a queue of this capacity holds; None is a format error. */
  function ParseFile(b: bytes, capacity: nat): (r: Option<seq<Record>>)
    ensures r.Some? ==> |r.value| <= capacity && Storable(r.value)
  {
    if |b| < HEADER_SIZE || b[..8] != MAGIC || GetU32(b, 8) != VERSION || GetU32(b, 12) > capacity then None
    else ParseRecords(b, HEADER_SIZE, GetU32(b, 12))
  }

  // ---------------------------------------------------------------------
  // Agreement
  // ---------------------------------------------------------------------

  lemma HeadRead(pre: bytes, r: Record, post: bytes)
    requires Acceptable(r.friendnum, r.payload)
    ensures var b := pre + (RecordHead(r) + r.payload + post);
            var start := |pre| + RECORD_HEAD;
            GetI32(b, |pre|) == r.friendnum && GetU32(b, |pre| + 4) == |r.payload| &&
            b[start..start + |r.payload|] == r.payload &&
            b == (pre + RecordHead(r) + r.payload) + post
  {
    var b := pre + (RecordHead(r) + r.payload + post);
    var head, len := PutI32(r.friendnum), PutU32(|r.payload|);
    assert b == pre + head + (len + r.payload + post);
    PutThenGet(ToUnsigned(r.friendnum), pre, len + r.payload + post);
    assert b == (pre + head) + len + (r.payload + post);
    PutThenGet(|r.payload|, pre + head, r.payload + post);
  }

  /** One record read, in terms of the rest. */
  lemma ParseOne(b: bytes, off: nat, count: nat, r: Record)
    requires 0 < count && off + RECORD_HEAD + |r.payload| <= |b| && Acceptable(r.friendnum, r.payload)
    requires GetI32(b, off) == r.friendnum && GetU32(b, off + 4) == |r.payload|
    requires b[off + RECORD_HEAD..off + RECORD_HEAD + |r.payload|] == r.payload
    ensures var rest := ParseRecords(b, off + RECORD_HEAD + |r.payload|, count - 1);
            ParseRecords(b, off, count) == if rest.None? then None else Some([r] + rest.value)
  {
  }

  lemma ParsePrinted(pre: bytes, r: Record, tail: bytes, count: nat)
    requires 0 < count && Acceptable(r.friendnum, r.payload)
    ensures var pre' := pre + RecordHead(r) + r.payload;
            var rest := ParseRecords(pre' + tail, |pre'|, count - 1);
            ParseRecords(pre + (RecordHead(r) + r.payload + tail), |pre|, count)
            == if rest.None? then None else Some([r] + rest.value)
  {
    hide GetU32, GetI32, RecordHead, PutU32, PutI32, ParseRecords;
    HeadRead(pre, r, tail);
    ParseOne(pre + (RecordHead(r) + r.payload + tail), |pre|, count, r);
  }

  lemma BodyStep(rs: seq<Record>)
    requires Storable(rs) && rs != []
    ensures Body(rs) == RecordHead(rs[0]) + rs[0].payload + Body(rs[1..])
  {
    hide RecordHead;
  }

  lemma BodyUnfold(rs: seq<Record>, post: bytes)
    requires Storable(rs) && rs != []
    ensures Body(rs) + post == RecordHead(rs[0]) + rs[0].payload + (Body(rs[1..]) + post)
  {
    hide RecordHead, Body;
    BodyStep(rs);
    Regroup(RecordHead(rs[0]) + rs[0].payload, Body(rs[1..]), post);
  }

  lemma StorableTail(rs: seq<Record>)
    requires Storable(rs) && rs != []
    ensures Acceptable(rs[0].friendnum, rs[0].payload) && Storable(rs[1..])
  {
  }

  /** Printed records parse back to themselves, wherever they stand. */
  lemma {:induction false} BodyRoundTrip(pre: bytes, rs: seq<Record>, post: bytes)
    requires Storable(rs)
    ensures ParseRecords(pre + (Body(rs) + post), |pre|, |rs|) == Some(rs)
    decreases |rs|
  {
    if rs == [] {
      assert Body(rs) + post == post;
    } else {
      hide RecordHead, Body, ParseRecords, Storable;
      StorableTail(rs);
      BodyRoundTrip(pre + RecordHead(rs[0]) + rs[0].payload, rs[1..], post);
      BodyFirst(pre, rs, post);
    }
  }

  /** The first record and then the rest. */
  lemma BodyFirst(pre: bytes, rs: seq<Record>, post: bytes)
    requires rs != [] && Storable(rs) && Storable(rs[1..])
    requires var next := pre + RecordHead(rs[0]) + rs[0].payload;
             ParseRecords(next + (Body(rs[1..]) + post), |next|, |rs| - 1) == Some(rs[1..])
    ensures ParseRecords(pre + (Body(rs) + post), |pre|, |rs|) == Some(rs)
  {
    StorableTail(rs);
    hide RecordHead, Body, ParseRecords, Storable, Acceptable;
    BodyUnfold(rs, post);
    ParsePrinted(pre, rs[0], Body(rs[1..]) + post, |rs|);
    assert [rs[0]] + rs[1..] == rs;
  }

  lemma HeaderRead(count: uint32, post: bytes)
    ensures var b := Header(count) + post;
            b[..8] == MAGIC && GetU32(b, 8) == VERSION && GetU32(b, 12) == count
  {
    var b := Header(count) + post;
    assert b == MAGIC + PutU32(VERSION) + (PutU32(count) + PutU32(0) + post);
    PutThenGet(VERSION, MAGIC, PutU32(count) + PutU32(0) + post);
    assert b == (MAGIC + PutU32(VERSION)) + PutU32(count) + (PutU32(0) + post);
    PutThenGet(count, MAGIC + PutU32(VERSION), PutU32(0) + post);
  }

  /** A printed image parses to the records it was printed from; what follows them
      is not looked at. */
  lemma ImageRoundTrip(rs: seq<Record>, post: bytes, capacity: nat)
    requires Storable(rs) && |rs| <= capacity < TWO32
    ensures ParseFile(Image(rs) + post, capacity) == Some(rs)
  {
    hide GetU32, Header;
    HeaderRead(|rs|, Body(rs) + post);
    BodyRoundTrip(Header(|rs|), rs, post);
    assert Image(rs) + post == Header(|rs|) + (Body(rs) + post);
  }

  lemma ParsedHead(b: bytes, off: nat, count: nat)
    requires off <= |b| && 0 < count && ParseRecords(b, off, count).Some?
    ensures var rs := ParseRecords(b, off, count).value;
            && off + RECORD_HEAD + |rs[0].payload| <= |b|
            && b[off..off + RECORD_HEAD] == RecordHead(rs[0])
            && b[off + RECORD_HEAD..off + RECORD_HEAD + |rs[0].payload|] == rs[0].payload
            && ParseRecords(b, off + RECORD_HEAD + |rs[0].payload|, count - 1) == Some(rs[1..])
  {
    GetThenPut(b, off);
    GetThenPut(b, off + 4);
    assert ToUnsigned(GetI32(b, off)) == GetU32(b, off);
    hide GetU32, PutU32;
    var rs := ParseRecords(b, off, count).value;
    var rest := ParseRecords(b, off + RECORD_HEAD + |rs[0].payload|, count - 1);
    assert rs[1..] == rest.value;
    assert b[off..off + RECORD_HEAD] == b[off..off + 4] + b[off + 4..off + 8];
  }

  lemma BodyCovers(b: bytes, off: nat, rs: seq<Record>)
    requires Storable(rs) && rs != []
    requires off + RECORD_HEAD + |rs[0].payload| <= |b|
    requires b[off..off + RECORD_HEAD] == RecordHead(rs[0])
    requires b[off + RECORD_HEAD..off + RECORD_HEAD + |rs[0].payload|] == rs[0].payload
    requires var next := off + RECORD_HEAD + |rs[0].payload|; var rest := Body(rs[1..]);
             next + |rest| <= |b| && b[next..next + |rest|] == rest
    ensures off + |Body(rs)| <= |b| && b[off..off + |Body(rs)|] == Body(rs)
  {
    hide RecordHead, Body, Storable;
    StorableTail(rs);
    BodyStep(rs);
    var mid := off + RECORD_HEAD;
    var next := mid + |rs[0].payload|;
    var end := next + |Body(rs[1..])|;
    assert b[off..end] == b[off..mid] + b[mid..next] + b[next..end];
  }

  /** Conversely, a file that parses is the image of what it parses to, but for the
      four reserved bytes and what follows the last record. */
  lemma {:induction false} ParsedIsPrinted(b: bytes, off: nat, count: nat)
    requires off <= |b| && ParseRecords(b, off, count).Some?
    ensures var body := Body(ParseRecords(b, off, count).value);
            off + |body| <= |b| && b[off..off + |body|] == body
    decreases count
  {
    if 0 < count {
      hide RecordHead, Body, ParseRecords, Storable;
      ParsedHead(b, off, count);
      ParsedIsPrinted(b, off + RECORD_HEAD + |ParseRecords(b, off, count).value[0].payload|, count - 1);
      ParsedFirst(b, off, count);
    } else {
      assert b[off..off] == [];
    }
  }

  lemma ParsedFirst(b: bytes, off: nat, count: nat)
    requires off <= |b| && 0 < count && ParseRecords(b, off, count).Some?
    requires var rs := ParseRecords(b, off, count).value;
             var next := off + RECORD_HEAD + |rs[0].payload|;
             && next <= |b| && ParseRecords(b, next, count - 1) == Some(rs[1..])
             && next + |Body(rs[1..])| <= |b| && b[next..next + |Body(rs[1..])|] == Body(rs[1..])
    ensures var body := Body(ParseRecords(b, off, count).value);
            off + |body| <= |b| && b[off..off + |body|] == body
  {
    ParsedHead(b, off, count);
    hide RecordHead, Body, ParseRecords, Storable;
    BodyCovers(b, off, ParseRecords(b, off, count).value);
  }

  // ---------------------------------------------------------------------
  // The file, byte by byte
  // ---------------------------------------------------------------------

  /** Four bytes, the lowest first. */
  function LittleEndian(v: int): (b: bytes)
    requires 0 <= v < 4294967296
    ensures |b| == 4
    ensures b[0] as int + 256 * b[1] as int + 65536 * b[2] as int + 16777216 * b[3] as int == v
  {
    Digits(v);
    [(v % 256) as byte, (v / 256 % 256) as byte, (v / 65536 % 256) as byte, (v / 16777216 % 256) as byte]
  }

  /** "MQPQUEUE", version 1, the number of records and four zeros; then each record with
      its friend, its length and its payload. */
  lemma ImageIs(rs: seq<Record>)
    requires Storable(rs) && |rs| < 4294967296
    ensures Image(rs) == [77, 81, 80, 81, 85, 69, 85, 69] + LittleEndian(1) + LittleEndian(|rs|) + LittleEndian(0)
                         + Body(rs)
    ensures rs == [] ==> Body(rs) == []
    ensures rs != [] ==> 0 <= rs[0].friendnum &&
                         Body(rs) == LittleEndian(rs[0].friendnum) + LittleEndian(|rs[0].payload|) + rs[0].payload
                                     + Body(rs[1..])
  {
    if rs != [] {
      assert Acceptable(rs[0].friendnum, rs[0].payload);
    }
  }

  /** What is a file of this format, exactly. */
  lemma ParseFileIff(b: bytes, capacity: nat, rs: seq<Record>)
    requires capacity < 4294967296
    ensures ParseFile(b, capacity) == Some(rs) <==>
              && |rs| <= capacity
              && (forall i :: 0 <= i < |rs| ==> 0 <= rs[i].friendnum && 0 < |rs[i].payload| < 1372)
              && Storable(rs)
              && exists reserved: bytes, trailing :: |reserved| == 4 && FileOf(b, rs, reserved, trailing)
  {
    hide GetU32, PutU32, Body, ParseRecords;
    if ParseFile(b, capacity) == Some(rs) {
      FileParts(b, capacity, rs);
    }
    if Storable(rs) && |rs| <= capacity {
      if reserved: bytes, trailing :| |reserved| == 4 && FileOf(b, rs, reserved, trailing) {
        FileParses(b, capacity, rs, reserved, trailing);
      }
    }
  }

  /** The file consists of these parts. */
  predicate FileOf(b: bytes, rs: seq<Record>, reserved: bytes, trailing: bytes) {
    Storable(rs) && |rs| < 4294967296 &&
    b == [77, 81, 80, 81, 85, 69, 85, 69] + LittleEndian(1) + LittleEndian(|rs|) + reserved + Body(rs) + trailing
  }

  lemma FileParts(b: bytes, capacity: nat, rs: seq<Record>)
    requires capacity < 4294967296 && ParseFile(b, capacity) == Some(rs)
    ensures |rs| <= capacity && Storable(rs)
    ensures exists reserved: bytes, trailing :: |reserved| == 4 && FileOf(b, rs, reserved, trailing)
  {
    hide GetU32, PutU32, LittleEndian, Body, ParseRecords, Storable;
    PutIs(1);
    PutIs(|rs|);
    GetThenPut(b, 8);
    GetThenPut(b, 12);
    ParsedIsPrinted(b, HEADER_SIZE, GetU32(b, 12));
    CutUp(b, |Body(rs)|);
    assert FileOf(b, rs, b[16..20], b[HEADER_SIZE + |Body(rs)|..]);
  }

  lemma PutIs(v: uint32)
    ensures PutU32(v) == LittleEndian(v)
  {
  }

  lemma CutUp(b: bytes, n: nat)
    requires 20 + n <= |b|
    ensures b == b[..8] + b[8..12] + b[12..16] + b[16..20] + b[20..20 + n] + b[20 + n..]
  {
  }

  lemma FileParses(b: bytes, capacity: nat, rs: seq<Record>, reserved: bytes, trailing: bytes)
    requires capacity < 4294967296 && |reserved| == 4 && FileOf(b, rs, reserved, trailing) && |rs| <= capacity
    ensures ParseFile(b, capacity) == Some(rs)
  {
    hide PutU32, LittleEndian, GetU32, Body, ParseRecords;
    PutIs(1);
    PutIs(|rs|);
    var magic: bytes := [77, 81, 80, 81, 85, 69, 85, 69];
    HeaderReads(b, magic, PutU32(|rs|), reserved, Body(rs), trailing);
    PutThenGet(1, magic, PutU32(|rs|) + reserved + (Body(rs) + trailing));
    PutThenGet(|rs|, magic + PutU32(1), reserved + (Body(rs) + trailing));
    BodyRoundTrip(magic + PutU32(1) + PutU32(|rs|) + reserved, rs, trailing);
  }

  /** One file, cut up in the ways the fields are read. */
  lemma HeaderReads(b: bytes, magic: bytes, count: bytes, reserved: bytes, body: bytes, trailing: bytes)
    requires b == magic + PutU32(1) + count + reserved + body + trailing
    requires |magic| == 8
    ensures b[..8] == magic
    ensures b == magic + PutU32(1) + (count + reserved + (body + trailing))
    ensures b == (magic + PutU32(1)) + count + (reserved + (body + trailing))
    ensures b == (magic + PutU32(1) + count + reserved) + (body + trailing)
  {
    hide PutU32;
  }
}
