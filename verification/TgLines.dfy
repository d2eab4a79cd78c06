/** Lines of a telegram: how a body splits into them, and how the decoder's cursor
    reads them. */
module TgLines {
  import opened Bytes

  // ---------------------------------------------------------------------
  // Splitting
  // ---------------------------------------------------------------------

  /** The first position of b, or |s|. */
  function Find(s: bytes, b: byte): (i: nat)
    ensures i <= |s|
    ensures i < |s| ==> s[i] == b
    ensures forall j :: 0 <= j < i ==> s[j] != b
    ensures b in s <==> i < |s|
  {
    if s == [] then 0 else if s[0] == b then 0 else 1 + Find(s[1..], b)
  }

  /** The lines of a body; there is always a last one, which may be empty. */
  function Lines(s: bytes): (ls: seq<bytes>)
    ensures 0 < |ls|
    decreases |s|
  {
    var i := Find(s, LF);
    if i == |s| then [s] else [s[..i]] + Lines(s[i + 1..])
  }

  lemma LinesCons(l: bytes, rest: bytes)
    requires LF !in l
    ensures Lines(l + [LF] + rest) == [l] + Lines(rest)
  {
    var s := l + [LF] + rest;
    var i := Find(s, LF);
    assert s[|l|] == LF;
    assert forall j :: 0 <= j < |l| ==> s[j] == l[j];
    assert i == |l|;
    assert s[..i] == l && s[i + 1..] == rest;
  }

  lemma LinesLast(l: bytes)
    requires LF !in l
    ensures Lines(l) == [l]
  {
  }

  lemma LinesUnfold(s: bytes)
    ensures var i := Find(s, LF);
            Lines(s) == if i == |s| then [s] else [s[..i]] + Lines(s[i + 1..])
  {
    hide Find;
  }

  /** Every body is one line, or a line, LF and a shorter body. */
  lemma LinesCases(s: bytes)
    ensures var i := Find(s, LF);
            if i == |s| then LF !in s && Lines(s) == [s]
            else LF !in s[..i] && s == s[..i] + [LF] + s[i + 1..] && Lines(s) == [s[..i]] + Lines(s[i + 1..])
  {
    LinesUnfold(s);
    hide Lines;
    var i := Find(s, LF);
    if i < |s| {
      SplitAt(s, i);
      var l := s[..i];
      assert forall j :: 0 <= j < |l| ==> l[j] == s[j];
    }
  }

  // ---------------------------------------------------------------------
  // Reading
  // ---------------------------------------------------------------------

  predicate Ends(b: byte) {
    b == LF || b == CR
  }

  /** Where the line that starts at pos ends. */
  function LineEnd(d: bytes, pos: nat): (e: nat)
    requires pos <= |d|
    ensures pos <= e <= |d|
    ensures e < |d| ==> Ends(d[e])
    ensures forall j :: pos <= j < e ==> !Ends(d[j])
    decreases |d| - pos
  {
    if pos < |d| && !Ends(d[pos]) then LineEnd(d, pos + 1) else pos
  }

  /** One CR and one LF, if they come in this order, end a line. */
  function SkipEnd(d: bytes, e: nat): (n: nat)
    requires e <= |d|
    ensures e <= n <= |d|
    ensures e < |d| && Ends(d[e]) ==> e < n
  {
    var e1 := if e < |d| && d[e] == CR then e + 1 else e;
    if e1 < |d| && d[e1] == LF then e1 + 1 else e1
  }

  /** The C string at the start of a buffer: up to the first NUL. */
  function CStr(s: bytes): (c: bytes)
    ensures |c| <= |s| && NUL !in c
  {
    s[..Find(s, NUL)]
  }

  function Cut(s: bytes, n: nat): bytes {
    if |s| <= n then s else s[..n]
  }

  /** A line as read into a buffer of the given size: the C string it holds, whether
      it fitted, and the position behind it. */
  datatype Line = Line(text: bytes, complete: bool, next: nat)

  function ReadLine(d: bytes, pos: nat, size: nat): (r: Option<Line>)
    requires pos <= |d|
    ensures r.Some? ==> pos < r.value.next <= |d|
  {
    if pos >= |d| || size == 0 then None
    else
      var e := LineEnd(d, pos);
      Some(Line(CStr(Cut(d[pos..e], size - 1)), e - pos <= size - 1, SkipEnd(d, e)))
  }

  /** Up to an LF the line comes back as it stands, cut to the buffer. */
  lemma ReadsLine(pre: bytes, l: bytes, rest: bytes, size: nat)
    requires 0 < size && LF !in l && CR !in l && NUL !in l
    ensures ReadLine(pre + l + [LF] + rest, |pre|, size)
         == Some(Line(Cut(l, size - 1), |l| <= size - 1, |pre| + |l| + 1))
  {
    var d := pre + l + [LF] + rest;
    LineEndAt(pre, l, rest, 0);
    assert d[|pre|..|pre| + |l|] == l;
    assert d[|pre| + |l|] == LF;
    assert NUL !in Cut(l, size - 1);
    assert CStr(Cut(l, size - 1)) == Cut(l, size - 1);
  }

  lemma {:induction false} LineEndAt(pre: bytes, l: bytes, rest: bytes, i: nat)
    requires LF !in l && CR !in l && i <= |l|
    ensures LineEnd(pre + l + [LF] + rest, |pre| + i) == |pre| + |l|
    decreases |l| - i
  {
    var d := pre + l + [LF] + rest;
    if i < |l| {
      assert d[|pre| + i] == l[i];
      LineEndAt(pre, l, rest, i + 1);
    } else {
      assert d[|pre| + i] == LF;
    }
  }

  /** Whatever is read as a line holds no separator and no NUL, and fits the buffer. */
  lemma ReadIsPlain(d: bytes, pos: nat, size: nat)
    requires pos <= |d| && ReadLine(d, pos, size).Some?
    ensures var l := ReadLine(d, pos, size).value.text;
            LF !in l && CR !in l && NUL !in l && |l| < size
  {
    var e := LineEnd(d, pos);
    var raw := d[pos..e];
    assert forall i :: 0 <= i < |raw| ==> raw[i] == d[pos + i];
  }

  // ---------------------------------------------------------------------
  // The cursor
  // ---------------------------------------------------------------------

  /** A cursor over a received record. */
  class TgCursor {
    const data: bytes
    var pos: nat

    predicate Valid()
      reads this
    {
      pos <= |data|
    }

    constructor (raw: bytes)
      ensures Valid() && data == raw && pos == 0
    {
      data, pos := raw, 0;
    }

    /** Copies what fits of the current line to the start of dst. */
    method CopyText(dst: array<byte>) returns (i: nat, truncated: bool)
      requires Valid() && 0 < dst.Length
      modifies this, dst
      ensures Valid() && pos == LineEnd(data, old(pos))
      ensures i < dst.Length && dst[..i] == Cut(data[old(pos)..pos], dst.Length - 1)
      ensures truncated <==> pos - old(pos) > dst.Length - 1
    {
      i, truncated := 0, false;
      while pos < |data| && data[pos] != LF && data[pos] != CR
        invariant old(pos) <= pos <= |data| && LineEnd(data, old(pos)) == LineEnd(data, pos)
        invariant truncated <==> pos - old(pos) > dst.Length - 1
        invariant i == if truncated then dst.Length - 1 else pos - old(pos)
        invariant forall j :: 0 <= j < i ==> dst[j] == data[old(pos) + j]
        decreases |data| - pos
      {
        if i + 1 < dst.Length {
          dst[i] := data[pos];
          i := i + 1;
        } else {
          truncated := true;
        }
        pos := pos + 1;
      }
      ghost var raw := data[old(pos)..pos];
      assert forall j :: 0 <= j < i ==> dst[j] == raw[j];
      assert dst[..i] == raw[..i];
      assert !truncated ==> raw[..i] == raw;
    }

    /** Reads the next line into dst, which then holds a C string. */
    method NextLine(dst: array<byte>) returns (ok: bool, complete: bool)
      requires Valid()
      modifies this, dst
      ensures Valid()
      ensures var r := ReadLine(data, old(pos), dst.Length);
              ok == r.Some? &&
              (ok ==> complete == r.value.complete && pos == r.value.next) &&
              (ok ==> NUL in dst[..] && CStr(dst[..]) == r.value.text) &&
              (!ok ==> pos == old(pos) && dst[..] == old(dst[..]))
    {
      hide LineEnd, CStr;
      if pos >= |data| || dst.Length == 0 {
        return false, false;
      }
      var i, truncated := CopyText(dst);
      ghost var text := dst[..i];
      dst[i] := NUL;
      assert dst[..][..i] == text && dst[..][i] == NUL;
      CStrPrefix(dst[..], i);
      if pos < |data| && data[pos] == CR {
        pos := pos + 1;
      }
      if pos < |data| && data[pos] == LF {
        pos := pos + 1;
      }
      return true, !truncated;
    }
  }

  lemma CStrPrefix(s: bytes, i: nat)
    requires i < |s| && s[i] == NUL
    ensures CStr(s) == CStr(s[..i])
  {
    var t := s[..i];
    var j, k := Find(s, NUL), Find(t, NUL);
    assert k < i ==> s[k] == t[k];
    assert j < i ==> t[j] == s[j];
  }
}
