/** app/core/parser/doc_parser.py: the text of a Word 97 document, collected piece by piece.
    Text is counted in UTF-16 code units; `codec` maps a byte of a single-byte code page to its unit. */
module PieceTable {
  import opened Wrappers
  import opened DocParser

  type byte = b: int | 0 <= b < 256

  type Codec = byte -> nat

  datatype DocError =
    | MissingField | ClxOutside | TruncatedPrc | TruncatedPcdt | UnknownRecord
    | MalformedPlc | PieceCount | Unordered | PieceOutside | IllFormedUtf16

  const MAX_PIECES := 100_000

  // ----- little-endian fields -----

  function U16(data: seq<byte>, at: nat): nat
    requires at + 2 <= |data|
  {
    data[at] as nat + data[at + 1] as nat * 0x100
  }

  function U32(data: seq<byte>, at: nat): nat
    requires at + 4 <= |data|
  {
    U16(data, at) + 0x1_0000 * U16(data, at + 2)
  }

  function ReadU16(data: seq<byte>, offset: int): Result<nat, DocError> {
    if offset < 0 || offset + 2 > |data| then Err(MissingField) else Ok(U16(data, offset))
  }

  function ReadU32(data: seq<byte>, offset: int): Result<nat, DocError> {
    if offset < 0 || offset + 4 > |data| then Err(MissingField) else Ok(U32(data, offset))
  }

  function Bytes16(n: nat): (r: seq<byte>)
    requires n < 0x1_0000
    ensures |r| == 2
  {
    [n % 0x100, n / 0x100]
  }

  function Bytes32(n: nat): (r: seq<byte>)
    requires n < 0x1_0000_0000
    ensures |r| == 4
  {
    Bytes16(n % 0x1_0000) + Bytes16(n / 0x1_0000)
  }

  // ----- the CLX -----

  /** The piece table inside a CLX from some record on: property modifiers are skipped. */
  function FindPcdt(clx: seq<byte>, offset: nat): Result<seq<byte>, DocError>
    decreases |clx| - offset
  {
    if offset >= |clx| then Err(MalformedPlc)
    else if clx[offset] == 1 then
      match ReadU16(clx, offset + 1)
      case Err(e) => Err(e)
      case Ok(size) => if offset + 3 + size > |clx| then Err(TruncatedPrc) else FindPcdt(clx, offset + 3 + size)
    else if clx[offset] == 2 then
      match ReadU32(clx, offset + 1)
      case Err(e) => Err(e)
      case Ok(size) => if offset + 5 + size > |clx| then Err(TruncatedPcdt) else Ok(clx[offset + 5..offset + 5 + size])
    else Err(UnknownRecord)
  }

  /** The format: any number of Prc records, one Pcdt, and whatever follows. */
  function ClxOf(prcs: seq<seq<byte>>, plc: seq<byte>, rest: seq<byte>): seq<byte>
    requires |plc| < 0x1_0000_0000 && forall i | 0 <= i < |prcs| :: |prcs[i]| < 0x1_0000
  {
    if prcs == [] then [2] + Bytes32(|plc|) + plc + rest
    else [1] + Bytes16(|prcs[0]|) + (prcs[0] + ClxOf(prcs[1..], plc, rest))
  }

  lemma {:induction false} FindsWrittenPcdt(front: seq<byte>, prcs: seq<seq<byte>>, plc: seq<byte>, rest: seq<byte>)
    requires |plc| < 0x1_0000_0000 && forall i | 0 <= i < |prcs| :: |prcs[i]| < 0x1_0000
    ensures FindPcdt(front + ClxOf(prcs, plc, rest), |front|) == Ok(plc)
    decreases |prcs|
  {
    var clx := front + ClxOf(prcs, plc, rest);
    if prcs == [] {
      PcdtAt(clx, front, plc, rest);
    } else {
      hide FindPcdt, Bytes16;
      var head := [1] + Bytes16(|prcs[0]|) + prcs[0];
      var tail := ClxOf(prcs[1..], plc, rest);
      PrcAt(clx, front, prcs[0], tail);
      FindsWrittenPcdt(front + head, prcs[1..], plc, rest);
      assert clx == front + head + tail;
    }
  }

  lemma Field16(n: nat, data: seq<byte>, at: nat)
    requires at + 2 <= |data|
    ensures n < 0x1_0000 && data[at..at + 2] == Bytes16(n) <==> U16(data, at) == n
  {
    assert data[at..at + 2] == [data[at], data[at + 1]];
  }

  lemma Field32(n: nat, data: seq<byte>, at: nat)
    requires at + 4 <= |data|
    ensures n < 0x1_0000_0000 && data[at..at + 4] == Bytes32(n) <==> U32(data, at) == n
  {
    hide U16, Bytes16;
    assert data[at..at + 4] == data[at..at + 2] + data[at + 2..at + 4];
    if n < 0x1_0000_0000 {
      Field16(n % 0x1_0000, data, at);
      Field16(n / 0x1_0000, data, at + 2);
      if data[at..at + 4] == Bytes32(n) {
        assert data[at..at + 2] == data[at..at + 4][..2] == Bytes16(n % 0x1_0000);
        assert data[at + 2..at + 4] == data[at..at + 4][2..] == Bytes16(n / 0x1_0000);
      }
    }
    U16Bound(data, at);
    U16Bound(data, at + 2);
  }

  lemma U16Bound(data: seq<byte>, at: nat)
    requires at + 2 <= |data|
    ensures U16(data, at) < 0x1_0000
  {
  }

  lemma PcdtAt(clx: seq<byte>, front: seq<byte>, plc: seq<byte>, rest: seq<byte>)
    requires |plc| < 0x1_0000_0000 && clx == front + ([2] + Bytes32(|plc|) + plc + rest)
    ensures FindPcdt(clx, |front|) == Ok(plc)
  {
    hide U32, Bytes32;
    var at := |front|;
    assert clx[at] == 2 && clx[at + 1..at + 5] == Bytes32(|plc|);
    Field32(|plc|, clx, at + 1);
    assert clx[at + 5..at + 5 + |plc|] == plc;
  }

  lemma PrcAt(clx: seq<byte>, front: seq<byte>, prc: seq<byte>, tail: seq<byte>)
    requires |prc| < 0x1_0000 && clx == front + ([1] + Bytes16(|prc|) + (prc + tail))
    ensures FindPcdt(clx, |front|) == FindPcdt(clx, |front| + 3 + |prc|)
  {
    hide U16, Bytes16, FindPcdt;
    var at := |front|;
    MarkerAndField(front, 1, Bytes16(|prc|), prc + tail);
    Field16(|prc|, clx, at + 1);
    PrcSkipped(clx, at);
  }

  lemma MarkerAndField(front: seq<byte>, marker: byte, field: seq<byte>, tail: seq<byte>)
    ensures var data := front + ([marker] + field + tail);
            data[|front|] == marker && data[|front| + 1..|front| + 1 + |field|] == field
  {
    assert front + ([marker] + field + tail) == (front + [marker]) + field + tail;
  }

  lemma PrcSkipped(clx: seq<byte>, at: nat)
    requires at + 3 <= |clx| && clx[at] == 1 && at + 3 + U16(clx, at + 1) <= |clx|
    ensures FindPcdt(clx, at) == FindPcdt(clx, at + 3 + U16(clx, at + 1))
  {
    hide U16;
  }

  /** The scan accepts exactly the byte strings of the format, and returns their piece table. */
  lemma {:induction false} FoundPcdtWasWritten(clx: seq<byte>, offset: nat)
    returns (prcs: seq<seq<byte>>, rest: seq<byte>)
    requires offset <= |clx| && FindPcdt(clx, offset).Ok?
    ensures var plc := FindPcdt(clx, offset).value;
            && |plc| < 0x1_0000_0000 && (forall i | 0 <= i < |prcs| :: |prcs[i]| < 0x1_0000)
            && clx[offset..] == ClxOf(prcs, plc, rest)
    decreases |clx| - offset
  {
    hide U16, U32, Bytes16, Bytes32, ClxOf;
    if clx[offset] == 1 {
      var size := U16(clx, offset + 1);
      var next := offset + 3 + size;
      prcs, rest := FoundPcdtWasWritten(clx, next);
      var prc := clx[offset + 3..next];
      Field16(size, clx, offset + 1);
      Pieces(clx, offset, 3, size);
      PrcFirst(prc, prcs, FindPcdt(clx, offset).value, rest);
      prcs := [prc] + prcs;
    } else {
      var size := U32(clx, offset + 1);
      prcs, rest := [], clx[offset + 5 + size..];
      Field32(size, clx, offset + 1);
      OnlyPcdt(clx[offset + 5..offset + 5 + size], rest);
      Pieces(clx, offset, 5, size);
    }
  }

  lemma Pieces(clx: seq<byte>, offset: nat, header: nat, size: nat)
    requires 0 < header && offset + header + size <= |clx|
    ensures clx[offset..] == [clx[offset]] + clx[offset + 1..offset + header]
                             + clx[offset + header..offset + header + size] + clx[offset + header + size..]
  {
  }

  lemma OnlyPcdt(plc: seq<byte>, rest: seq<byte>)
    requires |plc| < 0x1_0000_0000
    ensures ClxOf([], plc, rest) == [2] + Bytes32(|plc|) + plc + rest
  {
  }

  lemma PrcFirst(prc: seq<byte>, prcs: seq<seq<byte>>, plc: seq<byte>, rest: seq<byte>)
    requires |prc| < 0x1_0000 && |plc| < 0x1_0000_0000 && forall i | 0 <= i < |prcs| :: |prcs[i]| < 0x1_0000
    ensures ClxOf([prc] + prcs, plc, rest) == [1] + Bytes16(|prc|) + (prc + ClxOf(prcs, plc, rest))
  {
    assert ([prc] + prcs)[1..] == prcs;
  }

  method ScanClx(clx: seq<byte>) returns (r: Result<seq<byte>, DocError>)
    ensures r == FindPcdt(clx, 0)
  {
    var offset := 0;
    while offset < |clx|
      invariant FindPcdt(clx, 0) == FindPcdt(clx, offset)
      decreases |clx| - offset
    {
      var marker := clx[offset];
      if marker == 0x01 {
        var size := ReadU16(clx, offset + 1);
        if size.Err? {
          return Err(size.error);
        }
        if offset + 3 + size.value > |clx| {
          return Err(TruncatedPrc);
        }
        offset := offset + 3 + size.value;
      } else if marker == 0x02 {
        var size := ReadU32(clx, offset + 1);
        if size.Err? {
          return Err(size.error);
        }
        var start := offset + 5;
        if start + size.value > |clx| {
          return Err(TruncatedPcdt);
        }
        return Ok(clx[start..start + size.value]);
      } else {
        return Err(UnknownRecord);
      }
    }
    return Err(MalformedPlc);
  }

  // ----- the piece table -----

  /** aCP and the fc fields of aPcd. */
  datatype Table = Table(cps: seq<nat>, fcs: seq<nat>)

  ghost predicate ValidTable(t: Table) {
    && 0 < |t.fcs| <= MAX_PIECES && |t.cps| == |t.fcs| + 1
    && forall i, j | 0 <= i <= j < |t.cps| :: t.cps[i] <= t.cps[j]
  }

  predicate Compressed(fc: nat) {
    fc / 0x4000_0000 % 2 == 1
  }

  function FileOffset(fc: nat): nat {
    if Compressed(fc) then fc % 0x4000_0000 / 2 else fc % 0x4000_0000
  }

  /** How many bytes n characters of the piece take. */
  function Span(fc: nat, n: nat): nat {
    if Compressed(fc) then n else 2 * n
  }

  // ----- reference: one character at a time -----

  /** The largest i such that aCP[i] <= cp. */
  function PieceAt(cps: seq<nat>, cp: nat): nat
    requires cps != []
  {
    if |cps| == 1 || cps[|cps| - 1] <= cp then |cps| - 1 else PieceAt(cps[..|cps| - 1], cp)
  }

  function UnitAt(word: seq<byte>, fc: nat, at: nat, codec: Codec): nat
    requires at + Span(fc, 1) <= |word|
  {
    if Compressed(fc) then codec(word[at]) else U16(word, at)
  }

  /** The character at position cp alone, by the retrieval algorithm of [MS-DOC] section 2.4.1. */
  function Lookup(word: seq<byte>, t: Table, cp: nat, codec: Codec): Option<nat>
    requires |t.cps| == |t.fcs| + 1
  {
    var i := PieceAt(t.cps, cp);
    if i >= |t.fcs| || cp < t.cps[i] then None
    else
      var at := FileOffset(t.fcs[i]) + Span(t.fcs[i], cp - t.cps[i]);
      if at + Span(t.fcs[i], 1) > |word| then None else Some(UnitAt(word, t.fcs[i], at, codec))
  }

  lemma {:induction false} PieceAtIs(cps: seq<nat>, cp: nat, i: nat)
    requires i < |cps| && cps[i] <= cp && forall j | i < j < |cps| :: cp < cps[j]
    ensures PieceAt(cps, cp) == i
  {
    if i < |cps| - 1 {
      assert cp < cps[|cps| - 1];
      PieceAtIs(cps[..|cps| - 1], cp, i);
    }
  }

  // ----- which pieces are read, and how far -----

  function DocumentEnd(t: Table, ccpText: nat): nat
    requires t.cps != []
  {
    if ccpText > 0 then ccpText else t.cps[|t.cps| - 1]
  }

  /** No position from here on is read. */
  function Limit(t: Table, ccpText: nat): nat
    requires t.cps != []
  {
    Min(DocumentEnd(t, ccpText), t.cps[0] + MAX_EXTRACTED_CHARS)
  }

  function Stop(t: Table, ccpText: nat, i: nat): nat
    requires i + 1 < |t.cps|
  {
    Min(t.cps[i + 1], Limit(t, ccpText))
  }

  /** How many characters lie before the i-th position of aCP, within the limit. */
  function Covered(t: Table, ccpText: nat, i: nat): nat
    requires i < |t.cps|
  {
    var end := Min(t.cps[i], Limit(t, ccpText));
    if end > t.cps[0] then end - t.cps[0] else 0
  }

  predicate High(unit: nat) { 0xD800 <= unit < 0xDC00 }

  predicate Low(unit: nat) { 0xDC00 <= unit < 0xE000 }

  /** Every surrogate is half of a pair. */
  predicate WellFormed16(units: seq<nat>) {
    units == []
    || (if High(units[0]) then |units| >= 2 && Low(units[1]) && WellFormed16(units[2..])
        else !Low(units[0]) && WellFormed16(units[1..]))
  }

  function DecodeBytes(raw: seq<byte>, codec: Codec): (r: seq<nat>)
    ensures |r| == |raw| && forall k | 0 <= k < |r| :: r[k] == codec(raw[k])
  {
    if raw == [] then [] else DecodeBytes(raw[..|raw| - 1], codec) + [codec(raw[|raw| - 1])]
  }

  function Decode16(raw: seq<byte>, n: nat): (r: seq<nat>)
    requires 2 * n <= |raw|
    ensures |r| == n && forall k | 0 <= k < n :: r[k] == U16(raw, 2 * k)
  {
    if n == 0 then [] else Decode16(raw, n - 1) + [U16(raw, 2 * n - 2)]
  }

  function DecodePiece(raw: seq<byte>, compressed: bool, codec: Codec): (r: seq<nat>)
    ensures |r| == if compressed then |raw| else |raw| / 2
  {
    if compressed then DecodeBytes(raw, codec) else Decode16(raw, |raw| / 2)
  }

  predicate InBounds(word: seq<byte>, t: Table, ccpText: nat, i: nat)
    requires i < |t.fcs| && |t.cps| == |t.fcs| + 1 && t.cps[i] <= Stop(t, ccpText, i)
  {
    FileOffset(t.fcs[i]) + Span(t.fcs[i], Stop(t, ccpText, i) - t.cps[i]) <= |word|
  }

  function Slice(word: seq<byte>, t: Table, ccpText: nat, i: nat): (r: seq<byte>)
    requires i < |t.fcs| && |t.cps| == |t.fcs| + 1 && t.cps[i] <= Stop(t, ccpText, i) && InBounds(word, t, ccpText, i)
    ensures |r| == Span(t.fcs[i], Stop(t, ccpText, i) - t.cps[i])
  {
    var start := FileOffset(t.fcs[i]);
    word[start..start + Span(t.fcs[i], Stop(t, ccpText, i) - t.cps[i])]
  }

  /** Why piece i cannot be read, if it is needed at all. */
  function PieceError(word: seq<byte>, t: Table, ccpText: nat, i: nat, codec: Codec): Option<DocError>
    requires i < |t.fcs| && |t.cps| == |t.fcs| + 1
  {
    if Stop(t, ccpText, i) <= t.cps[i] then None
    else if !InBounds(word, t, ccpText, i) then Some(PieceOutside)
    else
      var raw := Slice(word, t, ccpText, i);
      var compressed := Compressed(t.fcs[i]);
      if !compressed && !WellFormed16(DecodePiece(raw, compressed, codec)) then Some(IllFormedUtf16) else None
  }

  /** The text is what looking up each position of the covered range alone gives. */
  ghost predicate RandomAccess(units: seq<nat>, word: seq<byte>, t: Table, codec: Codec)
    requires |t.cps| == |t.fcs| + 1
  {
    forall k: nat | k < |units| :: Lookup(word, t, t.cps[0] + k, codec) == Some(units[k])
  }

  /** Success if no needed piece is unreadable, with the covered range looked up one by one; else the error
      of the first unreadable piece. */
  ghost predicate Extracts(r: Result<seq<nat>, DocError>, word: seq<byte>, t: Table, ccpText: nat, codec: Codec)
    requires ValidTable(t)
  {
    match r
    case Ok(units) =>
      && (forall i | 0 <= i < |t.fcs| :: PieceError(word, t, ccpText, i, codec) == None)
      && |units| == Covered(t, ccpText, |t.fcs|) <= MAX_EXTRACTED_CHARS
      && RandomAccess(units, word, t, codec)
    case Err(e) =>
      exists i ::
        && 0 <= i < |t.fcs| && PieceError(word, t, ccpText, i, codec) == Some(e)
        && forall j | 0 <= j < i :: PieceError(word, t, ccpText, j, codec) == None
  }

  lemma UnitOfSlice(word: seq<byte>, fc: nat, start: nat, n: nat, k: nat, codec: Codec)
    requires k < n && start + Span(fc, n) <= |word|
    ensures DecodePiece(word[start..start + Span(fc, n)], Compressed(fc), codec)[k]
            == UnitAt(word, fc, start + Span(fc, k), codec)
  {
    hide Compressed;
    var raw := word[start..start + Span(fc, n)];
    if Compressed(fc) {
      assert raw[k] == word[start + k];
    } else {
      assert raw[2 * k] == word[start + 2 * k] && raw[2 * k + 1] == word[start + 2 * k + 1];
    }
  }

  lemma LookupInPiece(word: seq<byte>, t: Table, i: nat, d: nat, codec: Codec)
    requires ValidTable(t) && i < |t.fcs| && t.cps[i] + d < t.cps[i + 1]
    requires FileOffset(t.fcs[i]) + Span(t.fcs[i], d) + Span(t.fcs[i], 1) <= |word|
    ensures Lookup(word, t, t.cps[i] + d, codec)
            == Some(UnitAt(word, t.fcs[i], FileOffset(t.fcs[i]) + Span(t.fcs[i], d), codec))
  {
    hide Compressed, FileOffset, PieceAt, UnitAt, Span;
    PieceAtIs(t.cps, t.cps[i] + d, i);
  }

  lemma UnitInPiece(word: seq<byte>, t: Table, ccpText: nat, i: nat, d: nat, codec: Codec)
    requires ValidTable(t) && i < |t.fcs| && t.cps[i] + d < Stop(t, ccpText, i) && InBounds(word, t, ccpText, i)
    ensures Lookup(word, t, t.cps[i] + d, codec)
            == Some(DecodePiece(Slice(word, t, ccpText, i), Compressed(t.fcs[i]), codec)[d])
  {
    hide Compressed, FileOffset, UnitAt, Limit, Lookup, DecodePiece;
    LookupInPiece(word, t, i, d, codec);
    UnitOfSlice(word, t.fcs[i], FileOffset(t.fcs[i]), Stop(t, ccpText, i) - t.cps[i], d, codec);
  }

  lemma RandomAccessGrows(units: seq<nat>, more: seq<nat>, word: seq<byte>, t: Table, codec: Codec)
    requires |t.cps| == |t.fcs| + 1 && RandomAccess(units, word, t, codec)
    requires forall d: nat | d < |more| :: Lookup(word, t, t.cps[0] + |units| + d, codec) == Some(more[d])
    ensures RandomAccess(units + more, word, t, codec)
  {
    hide Lookup;
    var all := units + more;
    forall k: nat | k < |all| ensures Lookup(word, t, t.cps[0] + k, codec) == Some(all[k]) {
      if k >= |units| {
        var d: nat := k - |units|;
        assert all[k] == more[d] && t.cps[0] + |units| + d == t.cps[0] + k;
      }
    }
  }

  lemma PieceIsRandomAccess(units: seq<nat>, word: seq<byte>, t: Table, ccpText: nat, i: nat, codec: Codec)
    requires ValidTable(t) && i < |t.fcs| && t.cps[i] < Stop(t, ccpText, i) && InBounds(word, t, ccpText, i)
    requires RandomAccess(units, word, t, codec) && |units| == t.cps[i] - t.cps[0]
    ensures var compressed := Compressed(t.fcs[i]);
            RandomAccess(units + DecodePiece(Slice(word, t, ccpText, i), compressed, codec), word, t, codec)
  {
    hide Compressed, FileOffset, Limit, Lookup, RandomAccess, DecodePiece;
    var more := DecodePiece(Slice(word, t, ccpText, i), Compressed(t.fcs[i]), codec);
    forall d: nat | d < |more| ensures Lookup(word, t, t.cps[0] + |units| + d, codec) == Some(more[d]) {
      assert t.cps[0] + |units| + d == t.cps[i] + d;
      UnitInPiece(word, t, ccpText, i, d, codec);
    }
    RandomAccessGrows(units, more, word, t, codec);
  }

  lemma StartsEmpty(word: seq<byte>, t: Table, codec: Codec)
    requires |t.cps| == |t.fcs| + 1
    ensures RandomAccess([], word, t, codec)
  {
  }

  method ReadPieces(word: seq<byte>, t: Table, ccpText: nat, codec: Codec) returns (r: Result<seq<nat>, DocError>)
    requires ValidTable(t)
    ensures Extracts(r, word, t, ccpText, codec)
  {
    hide Compressed, FileOffset, DecodePiece, WellFormed16, RandomAccess;
    var documentEnd := if ccpText > 0 then ccpText else t.cps[|t.cps| - 1];
    StartsEmpty(word, t, codec);
    var chunks: seq<nat> := [];
    var extracted := 0;
    for i := 0 to |t.fcs|
      invariant extracted == |chunks| == Covered(t, ccpText, i)
      invariant RandomAccess(chunks, word, t, codec)
      invariant forall j | 0 <= j < i :: PieceError(word, t, ccpText, j, codec) == None
    {
      var cpStart := t.cps[i];
      var cpEnd := Min(t.cps[i + 1], documentEnd);
      if cpEnd <= cpStart || extracted >= MAX_EXTRACTED_CHARS {
        continue;
      }
      var fc := t.fcs[i];
      var charsToRead := Min(cpEnd - cpStart, MAX_EXTRACTED_CHARS - extracted);
      var pieceStart := FileOffset(fc);
      var pieceEnd := pieceStart + Span(fc, charsToRead);
      assert cpStart + charsToRead == Stop(t, ccpText, i);
      if pieceEnd > |word| {
        assert PieceError(word, t, ccpText, i, codec) == Some(PieceOutside);
        return Err(PieceOutside);
      }
      var units := DecodePiece(word[pieceStart..pieceEnd], Compressed(fc), codec);
      if !Compressed(fc) && !WellFormed16(units) {
        assert PieceError(word, t, ccpText, i, codec) == Some(IllFormedUtf16);
        return Err(IllFormedUtf16);
      }
      PieceIsRandomAccess(chunks, word, t, ccpText, i, codec);
      chunks := chunks + units;
      extracted := extracted + charsToRead;
    }
    return Ok(chunks);
  }

  /** Text that ends in a high surrogate is ill-formed, whatever it was cut from. */
  lemma {:induction false} SplitPairIsRefused(units: seq<nat>)
    requires units != [] && High(units[|units| - 1])
    ensures !WellFormed16(units)
  {
    if High(units[0]) {
      if |units| > 2 {
        SplitPairIsRefused(units[2..]);
      }
    } else {
      SplitPairIsRefused(units[1..]);
    }
  }

  // ----- the whole extraction -----

  function CpAt(plc: seq<byte>, i: nat): nat
    requires 4 * i + 4 <= |plc|
  {
    U32(plc, 4 * i)
  }

  function FcAt(plc: seq<byte>, n: nat, i: nat): nat
    requires |plc| == 4 + 12 * n && i < n
  {
    U32(plc, 4 * (n + 1) + 8 * i + 2)
  }

  ghost predicate Holds(t: Table, plc: seq<byte>) {
    && |plc| == 4 + 12 * |t.fcs| && |t.cps| == |t.fcs| + 1
    && (forall i | 0 <= i < |t.cps| :: t.cps[i] == CpAt(plc, i))
    && (forall i | 0 <= i < |t.fcs| :: t.fcs[i] == FcAt(plc, |t.fcs|, i))
  }

  /** What is wrong with a PlcPcd, in the order of the checks. */
  function PlcError(plc: seq<byte>): Option<DocError> {
    if |plc| < 4 || |plc| % 12 != 4 then Some(MalformedPlc)
    else if !(0 < (|plc| - 4) / 12 <= MAX_PIECES) then Some(PieceCount)
    else if exists i | 0 <= i < (|plc| - 4) / 12 :: CpAt(plc, i + 1) < CpAt(plc, i) then Some(Unordered)
    else None
  }

  method ReadTable(plc: seq<byte>) returns (r: Result<Table, DocError>)
    ensures match PlcError(plc)
            case Some(e) => r == Err(e)
            case None => r.Ok? && Holds(r.value, plc) && ValidTable(r.value)
  {
    if |plc| < 4 || (|plc| - 4) % 12 != 0 {
      return Err(MalformedPlc);
    }
    var n := (|plc| - 4) / 12;
    if n <= 0 || n > MAX_PIECES {
      return Err(PieceCount);
    }
    var cps: seq<nat> := [];
    for i := 0 to n + 1
      invariant |cps| == i && forall j | 0 <= j < i :: cps[j] == CpAt(plc, j)
    {
      cps := cps + [CpAt(plc, i)];
    }
    for i := 0 to n
      invariant forall j, k | 0 <= j <= k <= i :: cps[j] <= cps[k]
    {
      if cps[i + 1] < cps[i] {
        assert CpAt(plc, i + 1) < CpAt(plc, i);
        return Err(Unordered);
      }
    }
    var fcs: seq<nat> := [];
    for i := 0 to n
      invariant |fcs| == i && forall j | 0 <= j < i :: fcs[j] == FcAt(plc, n, j)
    {
      fcs := fcs + [FcAt(plc, n, i)];
    }
    return Ok(Table(cps, fcs));
  }

  /** What a whole extraction answers: the error of the first check that fails, or what the pieces give. */
  ghost predicate Extraction(r: Result<seq<nat>, DocError>, t: Table, word: seq<byte>, table: seq<byte>,
                             fcClx: int, lcbClx: int, ccpText: nat, codec: Codec)
  {
    if lcbClx <= 0 || fcClx < 0 || fcClx + lcbClx > |table| then r == Err(ClxOutside)
    else match FindPcdt(table[fcClx..fcClx + lcbClx], 0)
         case Err(e) => r == Err(e)
         case Ok(plc) =>
           (match PlcError(plc)
            case Some(e) => r == Err(e)
            case None => Holds(t, plc) && ValidTable(t) && Extracts(r, word, t, ccpText, codec))
  }

  /** _extract_piece_table_text, up to the final cleaning of the text. */
  method ExtractPieceTableText(word: seq<byte>, table: seq<byte>, fcClx: int, lcbClx: int, ccpText: nat, codec: Codec)
    returns (r: Result<seq<nat>, DocError>, t: Table)
    ensures Extraction(r, t, word, table, fcClx, lcbClx, ccpText, codec)
  {
    t := Table([], []);
    if lcbClx <= 0 || fcClx < 0 || fcClx + lcbClx > |table| {
      return Err(ClxOutside), t;
    }
    var plc := ScanClx(table[fcClx..fcClx + lcbClx]);
    if plc.Err? {
      return Err(plc.error), t;
    }
    var parsed := ReadTable(plc.value);
    if parsed.Err? {
      return Err(parsed.error), t;
    }
    t := parsed.value;
    r := ReadPieces(word, t, ccpText, codec);
  }
}
