/** Writing Word 97 text and reading it back: runs of 8-bit and of UTF-16 text laid anywhere in a stream, a piece
    table that points at them as section 2.9.73 of [MS-DOC] says, and a table stream around it. */
module PieceWriting {
  import opened Wrappers
  import opened PieceTable
  import opened PieceCut

  /** A run of text at a byte offset of the document stream. */
  datatype Run = Narrow(at: nat, bytes: seq<byte>) | Wide(at: nat, units: seq<nat>)

  function LengthOf(run: Run): nat {
    if run.Narrow? then |run.bytes| else |run.units|
  }

  /** The run stands in the stream, and its text is well-formed. */
  predicate Laid(word: seq<byte>, run: Run) {
    match run
    case Narrow(at, bytes) =>
      at < 0x2000_0000 && at + |bytes| <= |word| && forall k | 0 <= k < |bytes| :: word[at + k] == bytes[k]
    case Wide(at, units) =>
      && at < 0x4000_0000 && at + 2 * |units| <= |word| && WellFormed16(units)
      && forall k | 0 <= k < |units| :: word[at + 2 * k] as nat + 0x100 * word[at + 2 * k + 1] as nat == units[k]
  }

  /** The fc field: the compressed bit and twice the offset, or the offset. */
  function FcOf(run: Run): nat {
    if run.Narrow? then 0x4000_0000 + 2 * run.at else run.at
  }

  function CharsOf(bytes: seq<byte>, codec: Codec): (r: seq<nat>)
    ensures |r| == |bytes| && forall k | 0 <= k < |bytes| :: r[k] == codec(bytes[k])
  {
    if bytes == [] then [] else CharsOf(bytes[..|bytes| - 1], codec) + [codec(bytes[|bytes| - 1])]
  }

  function TextOf(run: Run, codec: Codec): (r: seq<nat>)
    ensures |r| == LengthOf(run)
  {
    if run.Narrow? then CharsOf(run.bytes, codec) else run.units
  }

  function Text(runs: seq<Run>, codec: Codec): seq<nat> {
    if runs == [] then [] else Text(runs[..|runs| - 1], codec) + TextOf(runs[|runs| - 1], codec)
  }

  function Total(runs: seq<Run>): nat {
    if runs == [] then 0 else Total(runs[..|runs| - 1]) + LengthOf(runs[|runs| - 1])
  }

  /** Where each run starts, and where the last one ends. */
  function Cps(runs: seq<Run>): (r: seq<nat>)
    ensures |r| == |runs| + 1 && r[|runs|] == Total(runs) && r[0] == 0
  {
    if runs == [] then [0] else Cps(runs[..|runs| - 1]) + [Total(runs)]
  }

  function Fcs(runs: seq<Run>): (r: seq<nat>)
    ensures |r| == |runs| && forall i | 0 <= i < |runs| :: r[i] == FcOf(runs[i])
  {
    if runs == [] then [] else Fcs(runs[..|runs| - 1]) + [FcOf(runs[|runs| - 1])]
  }

  function WrittenTable(runs: seq<Run>): Table {
    Table(Cps(runs), Fcs(runs))
  }

  // ----- positions -----

  lemma {:induction false} CpsAre(runs: seq<Run>, i: nat)
    requires i <= |runs|
    ensures Cps(runs)[i] == Total(runs[..i])
    ensures i < |runs| ==> Cps(runs)[i + 1] == Cps(runs)[i] + LengthOf(runs[i])
  {
    if i < |runs| {
      var rest := runs[..|runs| - 1];
      if i < |rest| {
        CpsAre(rest, i);
        assert rest[..i] == runs[..i];
      } else {
        assert runs[..i] == rest;
      }
    } else {
      assert runs[..i] == runs;
    }
  }

  lemma {:induction false} CpsRise(runs: seq<Run>, i: nat, j: nat)
    requires i <= j <= |runs|
    ensures Cps(runs)[i] <= Cps(runs)[j]
    decreases j - i
  {
    if i < j {
      CpsAre(runs, i);
      CpsRise(runs, i + 1, j);
    }
  }

  lemma WrittenTableIsValid(runs: seq<Run>)
    requires 0 < |runs| <= 100_000
    ensures ValidTable(WrittenTable(runs))
  {
    forall i, j | 0 <= i <= j < |runs| + 1 ensures Cps(runs)[i] <= Cps(runs)[j] {
      CpsRise(runs, i, j);
    }
  }

  lemma {:induction false} TextLength(runs: seq<Run>, codec: Codec)
    ensures |Text(runs, codec)| == Total(runs)
  {
    if runs != [] {
      TextLength(runs[..|runs| - 1], codec);
    }
  }

  lemma {:induction false} TextAt(runs: seq<Run>, i: nat, d: nat, codec: Codec)
    requires i < |runs| && d < LengthOf(runs[i])
    ensures Cps(runs)[i] + d < |Text(runs, codec)|
    ensures Text(runs, codec)[Cps(runs)[i] + d] == TextOf(runs[i], codec)[d]
  {
    var rest := runs[..|runs| - 1];
    TextLength(rest, codec);
    if i < |rest| {
      TextAt(rest, i, d, codec);
    }
  }

  lemma {:induction false} RunAt(runs: seq<Run>, k: nat) returns (i: nat)
    requires k < Total(runs)
    ensures i < |runs| && Cps(runs)[i] <= k < Cps(runs)[i] + LengthOf(runs[i])
  {
    var rest := runs[..|runs| - 1];
    if k < Total(rest) {
      i := RunAt(rest, k);
    } else {
      i := |rest|;
    }
  }

  // ----- one run -----

  /** What the reader makes of the fc field. */
  lemma FcMeans(word: seq<byte>, run: Run)
    requires Laid(word, run)
    ensures Compressed(FcOf(run)) == run.Narrow? && FileOffset(FcOf(run)) == run.at
    ensures run.at + Span(FcOf(run), LengthOf(run)) <= |word|
  {
  }

  /** The field's other two bits, the lowest one of a compressed offset and the highest, do not matter. */
  lemma SpareBitsAreIgnored(at: nat, low: nat, high: nat)
    requires low < 2 && high < 2
    ensures at < 0x2000_0000 ==>
              var fc := 0x8000_0000 * high + 0x4000_0000 + 2 * at + low;
              Compressed(fc) && FileOffset(fc) == at
    ensures at < 0x4000_0000 ==>
              var fc := 0x8000_0000 * high + at;
              !Compressed(fc) && FileOffset(fc) == at
  {
    if at < 0x2000_0000 {
      assert (0x8000_0000 * high + 0x4000_0000 + 2 * at + low) / 0x4000_0000 == 2 * high + 1;
    }
    if at < 0x4000_0000 {
      assert (0x8000_0000 * high + at) / 0x4000_0000 == 2 * high;
    }
  }

  lemma RunUnit(word: seq<byte>, run: Run, d: nat, codec: Codec)
    requires Laid(word, run) && d < LengthOf(run)
    ensures run.at + Span(FcOf(run), d) + Span(FcOf(run), 1) <= |word|
    ensures UnitAt(word, FcOf(run), run.at + Span(FcOf(run), d), codec) == TextOf(run, codec)[d]
  {
    FcMeans(word, run);
    hide FcOf, FileOffset;
  }

  lemma RunUnits(word: seq<byte>, run: Run, m: nat, codec: Codec)
    requires Laid(word, run) && m <= LengthOf(run)
    ensures FileOffset(FcOf(run)) + Span(FcOf(run), m) <= |word|
    ensures RawUnits(word, FcOf(run), m, codec) == TextOf(run, codec)[..m]
  {
    FcMeans(word, run);
    SpanGrows(FcOf(run), m, LengthOf(run));
    hide FcOf, FileOffset, Compressed, DecodePiece, TextOf, Laid, UnitAt;
    forall d | 0 <= d < m ensures RawUnits(word, FcOf(run), m, codec)[d] == TextOf(run, codec)[d] {
      UnitOfSlice(word, FcOf(run), run.at, m, d, codec);
      RunUnit(word, run, d, codec);
    }
  }

  // ----- the text -----

  /** How much of the text is wanted: up to the stated length of the main text, if any, and 100,000 characters. */
  function Wanted(size: nat, ccpText: nat): nat {
    var stated := if ccpText > 0 && ccpText < size then ccpText else size;
    if stated < 100_000 then stated else 100_000
  }

  /** The first n characters end inside run i, behind the first half of a surrogate pair. */
  predicate EndsInPairOf(runs: seq<Run>, n: nat, i: nat)
    requires i < |runs|
  {
    runs[i].Wide? && Cps(runs)[i] < n < Cps(runs)[i] + LengthOf(runs[i])
    && 0xD800 <= runs[i].units[n - 1 - Cps(runs)[i]] < 0xDC00
  }

  predicate EndsInPair(runs: seq<Run>, n: nat) {
    exists i | 0 <= i < |runs| :: EndsInPairOf(runs, n, i)
  }

  predicate TableSizes(t: Table, n: nat) {
    |t.fcs| == n && |t.cps| == n + 1
  }

  lemma StopIsWanted(runs: seq<Run>, ccpText: nat, i: nat)
    requires 0 < |runs| <= 100_000 && i < |runs|
    ensures var t := WrittenTable(runs);
            var n := Wanted(Total(runs), ccpText);
            && Stop(t, ccpText, i) - t.cps[i]
               == (if n >= t.cps[i] + LengthOf(runs[i]) then LengthOf(runs[i]) else n - t.cps[i])
            && Covered(t, ccpText, |runs|) == n
  {
    CpsAre(runs, i);
    CpsRise(runs, i + 1, |runs|);
  }

  lemma PieceErrorIs(word: seq<byte>, t: Table, ccpText: nat, i: nat, codec: Codec)
    requires i < |t.fcs| && |t.cps| == |t.fcs| + 1
    requires var n := Stop(t, ccpText, i) - t.cps[i];
             n > 0 ==> FileOffset(t.fcs[i]) + Span(t.fcs[i], n) <= |word|
    ensures var n := Stop(t, ccpText, i) - t.cps[i];
            PieceError(word, t, ccpText, i, codec)
            == if n <= 0 || Compressed(t.fcs[i]) || WellFormed16(RawUnits(word, t.fcs[i], n, codec)) then None
               else Some(IllFormedUtf16)
  {
    hide Compressed, FileOffset, WellFormed16, DecodePiece, Limit;
  }

  /** Cut after m characters, a run is ill-formed exactly if that is inside a surrogate pair. */
  lemma CutRun(word: seq<byte>, run: Run, m: nat, codec: Codec)
    requires Laid(word, run) && 0 < m <= LengthOf(run)
    ensures FileOffset(FcOf(run)) + Span(FcOf(run), m) <= |word| && Compressed(FcOf(run)) == run.Narrow?
    ensures run.Wide? ==>
              (WellFormed16(RawUnits(word, FcOf(run), m, codec))
               <==> !(m < |run.units| && 0xD800 <= run.units[m - 1] < 0xDC00))
  {
    FcMeans(word, run);
    RunUnits(word, run, m, codec);
    if run.Wide? {
      CutWellFormed(run.units, m);
      CutWellFormed(run.units, |run.units|);
      assert run.units[..|run.units|] == run.units;
    }
  }

  lemma WrittenPieceError(runs: seq<Run>, word: seq<byte>, ccpText: nat, i: nat, codec: Codec)
    requires 0 < |runs| <= 100_000 && i < |runs| && Laid(word, runs[i])
    ensures TableSizes(WrittenTable(runs), |runs|)
    ensures PieceError(word, WrittenTable(runs), ccpText, i, codec)
            == if EndsInPairOf(runs, Wanted(Total(runs), ccpText), i) then Some(IllFormedUtf16) else None
  {
    hide Compressed, FileOffset, RawUnits, WellFormed16, Wanted, PieceError, Laid, Cps, Fcs, FcOf, Stop, Total;
    var t := WrittenTable(runs);
    var m := Stop(t, ccpText, i) - t.cps[i];
    StopIsWanted(runs, ccpText, i);
    if m > 0 {
      CutRun(word, runs[i], m, codec);
    }
    PieceErrorIs(word, t, ccpText, i, codec);
  }

  lemma WrittenLookupAt(runs: seq<Run>, word: seq<byte>, i: nat, d: nat, codec: Codec)
    requires ValidTable(WrittenTable(runs)) && i < |runs| && Laid(word, runs[i]) && d < LengthOf(runs[i])
    ensures Lookup(word, WrittenTable(runs), Cps(runs)[i] + d, codec) == Some(TextOf(runs[i], codec)[d])
  {
    hide *;
    RunOfTable(runs, i);
    LookupRun(word, WrittenTable(runs), i, runs[i], d, codec);
  }

  lemma RunOfTable(runs: seq<Run>, i: nat)
    requires i < |runs|
    ensures var t := WrittenTable(runs);
            && TableSizes(t, |runs|) && |t.fcs| == |runs| && |t.cps| == |runs| + 1
            && t.fcs[i] == FcOf(runs[i]) && t.cps[i] == Cps(runs)[i]
            && t.cps[i + 1] == t.cps[i] + LengthOf(runs[i])
  {
    CpsAre(runs, i);
  }

  lemma LookupRun(word: seq<byte>, t: Table, i: nat, run: Run, d: nat, codec: Codec)
    requires ValidTable(t) && i < |t.fcs| && t.fcs[i] == FcOf(run) && t.cps[i] + d < t.cps[i + 1]
    requires Laid(word, run) && d < LengthOf(run)
    ensures Lookup(word, t, t.cps[i] + d, codec) == Some(TextOf(run, codec)[d])
  {
    hide *;
    FcMeans(word, run);
    RunUnit(word, run, d, codec);
    LookupInPiece(word, t, i, d, codec);
  }

  lemma WrittenLookup(runs: seq<Run>, word: seq<byte>, k: nat, codec: Codec)
    requires ValidTable(WrittenTable(runs)) && forall i | 0 <= i < |runs| :: Laid(word, runs[i])
    requires k < |Text(runs, codec)|
    ensures TableSizes(WrittenTable(runs), |runs|)
    ensures Lookup(word, WrittenTable(runs), k, codec) == Some(Text(runs, codec)[k])
  {
    hide Lookup, Laid, ValidTable, Text, TextOf, Total;
    TextLength(runs, codec);
    var i := RunAt(runs, k);
    var d := k - Cps(runs)[i];
    WrittenLookupAt(runs, word, i, d, codec);
    TextAt(runs, i, d, codec);
  }

  lemma WrittenText(runs: seq<Run>, word: seq<byte>, units: seq<nat>, codec: Codec)
    requires ValidTable(WrittenTable(runs)) && forall i | 0 <= i < |runs| :: Laid(word, runs[i])
    requires RandomAccess(units, word, WrittenTable(runs), codec) && |units| <= |Text(runs, codec)|
    ensures units == Text(runs, codec)[..|units|]
  {
    hide Lookup, Laid, ValidTable, Text;
    forall k: nat | k < |units| ensures units[k] == Text(runs, codec)[k] {
      WrittenLookup(runs, word, k, codec);
      assert WrittenTable(runs).cps[0] + k == k;
    }
  }

  /** Runs laid anywhere in the stream, 8-bit or UTF-16, are read back as their texts in a row, as far as wanted; only
      where that ends inside a surrogate pair is the document refused. */
  lemma WrittenRunsReadBack(runs: seq<Run>, word: seq<byte>, ccpText: nat, codec: Codec,
                            r: Result<seq<nat>, DocError>)
    requires 0 < |runs| <= 100_000 && forall i | 0 <= i < |runs| :: Laid(word, runs[i])
    requires ValidTable(WrittenTable(runs)) && Extracts(r, word, WrittenTable(runs), ccpText, codec)
    ensures var text := Text(runs, codec);
            var n := Wanted(|text|, ccpText);
            n <= |text| && r == if EndsInPair(runs, n) then Err(IllFormedUtf16) else Ok(text[..n])
  {
    hide Laid, Lookup, PieceError, Wanted, RandomAccess, EndsInPairOf, ValidTable, Text, Total;
    var text := Text(runs, codec);
    TextLength(runs, codec);
    var n := Wanted(|text|, ccpText);
    WantedFits(|text|, ccpText);
    StopIsWanted(runs, ccpText, 0);
    forall i | 0 <= i < |runs|
      ensures PieceError(word, WrittenTable(runs), ccpText, i, codec)
              == if EndsInPairOf(runs, n, i) then Some(IllFormedUtf16) else None
    {
      WrittenPieceError(runs, word, ccpText, i, codec);
    }
    if r.Ok? {
      WrittenText(runs, word, r.value, codec);
    }
  }

  lemma WantedFits(size: nat, ccpText: nat)
    ensures Wanted(size, ccpText) <= size
  {
  }

  // ----- UTF-16 -----

  predicate IsScalar(point: nat) {
    point < 0xD800 || 0xE000 <= point < 0x11_0000
  }

  function Utf16(point: nat): seq<nat>
    requires IsScalar(point)
  {
    if point < 0x1_0000 then [point]
    else [0xD800 + (point - 0x1_0000) / 0x400, 0xDC00 + (point - 0x1_0000) % 0x400]
  }

  function Utf16Of(points: seq<nat>): seq<nat>
    requires forall i | 0 <= i < |points| :: IsScalar(points[i])
  {
    if points == [] then [] else Utf16(points[0]) + Utf16Of(points[1..])
  }

  /** Encoded text is well-formed. */
  lemma {:induction false} EncodedIsWellFormed(points: seq<nat>)
    requires forall i | 0 <= i < |points| :: IsScalar(points[i])
    ensures WellFormed16(Utf16Of(points))
  {
    if points != [] {
      var first, rest := Utf16(points[0]), Utf16Of(points[1..]);
      EncodedIsWellFormed(points[1..]);
      assert (first + rest)[|first|..] == rest;
    }
  }

  /** Well-formed text encodes some characters. */
  lemma {:induction false} WellFormedIsEncoded(units: seq<nat>) returns (points: seq<nat>)
    requires WellFormed16(units) && forall i | 0 <= i < |units| :: units[i] < 0x1_0000
    ensures forall i | 0 <= i < |points| :: IsScalar(points[i])
    ensures Utf16Of(points) == units
  {
    if units == [] {
      points := [];
    } else {
      var width := if High(units[0]) then 2 else 1;
      var point := if width == 2 then 0x1_0000 + (units[0] - 0xD800) * 0x400 + (units[1] - 0xDC00) else units[0];
      var rest := WellFormedIsEncoded(units[width..]);
      points := [point] + rest;
      assert points[1..] == rest && Utf16(point) == units[..width];
      assert units == units[..width] + units[width..];
    }
  }

  // ----- the bytes of the piece table -----

  /** What surrounds the fc field in a Pcd: two bytes before and two behind. */
  datatype Fill = Fill(a: byte, b: byte, c: byte, d: byte)

  function CpBytes(cps: seq<nat>): (r: seq<byte>)
    requires forall i | 0 <= i < |cps| :: cps[i] < 0x1_0000_0000
    ensures |r| == 4 * |cps|
  {
    if cps == [] then [] else CpBytes(cps[..|cps| - 1]) + Bytes32(cps[|cps| - 1])
  }

  function PcdBytes(fcs: seq<nat>, fills: seq<Fill>): (r: seq<byte>)
    requires |fills| == |fcs| && forall i | 0 <= i < |fcs| :: fcs[i] < 0x1_0000_0000
    ensures |r| == 8 * |fcs|
  {
    if fcs == [] then []
    else
      var last := |fcs| - 1;
      var fill := fills[last];
      PcdBytes(fcs[..last], fills[..last]) + ([fill.a, fill.b] + Bytes32(fcs[last]) + [fill.c, fill.d])
  }

  lemma {:induction false} CpBytesAt(cps: seq<nat>, i: nat)
    requires i < |cps| && forall j | 0 <= j < |cps| :: cps[j] < 0x1_0000_0000
    ensures CpBytes(cps)[4 * i..4 * i + 4] == Bytes32(cps[i])
  {
    hide Bytes32;
    var last := |cps| - 1;
    var rest := CpBytes(cps[..last]);
    if i < last {
      CpBytesAt(cps[..last], i);
      assert CpBytes(cps)[4 * i..4 * i + 4] == rest[4 * i..4 * i + 4];
    }
  }

  lemma {:induction false} PcdBytesAt(fcs: seq<nat>, fills: seq<Fill>, i: nat)
    requires i < |fcs| == |fills| && forall j | 0 <= j < |fcs| :: fcs[j] < 0x1_0000_0000
    ensures PcdBytes(fcs, fills)[8 * i + 2..8 * i + 6] == Bytes32(fcs[i])
  {
    hide Bytes32;
    var last := |fcs| - 1;
    var rest := PcdBytes(fcs[..last], fills[..last]);
    if i < last {
      PcdBytesAt(fcs[..last], fills[..last], i);
      assert PcdBytes(fcs, fills)[8 * i + 2..8 * i + 6] == rest[8 * i + 2..8 * i + 6];
    }
  }

  /** Everything fits its field. */
  predicate Fits(runs: seq<Run>, fills: seq<Fill>) {
    && 0 < |runs| <= 100_000 && |fills| == |runs| && Total(runs) < 0x1_0000_0000
    && forall i | 0 <= i < |runs| :: FcOf(runs[i]) < 0x1_0000_0000
  }

  function PlcBytes(runs: seq<Run>, fills: seq<Fill>): (r: seq<byte>)
    requires Fits(runs, fills)
    ensures |r| == 4 + 12 * |runs|
  {
    CpsFit(runs);
    CpBytes(Cps(runs)) + PcdBytes(Fcs(runs), fills)
  }

  lemma CpsFit(runs: seq<Run>)
    requires Total(runs) < 0x1_0000_0000
    ensures forall i | 0 <= i < |runs| + 1 :: Cps(runs)[i] < 0x1_0000_0000
  {
    forall i | 0 <= i < |runs| + 1 ensures Cps(runs)[i] < 0x1_0000_0000 {
      CpsRise(runs, i, |runs|);
    }
  }

  lemma WrittenCp(runs: seq<Run>, fills: seq<Fill>, i: nat)
    requires Fits(runs, fills) && i <= |runs|
    ensures CpAt(PlcBytes(runs, fills), i) == Cps(runs)[i]
  {
    hide Bytes32, Cps, Fcs, U32, Total, FcOf;
    CpsFit(runs);
    var plc := PlcBytes(runs, fills);
    CpBytesAt(Cps(runs), i);
    assert plc[4 * i..4 * i + 4] == CpBytes(Cps(runs))[4 * i..4 * i + 4];
    Field32(Cps(runs)[i], plc, 4 * i);
  }

  lemma WrittenFc(runs: seq<Run>, fills: seq<Fill>, i: nat)
    requires Fits(runs, fills) && i < |runs|
    ensures FcAt(PlcBytes(runs, fills), |runs|, i) == FcOf(runs[i])
  {
    hide Bytes32, Cps, Fcs, U32, Total, FcOf;
    CpsFit(runs);
    var plc := PlcBytes(runs, fills);
    var pcds := PcdBytes(Fcs(runs), fills);
    var at := 4 * (|runs| + 1) + 8 * i + 2;
    PcdBytesAt(Fcs(runs), fills, i);
    assert plc[at..at + 4] == pcds[8 * i + 2..8 * i + 6];
    Field32(FcOf(runs[i]), plc, at);
  }

  lemma WrittenPlc(runs: seq<Run>, fills: seq<Fill>, t: Table)
    requires Fits(runs, fills)
    ensures PlcError(PlcBytes(runs, fills)) == None
    ensures Holds(t, PlcBytes(runs, fills)) ==> t == WrittenTable(runs)
  {
    hide PlcBytes, CpAt, FcAt, Cps, Fcs, Fits;
    forall i: nat | i <= |runs| ensures CpAt(PlcBytes(runs, fills), i) == Cps(runs)[i] {
      WrittenCp(runs, fills, i);
    }
    forall i: nat | i < |runs| ensures FcAt(PlcBytes(runs, fills), |runs|, i) == FcOf(runs[i]) {
      WrittenFc(runs, fills, i);
    }
    forall i | 0 <= i < |runs| ensures Cps(runs)[i] <= Cps(runs)[i + 1] {
      CpsRise(runs, i, i + 1);
    }
    SizesFit(runs, fills);
    if Holds(t, PlcBytes(runs, fills)) {
      assert t.cps == Cps(runs) && t.fcs == Fcs(runs);
    }
  }

  lemma SizesFit(runs: seq<Run>, fills: seq<Fill>)
    requires Fits(runs, fills)
    ensures 0 < |runs| <= 100_000
  {
  }

  /** More than 100,000 pieces are refused. */
  lemma TooManyPiecesAreRefused(plc: seq<byte>, n: nat)
    requires |plc| == 4 + 12 * n && (n == 0 || n > 100_000)
    ensures PlcError(plc) == Some(PieceCount)
  {
  }

  /** The whole document, byte for byte: runs of text anywhere in the stream; in the table stream, behind anything, any
      property records, the piece table of the runs, and anything after it. The extraction answers with the texts of
      the runs in a row, as far as wanted, or refuses a text that ends inside a surrogate pair. */
  lemma WrittenDocumentReadsBack(runs: seq<Run>, fills: seq<Fill>, word: seq<byte>, front: seq<byte>,
                                 prcs: seq<seq<byte>>, rest: seq<byte>, back: seq<byte>, ccpText: nat, codec: Codec,
                                 r: Result<seq<nat>, DocError>, t: Table)
    requires Fits(runs, fills) && forall i | 0 <= i < |runs| :: Laid(word, runs[i])
    requires forall i | 0 <= i < |prcs| :: |prcs[i]| < 0x1_0000
    requires var clx := ClxOf(prcs, PlcBytes(runs, fills), rest);
             Extraction(r, t, word, front + clx + back, |front|, |clx|, ccpText, codec)
    ensures var text := Text(runs, codec);
            var n := Wanted(|text|, ccpText);
            n <= |text| && r == if EndsInPair(runs, n) then Err(IllFormedUtf16) else Ok(text[..n])
  {
    hide *;
    SizesFit(runs, fills);
    var plc := PlcBytes(runs, fills);
    var clx := ClxOf(prcs, plc, rest);
    ClxIsThere(front, prcs, plc, rest, back);
    WrittenPlc(runs, fills, t);
    ExtractionOf(r, t, word, front + clx + back, |front|, |clx|, ccpText, codec, plc);
    WrittenRunsReadBack(runs, word, ccpText, codec, r);
  }

  lemma ClxIsThere(front: seq<byte>, prcs: seq<seq<byte>>, plc: seq<byte>, rest: seq<byte>, back: seq<byte>)
    requires |plc| < 0x1_0000_0000 && forall i | 0 <= i < |prcs| :: |prcs[i]| < 0x1_0000
    ensures var clx := ClxOf(prcs, plc, rest);
            && 0 < |clx| && (front + clx + back)[|front|..|front| + |clx|] == clx
            && FindPcdt(clx, 0) == Ok(plc)
  {
    var clx := ClxOf(prcs, plc, rest);
    FindsWrittenPcdt([], prcs, plc, rest);
    assert [] + clx == clx;
  }

  lemma ExtractionOf(r: Result<seq<nat>, DocError>, t: Table, word: seq<byte>, table: seq<byte>, fcClx: nat,
                     lcbClx: nat, ccpText: nat, codec: Codec, plc: seq<byte>)
    requires 0 < lcbClx && fcClx + lcbClx <= |table| && FindPcdt(table[fcClx..fcClx + lcbClx], 0) == Ok(plc)
    requires PlcError(plc) == None && Extraction(r, t, word, table, fcClx, lcbClx, ccpText, codec)
    ensures Holds(t, plc) && ValidTable(t) && Extracts(r, word, t, ccpText, codec)
  {
    hide FindPcdt, PlcError, Holds, ValidTable, Extracts;
  }
}
