/** app/core/parser/doc_parser.py: what the length limit does to a Word text that is readable without it. */
module PieceCut {
  import opened Wrappers
  import opened DocParser
  import opened PieceTable

  // ----- cutting well-formed UTF-16 -----

  /** A prefix of well-formed text is well-formed exactly if it does not end inside a surrogate pair. */
  lemma {:induction false} CutWellFormed(units: seq<nat>, n: nat)
    requires WellFormed16(units) && n <= |units|
    ensures WellFormed16(units[..n]) <==> n == 0 || !High(units[n - 1])
    decreases |units|
  {
    if n > 0 {
      var width := if High(units[0]) then 2 else 1;
      if n < width {
        assert units[..1] == [units[0]];
      } else {
        CutWellFormed(units[width..], n - width);
        assert units[..n][width..] == units[width..][..n - width];
        if n > width {
          assert units[width..][n - width - 1] == units[n - 1];
        }
      }
    }
  }

  // ----- one piece -----

  /** The first n units of a piece. */
  function RawUnits(word: seq<byte>, fc: nat, n: nat, codec: Codec): (r: seq<nat>)
    requires FileOffset(fc) + Span(fc, n) <= |word|
    ensures |r| == n
  {
    DecodePiece(word[FileOffset(fc)..FileOffset(fc) + Span(fc, n)], Compressed(fc), codec)
  }

  lemma RawUnitsPrefix(word: seq<byte>, fc: nat, m: nat, n: nat, codec: Codec)
    requires m <= n && FileOffset(fc) + Span(fc, n) <= |word|
    ensures FileOffset(fc) + Span(fc, m) <= |word|
    ensures RawUnits(word, fc, m, codec) == RawUnits(word, fc, n, codec)[..m]
  {
    hide Compressed, FileOffset, DecodePiece, UnitAt;
    SpanGrows(fc, m, n);
    forall k | 0 <= k < m ensures RawUnits(word, fc, m, codec)[k] == RawUnits(word, fc, n, codec)[k] {
      UnitOfSlice(word, fc, FileOffset(fc), m, k, codec);
      UnitOfSlice(word, fc, FileOffset(fc), n, k, codec);
    }
  }

  lemma SpanGrows(fc: nat, m: nat, n: nat)
    requires m <= n
    ensures Span(fc, m) <= Span(fc, n)
  {
    hide Compressed;
  }

  /** Where piece i would be read to without the limit. */
  function FullStop(t: Table, ccpText: nat, i: nat): nat
    requires i + 1 < |t.cps|
  {
    Min(t.cps[i + 1], DocumentEnd(t, ccpText))
  }

  /** Without the limit piece i could be read. */
  predicate ReadableUncut(word: seq<byte>, t: Table, ccpText: nat, i: nat, codec: Codec)
    requires i < |t.fcs| && |t.cps| == |t.fcs| + 1
  {
    t.cps[i] < FullStop(t, ccpText, i) ==>
      var n := FullStop(t, ccpText, i) - t.cps[i];
      && FileOffset(t.fcs[i]) + Span(t.fcs[i], n) <= |word|
      && (Compressed(t.fcs[i]) || WellFormed16(RawUnits(word, t.fcs[i], n, codec)))
  }

  /** A piece that could be read without the limit fails with it exactly if it is UTF-16 and cut behind a
      high surrogate. */
  lemma CutPiece(word: seq<byte>, t: Table, ccpText: nat, i: nat, codec: Codec)
    requires ValidTable(t) && i < |t.fcs| && ReadableUncut(word, t, ccpText, i, codec)
    ensures var n := Stop(t, ccpText, i) - t.cps[i];
            if n <= 0 || Compressed(t.fcs[i]) then PieceError(word, t, ccpText, i, codec) == None
            else
              var last := FileOffset(t.fcs[i]) + 2 * (n - 1);
              && last + 2 <= |word|
              && PieceError(word, t, ccpText, i, codec)
                 == (if High(U16(word, last)) then Some(IllFormedUtf16) else None)
              && (High(U16(word, last)) ==> Stop(t, ccpText, i) < FullStop(t, ccpText, i))
  {
    hide Compressed, FileOffset, WellFormed16, DecodePiece, U16;
    var fc := t.fcs[i];
    var n := Stop(t, ccpText, i) - t.cps[i];
    if n > 0 {
      var full := FullStop(t, ccpText, i) - t.cps[i];
      RawUnitsPrefix(word, fc, n, full, codec);
      assert Slice(word, t, ccpText, i) == word[FileOffset(fc)..FileOffset(fc) + Span(fc, n)];
      if !Compressed(fc) {
        var units := RawUnits(word, fc, full, codec);
        CutWellFormed(units, n);
        CutWellFormed(units, full);
        assert units[..full] == units;
        UnitOfSlice(word, fc, FileOffset(fc), full, n - 1, codec);
      }
    }
  }

  // ----- the whole text -----

  lemma {:induction false} PieceAtFacts(cps: seq<nat>, cp: nat)
    requires cps != [] && cps[0] <= cp && forall i, j | 0 <= i <= j < |cps| :: cps[i] <= cps[j]
    ensures PieceAt(cps, cp) < |cps| && cps[PieceAt(cps, cp)] <= cp
    ensures forall j | PieceAt(cps, cp) < j < |cps| :: cp < cps[j]
  {
    if |cps| > 1 && cps[|cps| - 1] > cp {
      PieceAtFacts(cps[..|cps| - 1], cp);
    }
  }

  /** The text is longer than the limit, and the last unit before the limit is a high surrogate of a UTF-16 piece. */
  predicate CutSplitsPair(word: seq<byte>, t: Table, ccpText: nat)
    requires |t.cps| == |t.fcs| + 1
  {
    var cut := t.cps[0] + MAX_EXTRACTED_CHARS;
    var i := PieceAt(t.cps, cut - 1);
    && cut < DocumentEnd(t, ccpText) && i < |t.fcs| && t.cps[i] < cut && !Compressed(t.fcs[i])
    && var last := FileOffset(t.fcs[i]) + 2 * (cut - 1 - t.cps[i]);
       last + 2 <= |word| && High(U16(word, last))
  }

  lemma FailingPieceIsCut(word: seq<byte>, t: Table, ccpText: nat, i: nat, codec: Codec)
    requires ValidTable(t) && i < |t.fcs| && ReadableUncut(word, t, ccpText, i, codec)
    requires PieceError(word, t, ccpText, i, codec) != None
    ensures PieceError(word, t, ccpText, i, codec) == Some(IllFormedUtf16) && CutSplitsPair(word, t, ccpText)
  {
    hide Compressed, FileOffset, PieceError, ReadableUncut, U16, PieceAt;
    CutPiece(word, t, ccpText, i, codec);
    var cut := t.cps[0] + MAX_EXTRACTED_CHARS;
    assert Stop(t, ccpText, i) == cut;
    PieceAtIs(t.cps, cut - 1, i);
  }

  lemma CutPieceFails(word: seq<byte>, t: Table, ccpText: nat, codec: Codec) returns (i: nat)
    requires ValidTable(t) && CutSplitsPair(word, t, ccpText)
    requires forall j | 0 <= j < |t.fcs| :: ReadableUncut(word, t, ccpText, j, codec)
    ensures i < |t.fcs| && PieceError(word, t, ccpText, i, codec) == Some(IllFormedUtf16)
  {
    hide Compressed, FileOffset, PieceError, ReadableUncut, U16, PieceAt;
    var cut := t.cps[0] + MAX_EXTRACTED_CHARS;
    i := PieceAt(t.cps, cut - 1);
    PieceAtFacts(t.cps, cut - 1);
    assert Stop(t, ccpText, i) == cut;
    CutPiece(word, t, ccpText, i, codec);
  }

  /** A document that is readable without the limit is refused exactly if the limit falls inside a surrogate
      pair, and then as ill-formed. */
  lemma RefusedExactlyAtSplitPair(r: Result<seq<nat>, DocError>, word: seq<byte>, t: Table, ccpText: nat, codec: Codec)
    requires ValidTable(t) && Extracts(r, word, t, ccpText, codec)
    requires forall i | 0 <= i < |t.fcs| :: ReadableUncut(word, t, ccpText, i, codec)
    ensures r == Err(IllFormedUtf16) <==> CutSplitsPair(word, t, ccpText)
    ensures r.Ok? <==> !CutSplitsPair(word, t, ccpText)
  {
    hide ReadableUncut, PieceError, CutSplitsPair, RandomAccess;
    if r.Err? {
      var i :| 0 <= i < |t.fcs| && PieceError(word, t, ccpText, i, codec) == Some(r.error);
      FailingPieceIsCut(word, t, ccpText, i, codec);
    } else if CutSplitsPair(word, t, ccpText) {
      var i := CutPieceFails(word, t, ccpText, codec);
    }
  }

  // ----- a document that is refused -----

  /** n letters in UTF-16. */
  function Letters(n: nat): (r: seq<byte>)
    ensures |r| == 2 * n && forall k | 0 <= k < n :: r[2 * k] == 0x41 && r[2 * k + 1] == 0
  {
    if n == 0 then []
    else
      var before := Letters(n - 1);
      assert forall k | 0 <= k < n :: 2 * k < 2 * n - 2 || k == n - 1;
      before + [0x41, 0]
  }

  /** 99,999 letters and one emoji, which takes two units: 100,001 in one piece. */
  function EmojiStream(): seq<byte> {
    Letters(MAX_EXTRACTED_CHARS - 1) + [0x3D, 0xD8, 0x00, 0xDE]
  }

  function EmojiTable(): (t: Table)
    ensures ValidTable(t)
  {
    Table([0, MAX_EXTRACTED_CHARS + 1], [0])
  }

  lemma {:induction false} PlainThenPair(units: seq<nat>)
    requires |units| >= 2 && (forall k | 0 <= k < |units| - 2 :: units[k] < 0xD800)
    requires High(units[|units| - 2]) && Low(units[|units| - 1])
    ensures WellFormed16(units)
  {
    if |units| == 2 {
      assert units[2..] == [];
    } else {
      PlainThenPair(units[1..]);
    }
  }

  lemma EmojiIsReadable(codec: Codec)
    ensures ReadableUncut(EmojiStream(), EmojiTable(), 0, 0, codec)
  {
    hide Letters;
    var word := EmojiStream();
    var n := MAX_EXTRACTED_CHARS + 1;
    assert !Compressed(0) && FileOffset(0) == 0;
    var units := RawUnits(word, 0, n, codec);
    forall k | 0 <= k < n ensures units[k] == U16(word, 2 * k) {
      UnitOfSlice(word, 0, 0, n, k, codec);
    }
    forall k | 0 <= k < n - 2 ensures units[k] < 0xD800 {
      assert word[2 * k] == 0x41 && word[2 * k + 1] == 0;
    }
    assert units[n - 2] == U16(word, 2 * (n - 2)) && units[n - 1] == U16(word, 2 * (n - 1));
    PlainThenPair(units);
  }

  /** One character too many at the wrong place makes the whole document unreadable. */
  lemma EmojiAtLimitIsRefused(r: Result<seq<nat>, DocError>, codec: Codec)
    requires Extracts(r, EmojiStream(), EmojiTable(), 0, codec)
    ensures r == Err(IllFormedUtf16)
  {
    hide Letters, Extracts, ReadableUncut;
    var word, t := EmojiStream(), EmojiTable();
    EmojiIsReadable(codec);
    assert !Compressed(0) && FileOffset(0) == 0;
    PieceAtIs(t.cps, MAX_EXTRACTED_CHARS - 1, 0);
    assert High(U16(word, 2 * (MAX_EXTRACTED_CHARS - 1)));
    assert CutSplitsPair(word, t, 0);
    RefusedExactlyAtSplitPair(r, word, t, 0, codec);
  }
}
