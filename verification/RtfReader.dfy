/** app/core/parser/doc_parser.py: the RTF reader as it runs, with a byte buffer and a bounded output,
    proved to produce the direct emission of module Rtf cut off at MAX_EXTRACTED_CHARS. */
module RtfReader {
  import opened Wrappers
  import opened DocParser
  import opened Rtf

  const FLUSH_SIZE := 65_536

  function Decoded(codecs: Codecs, codepage: CodePage, bytes: seq<int>): (r: seq<nat>)
    ensures |r| == |bytes| && forall k | 0 <= k < |bytes| :: r[k] == codecs.decode(codepage, bytes[k])
  {
    if bytes == [] then []
    else Decoded(codecs, codepage, bytes[..|bytes| - 1]) + [codecs.decode(codepage, bytes[|bytes| - 1])]
  }

  lemma DecodedSnoc(codecs: Codecs, codepage: CodePage, bytes: seq<int>, b: int)
    ensures Decoded(codecs, codepage, bytes + [b]) == Decoded(codecs, codepage, bytes) + [codecs.decode(codepage, b)]
  {
    assert (bytes + [b])[..|bytes|] == bytes;
  }

  /** What is cut off before is cut off after. */
  lemma TakeConcat(a: seq<nat>, b: seq<nat>, n: nat)
    ensures Take(Take(a, n) + b, n) == Take(a + b, n)
  {
  }

  lemma TakeSame(a: seq<nat>, b: seq<nat>, more: seq<nat>, n: nat)
    requires Take(a, n) == Take(b, n)
    ensures Take(a + more, n) == Take(b + more, n)
  {
    TakeConcat(a, more, n);
    TakeConcat(b, more, n);
  }

  class Reader {
    const codecs: Codecs
    var output: seq<nat>
    var ansiBytes: seq<int>
    var stack: seq<Frame>
    var skip: bool
    var fallback: nat
    var codepage: CodePage
    var ignorable: bool
    var toSkip: nat
    ghost var emitted: seq<nat>   // direct emission

    /** What has been read shows in the output once the buffer is decoded; and a waiting buffer means that
        nothing is being skipped and the code page is the one its bytes were appended under. */
    ghost predicate Valid()
      reads this
    {
      && |output| <= MAX_EXTRACTED_CHARS
      && Take(output + Decoded(codecs, codepage, ansiBytes), MAX_EXTRACTED_CHARS) == Take(emitted, MAX_EXTRACTED_CHARS)
      && (ansiBytes != [] ==> !skip)
    }

    function Ctl(): Control
      reads this
    {
      Control(stack, skip, fallback, codepage, ignorable, toSkip)
    }

    constructor (codecs: Codecs)
      ensures Valid() && Ctl() == START && emitted == [] && ansiBytes == [] && this.codecs == codecs
    {
      this.codecs := codecs;
      output, ansiBytes, stack, skip, fallback := [], [], [], false, 1;
      codepage, ignorable, toSkip, emitted := Cp(1252), false, 0, [];
    }

    lemma NothingWaits()
      requires Valid() && ansiBytes == []
      ensures output == Take(emitted, MAX_EXTRACTED_CHARS)
    {
      assert output + Decoded(codecs, codepage, []) == output;
    }

    method AppendOutput(value: seq<nat>)
      requires |output| <= MAX_EXTRACTED_CHARS
      modifies this`output
      ensures output == if skip then old(output) else Take(old(output) + value, MAX_EXTRACTED_CHARS)
    {
      if skip || value == [] || |output| >= MAX_EXTRACTED_CHARS {
        return;
      }
      var remaining := MAX_EXTRACTED_CHARS - |output|;
      output := output + Take(value, remaining);
    }

    method FlushAnsi()
      requires Valid()
      modifies this`output, this`ansiBytes
      ensures Valid() && ansiBytes == []
    {
      if ansiBytes == [] {
        return;
      }
      var raw := ansiBytes;
      ansiBytes := [];
      AppendOutput(Decoded(codecs, codepage, raw));
      assert output + Decoded(codecs, codepage, []) == output;
    }

    /** Direct emission of text right after a flush. */
    method Append(text: seq<nat>)
      requires Valid() && ansiBytes == []
      modifies this`output, this`emitted
      ensures Valid() && emitted == old(emitted) + if skip then [] else text
    {
      emitted := emitted + if skip then [] else text;
      assert output + Decoded(codecs, codepage, []) == output;
      TakeSame(output, old(emitted), if skip then [] else text, MAX_EXTRACTED_CHARS);
      AppendOutput(text);
      assert output + Decoded(codecs, codepage, []) == output;
      assert skip ==> output + [] == output;
    }

    /** Buffering one byte. */
    method Buffer(b: int)
      requires Valid() && !skip
      modifies this`ansiBytes, this`emitted
      ensures Valid() && emitted == old(emitted) + [codecs.decode(codepage, b)]
    {
      DecodedSnoc(codecs, codepage, ansiBytes, b);
      var next := [codecs.decode(codepage, b)];
      var shown := output + Decoded(codecs, codepage, ansiBytes);
      TakeSame(shown, emitted, next, MAX_EXTRACTED_CHARS);
      assert output + (Decoded(codecs, codepage, ansiBytes) + next) == shown + next;
      ansiBytes := ansiBytes + [b];
      emitted := emitted + next;
    }

    /** A byte that counts as one replacement character. */
    method Replaceable(b: int)
      requires Valid()
      modifies this
      ensures Valid()
      ensures Move(0, Ctl(), emitted) == Emitted(Emit(0, old(Ctl()), [codecs.decode(codepage, b)]), old(emitted))
    {
      if toSkip > 0 {
        toSkip := toSkip - 1;
      } else if !skip {
        Buffer(b);
      }
      assert old(emitted) + [] == old(emitted);
    }

    /** Text that counts as one replacement character. */
    method ReplaceableText(text: seq<nat>)
      requires Valid() && ansiBytes == []
      modifies this
      ensures Valid() && ansiBytes == []
      ensures Move(0, Ctl(), emitted) == Emitted(Emit(0, old(Ctl()), text), old(emitted))
    {
      if toSkip > 0 {
        toSkip := toSkip - 1;
      } else {
        Append(text);
      }
      assert old(emitted) + [] == old(emitted);
    }

    method Character(source: string, index: nat) returns (next: nat)
      requires Valid() && index < |source| && source[index] !in {'{', '}', '\\'}
      modifies this
      ensures Valid()
      ensures StepAt(source, index, old(Ctl()), codecs).Ok?
      ensures Move(next, Ctl(), emitted) == Emitted(StepAt(source, index, old(Ctl()), codecs).value, old(emitted))
    {
      hide Valid;
      var c := source[index];
      if toSkip == 0 && (c == '\r' || c == '\n') {
        assert old(emitted) + [] == old(emitted);
      } else {
        Replaceable(c as int);
        if |ansiBytes| >= FLUSH_SIZE {
          FlushAnsi();
        }
      }
      next := index + 1;
    }

    method OpenBrace() returns (ok: bool)
      requires Valid()
      modifies this
      ensures Valid() && emitted == old(emitted)
      ensures ok == (|old(stack)| < MAX_RTF_GROUP_DEPTH) && (ok ==> Ctl() == OpenGroup(old(Ctl())))
    {
      FlushAnsi();
      if |stack| >= MAX_RTF_GROUP_DEPTH {
        return false;
      }
      stack := stack + [Frame(skip, fallback, codepage, ignorable)];
      ignorable := false;
      return true;
    }

    method CloseBrace() returns (ok: bool)
      requires Valid()
      modifies this
      ensures Valid() && emitted == old(emitted)
      ensures ok == (old(stack) != []) && (ok ==> Ctl() == CloseGroup(old(Ctl())))
    {
      FlushAnsi();
      if stack == [] {
        return false;
      }
      var f := stack[|stack| - 1];
      stack := stack[..|stack| - 1];
      skip, fallback, codepage, ignorable := f.skip, f.fallback, f.codepage, f.ignorable;
      return true;
    }

    method SkipLetters(source: string, i: nat) returns (end: nat)
      requires i <= |source|
      ensures end == AlphaEnd(source, i)
    {
      end := i;
      while end < |source| && IsAlpha(source[end])
        invariant i <= end <= |source| && AlphaEnd(source, i) == AlphaEnd(source, end)
      {
        end := end + 1;
      }
    }

    method SkipDigits(source: string, i: nat) returns (end: nat)
      requires i <= |source|
      ensures end == DigitEnd(source, i)
    {
      end := i;
      while end < |source| && IsDigit(source[end])
        invariant i <= end <= |source| && DigitEnd(source, i) == DigitEnd(source, end)
      {
        end := end + 1;
      }
    }

    /** The control word whose letters start at i. */
    method ScanWord(source: string, i: nat) returns (r: Result<Word, RtfError>)
      requires i <= |source|
      ensures r == ReadWord(source, i)
    {
      hide AlphaEnd, DigitEnd, DecimalValue;
      var wordEnd := SkipLetters(source, i);
      var numberStart := wordEnd;
      if numberStart < |source| && source[numberStart] in {'+', '-'} {
        numberStart := numberStart + 1;
      }
      var numberEnd := SkipDigits(source, numberStart);
      var parameter: Option<int> := None;
      if numberEnd > numberStart {
        var n := DecimalValue(source[numberStart..numberEnd]);
        if n == None {
          return Err(BadNumber);
        }
        var magnitude: int := n.value;
        parameter := Some(if numberStart > wordEnd && source[wordEnd] == '-' then -magnitude else magnitude);
      }
      var next := numberEnd;
      if next < |source| && source[next] == ' ' {
        next := next + 1;
      }
      return Ok(Word(source[i..wordEnd], parameter, next));
    }

    /** Changes of the control state between a flush and the next byte. */
    method SetSkipping(yes: bool)
      requires Valid() && ansiBytes == []
      modifies this`skip
      ensures Valid() && skip == yes
    {
      skip := yes;
    }

    method SetCodePage(cp: CodePage)
      requires Valid() && ansiBytes == []
      modifies this`codepage
      ensures Valid() && codepage == cp
    {
      assert Decoded(codecs, cp, []) == [] == Decoded(codecs, codepage, []);
      codepage := cp;
    }

    method SetCounts(fallbacks: nat, skips: nat, star: bool)
      requires Valid()
      modifies this`fallback, this`toSkip, this`ignorable
      ensures Valid() && fallback == fallbacks && toSkip == skips && ignorable == star
    {
      fallback, toSkip, ignorable := fallbacks, skips, star;
    }

    method ObeyWord(w: Word, size: nat) returns (r: Result<nat, RtfError>)
      requires Valid() && ansiBytes == []
      modifies this
      ensures match Obey(w, old(Ctl()), size, codecs)
              case Err(e) => r == Err(e)
              case Ok(m) => Valid() && r.Ok? && Move(r.value, Ctl(), emitted) == Emitted(m, old(emitted))
    {
      hide Valid, NamedCodePage, SpecialWord, Decoded;
      assert emitted + [] == emitted;
      if w.name in DESTINATIONS || ignorable {
        SetSkipping(true);
        SetCounts(fallback, toSkip, false);
        return Ok(w.next);
      }
      var named := NamedCodePage(w.name);
      if named.Some? {
        SetCodePage(named.value);
        return Ok(w.next);
      }
      if w.name == "ansicpg" && w.parameter.Some? {
        SetCodePage(if codecs.known(w.parameter.value) then Cp(w.parameter.value) else Cp(1252));
        return Ok(w.next);
      }
      if w.name == "uc" && w.parameter.Some? {
        SetCounts(Clamp(w.parameter.value), toSkip, ignorable);
        return Ok(w.next);
      }
      if w.name == "u" && w.parameter.Some? {
        var point := w.parameter.value;
        if point < 0 {
          point := point + 65536;
        }
        if point < 0 || point > 0x10FFFF {
          return Err(BadCodePoint);
        }
        Append([point]);
        SetCounts(fallback, fallback, ignorable);
        return Ok(w.next);
      }
      if w.name == "bin" && w.parameter.Some? {
        if w.parameter.value < 0 || w.next + w.parameter.value > size {
          return Err(BadBinary);
        }
        return Ok(w.next + w.parameter.value);
      }
      var special := SpecialWord(w.name);
      if special.Some? {
        ReplaceableText([special.value]);
      }
      return Ok(w.next);
    }

    method Backslash(source: string, index: nat) returns (r: Result<nat, RtfError>)
      requires Valid() && index < |source|
      modifies this
      ensures match Escape(source, index, old(Ctl()), codecs)
              case Err(e) => r == Err(e)
              case Ok(m) => Valid() && r.Ok? && Move(r.value, Ctl(), emitted) == Emitted(m, old(emitted))
    {
      hide Valid, Obey, ReadWord, HexPair, IsAlpha;
      if index + 1 >= |source| {
        return Err(TrailingEscape);
      }
      var c := source[index + 1];
      if c in {'{', '}', '\\'} {
        Replaceable(c as int);
        return Ok(index + 2);
      }
      if c == '\'' {
        if index + 3 >= |source| {
          return Err(TruncatedHex);
        }
        var value := HexPair(source[index + 2], source[index + 3]);
        if value == None {
          return Err(InvalidHex);
        }
        if value.value < 0 && toSkip == 0 && !skip {
          return Err(BadByte);
        }
        Replaceable(value.value);
        return Ok(index + 4);
      }
      FlushAnsi();
      if c == '*' {
        Star();
        return Ok(index + 2);
      }
      if !IsAlpha(c) {
        ReplaceableText(Symbol(c));
        return Ok(index + 2);
      }
      var w := ScanWord(source, index + 1);
      if w.Err? {
        return Err(w.error);
      }
      r := ObeyWord(w.value, |source|);
    }

    method Star()
      requires Valid()
      modifies this`ignorable
      ensures Valid() && Ctl() == old(Ctl()).(ignorable := true)
      ensures Move(0, Ctl(), emitted) == Emitted(Move(0, old(Ctl()).(ignorable := true), []), old(emitted))
    {
      ignorable := true;
      assert emitted + [] == emitted;
    }

    /** One turn of the loop does one step of the direct machine. */
    method Turn(source: string, index: nat) returns (r: Result<nat, RtfError>)
      requires Valid() && index < |source|
      modifies this
      ensures match StepAt(source, index, old(Ctl()), codecs)
              case Err(e) => r == Err(e)
              case Ok(m) => Valid() && r.Ok? && Move(r.value, Ctl(), emitted) == Emitted(m, old(emitted))
    {
      hide Valid, Escape, OpenGroup, CloseGroup;
      ghost var start := emitted;
      assert start + [] == start;
      var c := source[index];
      if c == '{' {
        var ok := OpenBrace();
        if !ok {
          return Err(TooDeep);
        }
        return Ok(index + 1);
      }
      if c == '}' {
        var ok := CloseBrace();
        if !ok {
          return Err(UnmatchedClose);
        }
        return Ok(index + 1);
      }
      if c != '\\' {
        var next := Character(source, index);
        return Ok(next);
      }
      r := Backslash(source, index);
    }
  }

  /** A move with the text it emitted put behind what there was. */
  function Emitted(m: Move, before: seq<nat>): Move {
    m.(text := before + m.text)
  }

  /** The outcome of the reader, told by the direct machine: after some number of steps it either meets its
      error, or has consumed everything, or has emitted as much as is wanted. */
  ghost predicate Outcome(r: Result<seq<nat>, RtfError>, source: string, codecs: Codecs, n: nat) {
    match Steps(source, codecs, n)
    case Err(e) => r == Err(e)
    case Ok(s) =>
      if s.index < |source| then
        r == Ok(Take(s.text, MAX_EXTRACTED_CHARS)) && |s.text| >= MAX_EXTRACTED_CHARS
      else if s.ctl.stack != [] then r == Err(UnclosedGroup)
      else r == Ok(Take(s.text, MAX_EXTRACTED_CHARS))
  }

  /** _extract_rtf_text, up to the final cleaning of the text. */
  method ExtractRtfText(source: string, codecs: Codecs) returns (r: Result<seq<nat>, RtfError>)
    ensures exists n: nat :: Outcome(r, source, codecs, n)
  {
    hide StepAt, Decoded, OpenGroup, CloseGroup;
    var reader := new Reader(codecs);
    var index := 0;
    ghost var n: nat := 0;
    while index < |source| && |reader.output| < MAX_EXTRACTED_CHARS
      invariant reader.Valid() && fresh(reader) && reader.codecs == codecs && index <= |source|
      invariant Steps(source, codecs, n) == Ok(State(index, reader.Ctl(), reader.emitted))
      decreases |source| - index
    {
      var next := reader.Turn(source, index);
      n := n + 1;
      if next.Err? {
        assert Outcome(Err(next.error), source, codecs, n);
        return Err(next.error);
      }
      index := next.value;
    }
    var truncated := index < |source| && |reader.output| >= MAX_EXTRACTED_CHARS;
    reader.FlushAnsi();
    reader.NothingWaits();
    if reader.stack != [] && !truncated {
      r := Err(UnclosedGroup);
    } else {
      r := Ok(reader.output);
    }
    assert Outcome(r, source, codecs, n);
  }

  // ----- what the outcome means for the whole document -----

  lemma TakePrefix(a: seq<nat>, b: seq<nat>, n: nat)
    requires Prefix(a, b) && |a| >= n
    ensures Take(a, n) == Take(b, n)
  {
  }

  /** If the direct machine reads the whole document without an error, the buffered reader returns the first
      MAX_EXTRACTED_CHARS characters of the direct emission; it reports an unclosed group exactly if the
      document leaves a group open and was not cut off before its end. */
  lemma BufferedIsDirect(r: Result<seq<nat>, RtfError>, source: string, codecs: Codecs, n: nat)
    requires Outcome(r, source, codecs, n) && Steps(source, codecs, |source|).Ok?
    ensures var whole := Steps(source, codecs, |source|).value;
            && whole.index == |source|
            && (r.Ok? ==> r.value == Take(whole.text, MAX_EXTRACTED_CHARS))
            && (whole.ctl.stack == [] ==> r.Ok?)
            && (r.Ok? && |r.value| < MAX_EXTRACTED_CHARS ==>
                  whole.ctl.stack == [] && Balance(source, codecs, |source|) == 0)
            && (r.Err? ==> r == Err(UnclosedGroup) && whole.ctl.stack != [])
  {
    hide StepAt;
    DepthIsBalance(source, codecs, |source|);
    if n <= |source| {
      TextGrows(source, codecs, n, |source|);
      var s := Steps(source, codecs, n).value;
      if s.index == |source| {
        StepsEnd(source, codecs, n, |source|);
      } else {
        TakePrefix(s.text, Steps(source, codecs, |source|).value.text, MAX_EXTRACTED_CHARS);
      }
    } else {
      StepsEnd(source, codecs, |source|, n);
    }
  }

  lemma {:induction false} StepsEnd(source: string, codecs: Codecs, n: nat, m: nat)
    requires n <= m && Steps(source, codecs, n).Ok? && Steps(source, codecs, n).value.index == |source|
    ensures Steps(source, codecs, m) == Steps(source, codecs, n)
    decreases m
  {
    hide StepAt;
    if n < m {
      StepsEnd(source, codecs, n, m - 1);
    }
  }

  /** An error of the direct machine is the reader's error too, unless the reader had all the text it wants
      before getting there. */
  lemma DirectErrors(r: Result<seq<nat>, RtfError>, source: string, codecs: Codecs, n: nat)
    requires Outcome(r, source, codecs, n) && Steps(source, codecs, |source|).Err?
    ensures || r == Err(Steps(source, codecs, |source|).error)
            || (r.Ok? && |r.value| == MAX_EXTRACTED_CHARS)
  {
    hide StepAt;
    if Steps(source, codecs, n).Err? {
      if n <= |source| {
        ErrorStays(source, codecs, n, |source|);
      } else {
        ErrorStays(source, codecs, |source|, n);
      }
    } else if Steps(source, codecs, n).value.index == |source| {
      if n <= |source| {
        StepsEnd(source, codecs, n, |source|);
        assert false;
      } else {
        ErrorStays(source, codecs, |source|, n);
        assert false;
      }
    }
  }

  lemma {:induction false} ErrorStays(source: string, codecs: Codecs, n: nat, m: nat)
    requires n <= m && Steps(source, codecs, n).Err?
    ensures Steps(source, codecs, m) == Steps(source, codecs, n)
    decreases m
  {
    hide StepAt;
    if n < m {
      ErrorStays(source, codecs, n, m - 1);
    }
  }
}
