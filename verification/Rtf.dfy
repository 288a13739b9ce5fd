/** app/core/parser/doc_parser.py: reading RTF, as a machine that emits every character at once.
    The source is the file read as Latin-1, so each character stands for one byte. Text is a sequence of
    code points. Code pages are single-byte: `decode` gives the code point of one byte. */
module Rtf {
  import opened Wrappers

  const MAX_RTF_GROUP_DEPTH := 1_000

  datatype CodePage = Cp(number: int) | MacRoman

  /** The codec library: the code pages it knows, and how it decodes. */
  datatype Codecs = Codecs(known: int -> bool, decode: (CodePage, int) -> nat)

  datatype RtfError =
    | TooDeep | UnmatchedClose | TrailingEscape | TruncatedHex | InvalidHex | BadBinary | UnclosedGroup
    | BadNumber | BadByte | BadCodePoint

  datatype Frame = Frame(skip: bool, fallback: nat, codepage: CodePage, ignorable: bool)

  /** `fallback` is \uc's count; `toSkip` is how many replacement characters are still to be dropped. */
  datatype Control = Control(stack: seq<Frame>, skip: bool, fallback: nat, codepage: CodePage, ignorable: bool,
                             toSkip: nat)

  const START := Control([], false, 1, Cp(1252), false, 0)

  /** One step: where to read on, the control state there, and the text emitted. */
  datatype Move = Move(index: nat, ctl: Control, text: seq<nat>)

  // ----- characters -----

  /** str.isalpha over Latin-1. */
  predicate IsAlpha(c: char) {
    'A' <= c <= 'Z' || 'a' <= c <= 'z' || c in {'\U{AA}', '\U{B5}', '\U{BA}'}
    || ('\U{C0}' <= c <= '\U{FF}' && c != '\U{D7}' && c != '\U{F7}')
  }

  /** str.isdigit over Latin-1: the superscripts are digits, but `int` refuses them. */
  predicate IsDigit(c: char) {
    '0' <= c <= '9' || c in {'\U{B2}', '\U{B3}', '\U{B9}'}
  }

  /** What `int` strips from Latin-1 text. */
  predicate IsSpace(c: char) {
    c in {' ', '\U{85}', '\U{A0}'} || '\U{09}' <= c <= '\U{0D}'
  }

  function HexDigit(c: char): Option<nat> {
    if '0' <= c <= '9' then Some(c as int - '0' as int)
    else if 'a' <= c <= 'f' then Some(c as int - 'a' as int + 10)
    else if 'A' <= c <= 'F' then Some(c as int - 'A' as int + 10)
    else None
  }

  /** `int(text, 16)` of two characters: a blank or a sign may take the place of one digit. */
  function HexPair(a: char, b: char): Option<int> {
    match (HexDigit(a), HexDigit(b))
    case (Some(x), Some(y)) => Some(16 * x + y)
    case (Some(x), None) => if IsSpace(b) then Some(x) else None
    case (None, Some(y)) =>
      var value: int := y;
      var signed := if a == '-' then -value else value;
      if IsSpace(a) || a == '+' || a == '-' then Some(signed) else None
    case (None, None) => None
  }

  function AlphaEnd(source: string, i: nat): (r: nat)
    requires i <= |source|
    ensures i <= r <= |source| && (forall k | i <= k < r :: IsAlpha(source[k]))
    ensures r < |source| ==> !IsAlpha(source[r])
    decreases |source| - i
  {
    if i < |source| && IsAlpha(source[i]) then AlphaEnd(source, i + 1) else i
  }

  function DigitEnd(source: string, i: nat): (r: nat)
    requires i <= |source|
    ensures i <= r <= |source| && (forall k | i <= k < r :: IsDigit(source[k]))
    ensures r < |source| ==> !IsDigit(source[r])
    decreases |source| - i
  {
    if i < |source| && IsDigit(source[i]) then DigitEnd(source, i + 1) else i
  }

  function DecimalValue(digits: string): Option<nat> {
    if digits == "" then Some(0)
    else
      var last := digits[|digits| - 1];
      match DecimalValue(digits[..|digits| - 1])
      case Some(n) => if '0' <= last <= '9' then Some(10 * n + (last as int - '0' as int)) else None
      case None => None
  }

  // ----- control words -----

  datatype Word = Word(name: string, parameter: Option<int>, next: nat)

  predicate IsSign(source: string, i: nat) {
    i < |source| && (source[i] == '+' || source[i] == '-')
  }

  /** The control word whose letters start at i; a sign without digits is dropped. */
  function ReadWord(source: string, i: nat): (r: Result<Word, RtfError>)
    requires i <= |source|
    ensures r.Ok? ==> i <= r.value.next <= |source|
  {
    var wordEnd := AlphaEnd(source, i);
    var numberStart := if IsSign(source, wordEnd) then wordEnd + 1 else wordEnd;
    var numberEnd := DigitEnd(source, numberStart);
    var next := if numberEnd < |source| && source[numberEnd] == ' ' then numberEnd + 1 else numberEnd;
    if numberEnd == numberStart then Ok(Word(source[i..wordEnd], None, next))
    else
      match DecimalValue(source[numberStart..numberEnd])
      case None => Err(BadNumber)
      case Some(n) =>
        var negative := numberStart > wordEnd && source[wordEnd] == '-';
        var value: int := if negative then 0 - n else n;
        Ok(Word(source[i..wordEnd], Some(value), next))
  }

  const DESTINATIONS := {
    "author", "category", "colortbl", "comment", "company", "creatim", "doccomm",
    "filetbl", "fonttbl", "generator", "info", "keywords", "operator", "pict",
    "printim", "private", "revtim", "stylesheet", "subject", "title", "xmlnstbl",
    "object", "objdata", "datastore", "themedata" }

  function SpecialWord(name: string): Option<nat> {
    if name == "bullet" then Some(0x2022)
    else if name in {"cell", "tab"} then Some(0x9)
    else if name == "emdash" then Some(0x2014)
    else if name == "emspace" then Some(0x2003)
    else if name == "endash" then Some(0x2013)
    else if name == "enspace" then Some(0x2002)
    else if name in {"line", "page", "par", "row"} then Some(0xA)
    else if name == "lquote" then Some(0x2018)
    else if name == "qmspace" then Some(0x2005)
    else if name == "rquote" then Some(0x2019)
    else None
  }

  function NamedCodePage(name: string): Option<CodePage> {
    if name == "ansi" then Some(Cp(1252))
    else if name == "mac" then Some(MacRoman)
    else if name == "pc" then Some(Cp(437))
    else if name == "pca" then Some(Cp(850))
    else None
  }

  function Symbol(c: char): seq<nat> {
    if c == '~' then [0xA0] else if c == '-' then [0xAD] else if c == '_' then [0x2011] else []
  }

  /** Text that counts as one replacement character. */
  function Emit(index: nat, ctl: Control, text: seq<nat>): Move {
    if ctl.toSkip > 0 then Move(index, ctl.(toSkip := ctl.toSkip - 1), [])
    else Move(index, ctl, if ctl.skip then [] else text)
  }

  function Clamp(n: int): nat {
    if n < 0 then 0 else if n > 16 then 16 else n
  }

  /** What a control word does. */
  function Obey(w: Word, ctl: Control, size: nat, codecs: Codecs): Result<Move, RtfError> {
    if w.name in DESTINATIONS || ctl.ignorable then Ok(Move(w.next, ctl.(skip := true, ignorable := false), []))
    else if NamedCodePage(w.name).Some? then Ok(Move(w.next, ctl.(codepage := NamedCodePage(w.name).value), []))
    else if w.name == "ansicpg" && w.parameter.Some? then
      var codepage := if codecs.known(w.parameter.value) then Cp(w.parameter.value) else Cp(1252);
      Ok(Move(w.next, ctl.(codepage := codepage), []))
    else if w.name == "uc" && w.parameter.Some? then
      Ok(Move(w.next, ctl.(fallback := Clamp(w.parameter.value)), []))
    else if w.name == "u" && w.parameter.Some? then
      var point := if w.parameter.value < 0 then w.parameter.value + 65536 else w.parameter.value;
      if !(0 <= point <= 0x10FFFF) then Err(BadCodePoint)
      else Ok(Move(w.next, ctl.(toSkip := ctl.fallback), if ctl.skip then [] else [point]))
    else if w.name == "bin" && w.parameter.Some? then
      if w.parameter.value < 0 || w.next + w.parameter.value > size then Err(BadBinary)
      else Ok(Move(w.next + w.parameter.value, ctl, []))
    else if SpecialWord(w.name).Some? then Ok(Emit(w.next, ctl, [SpecialWord(w.name).value]))
    else Ok(Move(w.next, ctl, []))
  }

  // ----- one step -----

  function Escape(source: string, index: nat, ctl: Control, codecs: Codecs): (r: Result<Move, RtfError>)
    requires index < |source|
    ensures r.Ok? ==> index < r.value.index <= |source|
  {
    if index + 1 >= |source| then Err(TrailingEscape)
    else
      var c := source[index + 1];
      if c == '{' || c == '}' || c == '\\' then Ok(Emit(index + 2, ctl, [codecs.decode(ctl.codepage, c as int)]))
      else if c == '\'' then
        if index + 3 >= |source| then Err(TruncatedHex)
        else
          match HexPair(source[index + 2], source[index + 3])
          case None => Err(InvalidHex)
          case Some(value) =>
            if value < 0 && ctl.toSkip == 0 && !ctl.skip then Err(BadByte)
            else Ok(Emit(index + 4, ctl, [codecs.decode(ctl.codepage, value)]))
      else if c == '*' then Ok(Move(index + 2, ctl.(ignorable := true), []))
      else if !IsAlpha(c) then Ok(Emit(index + 2, ctl, Symbol(c)))
      else
        match ReadWord(source, index + 1)
        case Err(e) => Err(e)
        case Ok(w) => Obey(w, ctl, |source|, codecs)
  }

  function OpenGroup(ctl: Control): Control {
    ctl.(stack := ctl.stack + [Frame(ctl.skip, ctl.fallback, ctl.codepage, ctl.ignorable)], ignorable := false)
  }

  function CloseGroup(ctl: Control): Control
    requires ctl.stack != []
  {
    var f := ctl.stack[|ctl.stack| - 1];
    Control(ctl.stack[..|ctl.stack| - 1], f.skip, f.fallback, f.codepage, f.ignorable, ctl.toSkip)
  }

  function StepAt(source: string, index: nat, ctl: Control, codecs: Codecs): (r: Result<Move, RtfError>)
    requires index < |source|
    ensures r.Ok? ==> index < r.value.index <= |source|
  {
    var c := source[index];
    if c == '{' then
      if |ctl.stack| >= MAX_RTF_GROUP_DEPTH then Err(TooDeep) else Ok(Move(index + 1, OpenGroup(ctl), []))
    else if c == '}' then
      if ctl.stack == [] then Err(UnmatchedClose) else Ok(Move(index + 1, CloseGroup(ctl), []))
    else if c != '\\' then
      if ctl.toSkip == 0 && (c == '\r' || c == '\n') then Ok(Move(index + 1, ctl, []))
      else Ok(Emit(index + 1, ctl, [codecs.decode(ctl.codepage, c as int)]))
    else Escape(source, index, ctl, codecs)
  }

  // ----- direct emission -----

  /** The text so far, without any limit. */
  datatype State = State(index: nat, ctl: Control, text: seq<nat>)

  /** After n steps from the beginning, or at the end of the source. */
  function Steps(source: string, codecs: Codecs, n: nat): (r: Result<State, RtfError>)
    ensures r.Ok? ==> r.value.index <= |source| && (r.value.index == |source| || r.value.index >= n)
  {
    if n == 0 then Ok(State(0, START, []))
    else
      match Steps(source, codecs, n - 1)
      case Err(e) => Err(e)
      case Ok(s) =>
        if s.index >= |source| then Ok(s)
        else
          match StepAt(source, s.index, s.ctl, codecs)
          case Err(e) => Err(e)
          case Ok(m) => Ok(State(m.index, m.ctl, s.text + m.text))
  }

  function Take(text: seq<nat>, n: nat): seq<nat> {
    if |text| <= n then text else text[..n]
  }

  // ----- what the steps keep -----

  predicate Prefix(a: seq<nat>, b: seq<nat>) {
    |a| <= |b| && b[..|a|] == a
  }

  /** A later state only adds text, and an error stays. */
  lemma {:induction false} TextGrows(source: string, codecs: Codecs, n: nat, m: nat)
    requires n <= m && Steps(source, codecs, m).Ok?
    ensures Steps(source, codecs, n).Ok?
    ensures Prefix(Steps(source, codecs, n).value.text, Steps(source, codecs, m).value.text)
    decreases m
  {
    hide StepAt;
    if n < m {
      TextGrows(source, codecs, n, m - 1);
    }
  }

  lemma StepDepth(source: string, index: nat, ctl: Control, codecs: Codecs)
    requires index < |source| && StepAt(source, index, ctl, codecs).Ok?
    ensures var after := StepAt(source, index, ctl, codecs).value.ctl.stack;
            if source[index] == '{' then |ctl.stack| < MAX_RTF_GROUP_DEPTH && after == OpenGroup(ctl).stack
            else if source[index] == '}' then ctl.stack != [] && after == ctl.stack[..|ctl.stack| - 1]
            else after == ctl.stack
  {
    hide ReadWord, HexPair, IsAlpha, NamedCodePage, SpecialWord;
  }

  /** Group openings minus closings among the first n steps. An escaped or binary brace is no step of its own. */
  function Balance(source: string, codecs: Codecs, n: nat): int {
    if n == 0 then 0
    else
      match Steps(source, codecs, n - 1)
      case Err(_) => Balance(source, codecs, n - 1)
      case Ok(s) =>
        Balance(source, codecs, n - 1)
        + if s.index >= |source| then 0
          else if source[s.index] == '{' then 1 else if source[s.index] == '}' then -1 else 0
  }

  /** The stack is as deep as groups are open, and never deeper than the limit. */
  lemma {:induction false} DepthIsBalance(source: string, codecs: Codecs, n: nat)
    requires Steps(source, codecs, n).Ok?
    ensures 0 <= Balance(source, codecs, n) == |Steps(source, codecs, n).value.ctl.stack| <= MAX_RTF_GROUP_DEPTH
  {
    hide StepAt;
    if n > 0 {
      DepthIsBalance(source, codecs, n - 1);
      var s := Steps(source, codecs, n - 1).value;
      if s.index < |source| {
        StepDepth(source, s.index, s.ctl, codecs);
      }
    }
  }

  /** Nothing inside a skipped destination is emitted, and only a closing group ends the skipping. */
  lemma SkippedIsSilent(source: string, index: nat, ctl: Control, codecs: Codecs)
    requires index < |source| && ctl.skip && StepAt(source, index, ctl, codecs).Ok?
    ensures StepAt(source, index, ctl, codecs).value.text == []
    ensures source[index] != '}' ==> StepAt(source, index, ctl, codecs).value.ctl.skip
  {
    hide ReadWord, HexPair, IsAlpha, NamedCodePage, SpecialWord;
  }

  /** Step i opens a group that is still open after step k. */
  predicate Inside(source: string, codecs: Codecs, i: nat, k: nat)
    requires Steps(source, codecs, i).Ok?
    decreases k
  {
    if k <= i then
      var s := Steps(source, codecs, i).value;
      k == i && s.index < |source| && source[s.index] == '{'
    else
      Inside(source, codecs, i, k - 1) && Steps(source, codecs, k).Ok?
      && |Steps(source, codecs, k).value.ctl.stack| > |Steps(source, codecs, i).value.ctl.stack|
  }

  lemma StepStack(source: string, codecs: Codecs, k: nat)
    requires k > 0 && Steps(source, codecs, k).Ok?
    ensures Steps(source, codecs, k - 1).Ok?
    ensures var s := Steps(source, codecs, k - 1).value;
            var after := Steps(source, codecs, k).value.ctl.stack;
            if s.index < |source| && source[s.index] == '{' then after == OpenGroup(s.ctl).stack
            else if s.index < |source| && source[s.index] == '}'
            then s.ctl.stack != [] && after == s.ctl.stack[..|s.ctl.stack| - 1]
            else after == s.ctl.stack
  {
    hide StepAt;
    var s := Steps(source, codecs, k - 1).value;
    if s.index < |source| {
      StepDepth(source, s.index, s.ctl, codecs);
    }
  }

  /** Inside the group opened at step i, its frame lies on the stack unchanged. */
  lemma {:induction false} FrameStays(source: string, codecs: Codecs, i: nat, k: nat)
    requires i < k && Steps(source, codecs, i).Ok? && Inside(source, codecs, i, k)
    ensures Steps(source, codecs, k).Ok?
    ensures var s := Steps(source, codecs, i).value;
            var inner := Steps(source, codecs, k).value.ctl.stack;
            |inner| > |s.ctl.stack| && inner[..|s.ctl.stack| + 1] == OpenGroup(s.ctl).stack
  {
    hide Steps;
    StepStack(source, codecs, k);
    if k - 1 > i {
      FrameStays(source, codecs, i, k - 1);
    }
  }

  /** Groups are scopes: where the group opened at step i is closed, the destination, the code page, the
      fallback count and the pending star are again what they were before it. */
  lemma GroupIsScoped(source: string, codecs: Codecs, i: nat, j: nat)
    requires i < j && Steps(source, codecs, i).Ok? && Inside(source, codecs, i, j)
    requires Steps(source, codecs, j + 1).Ok?
    requires |Steps(source, codecs, j + 1).value.ctl.stack| == |Steps(source, codecs, i).value.ctl.stack|
    ensures var outer := Steps(source, codecs, i).value.ctl;
            var after := Steps(source, codecs, j + 1).value.ctl;
            after == outer.(toSkip := after.toSkip)
  {
    hide Steps, Inside, OpenGroup;
    FrameStays(source, codecs, i, j);
    StepStack(source, codecs, j + 1);
    OpenStack(Steps(source, codecs, i).value.ctl);
    OpenStack(Steps(source, codecs, j).value.ctl);
    CloseRestores(source, codecs, j, Steps(source, codecs, i).value.ctl);
  }

  lemma OpenStack(ctl: Control)
    ensures |OpenGroup(ctl).stack| == |ctl.stack| + 1
  {
  }

  lemma CloseRestores(source: string, codecs: Codecs, j: nat, outer: Control)
    requires Steps(source, codecs, j + 1).Ok? && Steps(source, codecs, j).Ok?
    requires var s := Steps(source, codecs, j).value;
             s.index < |source| && source[s.index] == '}' && s.ctl.stack == OpenGroup(outer).stack
    ensures var after := Steps(source, codecs, j + 1).value.ctl;
            after == outer.(toSkip := after.toSkip)
  {
    hide Escape, Emit;
  }
}
