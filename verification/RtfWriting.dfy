/** Writing RTF and reading it back: what the reader of module Rtf makes of well-formed pieces. */
module RtfWriting {
  import opened Wrappers
  import opened DocParser
  import opened Rtf
  import opened RtfReader

  // ----- numbers and control words -----

  function HexChar(n: nat, upper: bool): char
    requires n < 16
  {
    if upper then "0123456789ABCDEF"[n] else "0123456789abcdef"[n]
  }

  /** A byte written as two hexadecimal digits, large or small, is read as that byte. */
  lemma HexPairReads(b: nat, upper: bool)
    requires b < 256
    ensures HexPair(HexChar(b / 16, upper), HexChar(b % 16, upper)) == Some(b)
  {
    HexDigitReads(b / 16, upper);
    HexDigitReads(b % 16, upper);
  }

  lemma HexDigitReads(n: nat, upper: bool)
    requires n < 16
    ensures HexDigit(HexChar(n, upper)) == Some(n)
  {
  }

  /** What `int` takes for white space, as far as it can stand in Latin-1 text. */
  const BLANKS := {'\t', '\n', '\U{0B}', '\U{0C}', '\r', ' ', '\U{85}', '\U{A0}'}

  function Trimmed(s: string): string {
    if s == "" then ""
    else if s[0] in BLANKS then Trimmed(s[1..])
    else if s[|s| - 1] in BLANKS then Trimmed(s[..|s| - 1])
    else s
  }

  function HexValue(digits: string): Option<int> {
    if digits == "" then None
    else
      match HexDigit(digits[|digits| - 1])
      case None => None
      case Some(d) =>
        if |digits| == 1 then Some(d)
        else
          match HexValue(digits[..|digits| - 1])
          case None => None
          case Some(n) => Some(16 * n + d)
  }

  /** `int(text, 16)` of a text without prefix or underscore: blanks around it, a sign, digits. */
  function IntBase16(s: string): Option<int> {
    var t := Trimmed(s);
    if t != "" && t[0] == '+' then HexValue(t[1..])
    else if t != "" && t[0] == '-' then
      match HexValue(t[1..])
      case None => None
      case Some(n) => Some(-n)
    else HexValue(t)
  }

  lemma HexPairIsInt(a: char, b: char)
    ensures HexPair(a, b) == IntBase16([a, b])
  {
    hide Trimmed, HexDigit, BLANKS, IsSpace;
    SpacesAreBlanks(a);
    SpacesAreBlanks(b);
    TrimmedPair(a, b);
    hide HexValue;
    HexValuesOf(a, b);
    assert [a, b][1..] == [b] && [a][1..] == "" && [b][1..] == "";
  }

  lemma HexValueOne(c: char)
    ensures HexValue([c]) == match HexDigit(c) case None => None case Some(d) => Some(d)
  {
    hide HexDigit;
  }

  lemma HexValuesOf(a: char, b: char)
    ensures HexValue("") == None
    ensures HexValue([a]) == match HexDigit(a) case None => None case Some(d) => Some(d)
    ensures HexValue([b]) == match HexDigit(b) case None => None case Some(d) => Some(d)
    ensures HexValue([a, b])
            == if HexDigit(a).Some? && HexDigit(b).Some? then Some(16 * HexDigit(a).value + HexDigit(b).value)
               else None
  {
    hide HexDigit;
    HexValueOne(a);
    HexValueOne(b);
    assert [a, b][..1] == [a] && [a, b][1] == b;
  }

  lemma TrimmedOne(c: char)
    ensures Trimmed([c]) == if c in BLANKS then "" else [c]
  {
    hide BLANKS;
    assert [c][1..] == "";
  }

  lemma TrimmedPair(a: char, b: char)
    ensures Trimmed([a, b])
            == if a in BLANKS then (if b in BLANKS then "" else [b]) else if b in BLANKS then [a] else [a, b]
  {
    hide BLANKS;
    TrimmedOne(a);
    TrimmedOne(b);
    assert [a, b][1..] == [b] && [a, b][..1] == [a];
  }

  lemma SpacesAreBlanks(c: char)
    ensures IsSpace(c) <==> c in BLANKS
    ensures c in BLANKS ==> HexDigit(c) == None && c != '+' && c != '-'
    ensures c == '+' || c == '-' ==> HexDigit(c) == None
  {
  }

  lemma {:induction false} DecimalReads(n: nat)
    ensures DecimalValue(Decimal(n)) == Some(n)
  {
    var text := Decimal(n);
    if n >= 10 {
      DecimalReads(n / 10);
      assert text[..|text| - 1] == Decimal(n / 10);
    } else {
      assert text[..0] == "";
      assert DecimalValue(text[..0]) == Some(0);
    }
  }

  lemma {:induction false} AlphaEndIs(source: string, i: nat, end: nat)
    requires i <= end <= |source| && (forall k | i <= k < end :: IsAlpha(source[k]))
    requires end < |source| ==> !IsAlpha(source[end])
    ensures AlphaEnd(source, i) == end
    decreases end - i
  {
    if i < end {
      AlphaEndIs(source, i + 1, end);
    }
  }

  lemma {:induction false} DigitEndIs(source: string, i: nat, end: nat)
    requires i <= end <= |source| && (forall k | i <= k < end :: IsDigit(source[k]))
    requires end < |source| ==> !IsDigit(source[end])
    ensures DigitEnd(source, i) == end
    decreases end - i
  {
    if i < end {
      DigitEndIs(source, i + 1, end);
    }
  }

  function Signed(parameter: int): string {
    if parameter < 0 then "-" + Decimal(-parameter) else Decimal(parameter)
  }

  predicate Letters(name: string) {
    name != "" && forall i | 0 <= i < |name| :: 'a' <= name[i] <= 'z' || 'A' <= name[i] <= 'Z'
  }

  predicate LettersAt(source: string, i: nat, end: nat)
    requires end <= |source|
  {
    forall k | i <= k < end :: IsAlpha(source[k])
  }

  predicate DigitsAt(source: string, i: nat, end: nat)
    requires end <= |source|
  {
    forall k | i <= k < end :: '0' <= source[k] <= '9'
  }

  /** Letters, an optional minus, digits and a blank at their places. */
  lemma WordAt(source: string, i: nat, wordEnd: nat, numberStart: nat, numberEnd: nat, value: nat)
    requires i <= wordEnd <= numberStart < numberEnd < |source| && source[numberEnd] == ' '
    requires LettersAt(source, i, wordEnd) && DigitsAt(source, numberStart, numberEnd)
    requires numberStart == wordEnd || (numberStart == wordEnd + 1 && source[wordEnd] == '-')
    requires DecimalValue(source[numberStart..numberEnd]) == Some(value)
    ensures var parameter: int := value;
            ReadWord(source, i)
            == Ok(Word(source[i..wordEnd], Some(if numberStart > wordEnd then -parameter else parameter),
                       numberEnd + 1))
  {
    hide AlphaEnd, DigitEnd, DecimalValue;
    AlphaEndIs(source, i, wordEnd);
    DigitEndIs(source, numberStart, numberEnd);
  }

  lemma LettersInside(front: string, name: string, back: string)
    requires Letters(name)
    ensures LettersAt(front + name + back, |front|, |front| + |name|)
    ensures (front + name + back)[|front|..|front| + |name|] == name
  {
    var source := front + name + back;
    forall k | |front| <= k < |front| + |name| ensures IsAlpha(source[k]) {
      assert source[k] == name[k - |front|];
    }
  }

  lemma DigitsInside(front: string, n: nat, back: string)
    ensures DigitsAt(front + Decimal(n) + back, |front|, |front| + |Decimal(n)|)
    ensures (front + Decimal(n) + back)[|front|..|front| + |Decimal(n)|] == Decimal(n)
  {
    hide Decimal;
    var source := front + Decimal(n) + back;
    forall k | |front| <= k < |front| + |Decimal(n)| ensures '0' <= source[k] <= '9' {
      assert source[k] == Decimal(n)[k - |front|];
    }
  }

  lemma WordParts(before: string, name: string, sign: string, n: nat, after: string, source: string)
    requires Letters(name) && (sign == "" || sign == "-")
    requires source == before + name + sign + Decimal(n) + (" " + after)
    ensures var parameter: int := n;
            ReadWord(source, |before|)
            == Ok(Word(name, Some(if sign == "-" then -parameter else parameter),
                       |before| + |name| + |sign| + |Decimal(n)| + 1))
  {
    hide *;
    var front := before + name + sign;
    var tail := sign + (Decimal(n) + (" " + after));
    DecimalReads(n);
    SourceParts(before, name, sign, Decimal(n), after);
    LettersInside(before, name, tail);
    DigitsInside(front, n, " " + after);
    WordAt(source, |before|, |before| + |name|, |front|, |front| + |Decimal(n)|, n);
  }

  lemma SourceParts(before: string, name: string, sign: string, digits: string, after: string)
    requires (sign == "" || sign == "-") && digits != ""
    ensures var source := before + name + sign + digits + (" " + after);
            && source == before + name + (sign + (digits + (" " + after)))
            && (sign == "-" ==> source[|before| + |name|] == '-')
            && source[|before + name + sign| + |digits|] == ' '
  {
  }

  /** A control word with a parameter and its delimiting blank is read as written, and the blank is consumed. */
  lemma WordReads(before: string, name: string, parameter: int, after: string)
    requires Letters(name)
    ensures var source := before + name + Signed(parameter) + " " + after;
            ReadWord(source, |before|)
            == Ok(Word(name, Some(parameter), |before| + |name| + |Signed(parameter)| + 1))
  {
    hide Decimal, ReadWord, Letters;
    var source := before + name + Signed(parameter) + " " + after;
    if parameter < 0 {
      assert source == before + name + "-" + Decimal(-parameter) + (" " + after);
      WordParts(before, name, "-", -parameter, after, source);
    } else {
      assert source == before + name + "" + Decimal(parameter) + (" " + after);
      WordParts(before, name, "", parameter, after, source);
    }
  }

  /** The same for a word without a parameter. */
  lemma BareWordReads(before: string, name: string, after: string)
    requires Letters(name)
    ensures ReadWord(before + name + " " + after, |before|) == Ok(Word(name, None, |before| + |name| + 1))
  {
    hide AlphaEnd, DigitEnd, DecimalValue, Letters, LettersAt;
    var source := before + name + " " + after;
    var end := |before| + |name|;
    assert source == before + name + (" " + after);
    LettersInside(before, name, " " + after);
    BareWordAt(source, |before|, end);
  }

  lemma BareWordAt(source: string, i: nat, end: nat)
    requires i <= end < |source| && LettersAt(source, i, end) && source[end] == ' '
    ensures ReadWord(source, i) == Ok(Word(source[i..end], None, end + 1))
  {
    hide AlphaEnd, DigitEnd, DecimalValue;
    AlphaEndIs(source, i, end);
    DigitEndIs(source, end, end);
  }

  lemma WordStep(source: string, index: nat, ctl: Control, codecs: Codecs)
    requires index + 1 < |source| && source[index] == '\\' && IsAlpha(source[index + 1])
    requires ReadWord(source, index + 1).Ok?
    ensures StepAt(source, index, ctl, codecs)
            == Obey(ReadWord(source, index + 1).value, ctl, |source|, codecs)
  {
    hide Obey, ReadWord;
  }

  lemma FirstLetter(before: string, name: string, after: string)
    requires Letters(name)
    ensures IsAlpha((before + name + after)[|before|])
  {
    assert IsAlpha(name[0]);
  }

  /** A step at a control word with a parameter. */
  lemma WordIsObeyed(before: string, name: string, parameter: int, after: string, ctl: Control, codecs: Codecs)
    requires Letters(name)
    ensures var source := before + "\\" + name + Signed(parameter) + " " + after;
            var next := |before| + |name| + |Signed(parameter)| + 2;
            StepAt(source, |before|, ctl, codecs) == Obey(Word(name, Some(parameter), next), ctl, |source|, codecs)
  {
    hide *;
    var front := before + "\\";
    var source := front + name + Signed(parameter) + " " + after;
    WordReads(front, name, parameter, after);
    assert source == front + name + (Signed(parameter) + " " + after);
    FirstLetter(front, name, Signed(parameter) + " " + after);
    assert source[|before|] == '\\';
    NameIsThere(name);
    WordStep(source, |before|, ctl, codecs);
  }

  lemma NameIsThere(name: string)
    requires Letters(name)
    ensures |name| > 0
  {
  }

  /** A step at a control word without one. */
  lemma BareWordIsObeyed(before: string, name: string, after: string, ctl: Control, codecs: Codecs)
    requires Letters(name)
    ensures var source := before + "\\" + name + " " + after;
            StepAt(source, |before|, ctl, codecs)
            == Obey(Word(name, None, |before| + |name| + 2), ctl, |source|, codecs)
  {
    hide *;
    var front := before + "\\";
    var source := front + name + " " + after;
    BareWordReads(front, name, after);
    assert source == front + name + (" " + after);
    FirstLetter(front, name, " " + after);
    assert source[|before|] == '\\';
    NameIsThere(name);
    WordStep(source, |before|, ctl, codecs);
  }

  // ----- documents -----

  /** What a writer can put in a document between the groups. */
  datatype Piece =
    | Plain(c: char)                        // one byte as itself
    | Quoted(c: char)                       // \{, \} and \\
    | Byte(b: nat, upper: bool)             // \'xx, with large or small letters
    | Unicode(point: nat, signed: bool)     // \uN, as a signed 16-bit number if asked, with its replacements
    | Sign(c: char)                         // \~, \- and \_
    | Named(name: string)                   // \emdash and its like
    | Fallback(count: int)                  // \ucN
    | Page(name: string)                    // \mac and its like
    | PageNumber(n: int)                    // \ansicpgN
    | Break(c: char)                        // a line break of the file, which is none of the text
    | Binary(payload: string)               // \binN and N bytes of any kind

  datatype Head = Visible | Hidden(name: string) | Starred(name: string)

  datatype Document = End | Then(piece: Piece, rest: Document) | Group(head: Head, inner: Document, rest: Document)

  /** What a group may change inside it. */
  datatype Style = Style(codepage: CodePage, fallback: nat)

  const NAMED := map[
    "bullet" := 0x2022, "cell" := 0x9, "tab" := 0x9, "emdash" := 0x2014, "emspace" := 0x2003, "endash" := 0x2013,
    "enspace" := 0x2002, "line" := 0xA, "page" := 0xA, "par" := 0xA, "row" := 0xA, "lquote" := 0x2018,
    "qmspace" := 0x2005, "rquote" := 0x2019]

  const HIDDEN := {
    "author", "category", "colortbl", "comment", "company", "creatim", "datastore", "doccomm", "filetbl", "fonttbl",
    "generator", "info", "keywords", "objdata", "object", "operator", "pict", "printim", "private", "revtim",
    "stylesheet", "subject", "themedata", "title", "xmlnstbl" }

  const PAGES := map["ansi" := Cp(1252), "mac" := MacRoman, "pc" := Cp(437), "pca" := Cp(850)]

  predicate Writable(piece: Piece) {
    match piece
    case Plain(c) => c as int < 256 && c !in {'\\', '{', '}', '\r', '\n'}
    case Quoted(c) => c in {'\\', '{', '}'}
    case Byte(b, _) => b < 256
    case Unicode(point, signed) => point <= 0x10FFFF && (signed ==> 0x8000 <= point <= 0xFFFF)
    case Sign(c) => c in {'~', '-', '_'}
    case Named(name) => name in NAMED
    case Page(name) => name in PAGES
    case Break(c) => c in {'\r', '\n'}
    case _ => true
  }

  predicate WritableHead(head: Head) {
    match head
    case Visible => true
    case Hidden(name) => name in HIDDEN && Letters(name)
    case Starred(name) => Letters(name)
  }

  predicate WritableAll(d: Document) {
    match d
    case End => true
    case Then(piece, rest) => Writable(piece) && WritableAll(rest)
    case Group(head, inner, rest) => WritableHead(head) && WritableAll(inner) && WritableAll(rest)
  }

  function Depth(d: Document): nat {
    match d
    case End => 0
    case Then(_, rest) => Depth(rest)
    case Group(_, inner, rest) => if Depth(inner) + 1 > Depth(rest) then Depth(inner) + 1 else Depth(rest)
  }

  function Questions(n: nat): string {
    seq(n, _ => '?')
  }

  function TextOf(piece: Piece, style: Style): string {
    match piece
    case Plain(c) => [c]
    case Quoted(c) => ['\\', c]
    case Byte(b, upper) => if b < 256 then ['\\', '\'', HexChar(b / 16, upper), HexChar(b % 16, upper)] else ""
    case Unicode(point, signed) =>
      "\\u" + Signed(if signed then point - 65536 else point) + " " + Questions(style.fallback)
    case Sign(c) => ['\\', c]
    case Named(name) => "\\" + name + " "
    case Fallback(count) => "\\uc" + Signed(count) + " "
    case Page(name) => "\\" + name + " "
    case PageNumber(n) => "\\ansicpg" + Signed(n) + " "
    case Break(c) => [c]
    case Binary(payload) => "\\bin" + Signed(|payload|) + " " + payload
  }

  function HeadText(head: Head): string {
    match head
    case Visible => "{"
    case Hidden(name) => "{\\" + name + " "
    case Starred(name) => "{\\*\\" + name + " "
  }

  function Styled(piece: Piece, style: Style, codecs: Codecs): Style {
    match piece
    case Fallback(count) => style.(fallback := if count < 0 then 0 else if count > 16 then 16 else count)
    case Page(name) => if name in PAGES then style.(codepage := PAGES[name]) else style
    case PageNumber(n) => style.(codepage := if codecs.known(n) then Cp(n) else Cp(1252))
    case _ => style
  }

  /** What a reader should make of a piece. */
  function Meant(piece: Piece, style: Style, codecs: Codecs): seq<nat> {
    match piece
    case Plain(c) => [codecs.decode(style.codepage, c as int)]
    case Quoted(c) => [codecs.decode(style.codepage, c as int)]
    case Byte(b, _) => [codecs.decode(style.codepage, b)]
    case Unicode(point, _) => [point]
    case Sign(c) => [if c == '~' then 0xA0 else if c == '-' then 0xAD else 0x2011]
    case Named(name) => if name in NAMED then [NAMED[name]] else []
    case _ => []
  }

  function Written(d: Document, style: Style, codecs: Codecs): string {
    match d
    case End => ""
    case Then(piece, rest) => TextOf(piece, style) + Written(rest, Styled(piece, style, codecs), codecs)
    case Group(head, inner, rest) =>
      HeadText(head) + Written(inner, style, codecs) + "}" + Written(rest, style, codecs)
  }

  /** What a reader should make of a document: a group keeps its style to itself, and a hidden one its text. */
  function MeantBy(d: Document, style: Style, codecs: Codecs): seq<nat> {
    match d
    case End => []
    case Then(piece, rest) => Meant(piece, style, codecs) + MeantBy(rest, Styled(piece, style, codecs), codecs)
    case Group(head, inner, rest) =>
      (if head == Visible then MeantBy(inner, style, codecs) else []) + MeantBy(rest, style, codecs)
  }

  function LastStyle(d: Document, style: Style, codecs: Codecs): Style {
    match d
    case End => style
    case Then(piece, rest) => LastStyle(rest, Styled(piece, style, codecs), codecs)
    case Group(_, _, rest) => LastStyle(rest, style, codecs)
  }

  // ----- one piece -----

  /** The machine between two pieces. */
  function Between(stack: seq<Frame>, skip: bool, style: Style): Control {
    Control(stack, skip, style.fallback, style.codepage, false, 0)
  }

  function Shown(skip: bool, text: seq<nat>): seq<nat> {
    if skip then [] else text
  }

  ghost predicate Reaches(source: string, codecs: Codecs, s: State) {
    exists n: nat :: Steps(source, codecs, n) == Ok(s)
  }

  lemma Advance(source: string, codecs: Codecs, s: State, m: Move)
    requires Reaches(source, codecs, s) && s.index < |source|
    requires StepAt(source, s.index, s.ctl, codecs) == Ok(m)
    ensures Reaches(source, codecs, State(m.index, m.ctl, s.text + m.text))
  {
    hide StepAt;
    var n: nat :| Steps(source, codecs, n) == Ok(s);
    assert Steps(source, codecs, n + 1) == Ok(State(m.index, m.ctl, s.text + m.text));
  }

  /** A single character that is neither a brace nor a backslash. */
  lemma PlainStep(before: string, c: char, after: string, ctl: Control, codecs: Codecs)
    requires c !in {'\\', '{', '}', '\r', '\n'} && ctl.toSkip == 0
    ensures StepAt(before + [c] + after, |before|, ctl, codecs)
            == Ok(Move(|before| + 1, ctl, Shown(ctl.skip, [codecs.decode(ctl.codepage, c as int)])))
  {
    hide Escape;
    assert (before + [c] + after)[|before|] == c;
  }

  lemma BreakStep(before: string, c: char, after: string, ctl: Control, codecs: Codecs)
    requires c in {'\r', '\n'} && ctl.toSkip == 0
    ensures StepAt(before + [c] + after, |before|, ctl, codecs) == Ok(Move(|before| + 1, ctl, []))
  {
    hide Escape;
    assert (before + [c] + after)[|before|] == c;
  }

  lemma QuotedStep(before: string, c: char, after: string, ctl: Control, codecs: Codecs)
    requires c in {'\\', '{', '}'} && ctl.toSkip == 0
    ensures StepAt(before + ['\\', c] + after, |before|, ctl, codecs)
            == Ok(Move(|before| + 2, ctl, Shown(ctl.skip, [codecs.decode(ctl.codepage, c as int)])))
  {
    hide ReadWord, HexPair;
    var source := before + ['\\', c] + after;
    assert source[|before|] == '\\' && source[|before| + 1] == c;
  }

  lemma SignStep(before: string, c: char, after: string, ctl: Control, codecs: Codecs)
    requires c in {'~', '-', '_'} && ctl.toSkip == 0
    ensures StepAt(before + ['\\', c] + after, |before|, ctl, codecs)
            == Ok(Move(|before| + 2, ctl, Shown(ctl.skip, Meant(Sign(c), Style(ctl.codepage, ctl.fallback), codecs))))
  {
    hide ReadWord, HexPair;
    var source := before + ['\\', c] + after;
    assert source[|before|] == '\\' && source[|before| + 1] == c;
  }

  /** A byte written as a hexadecimal escape is decoded under the current code page, whatever byte it is. */
  lemma HexEscapeEmits(before: string, b: nat, upper: bool, after: string, ctl: Control, codecs: Codecs)
    requires b < 256 && ctl.toSkip == 0
    ensures StepAt(before + ['\\', '\'', HexChar(b / 16, upper), HexChar(b % 16, upper)] + after, |before|, ctl, codecs)
            == Ok(Move(|before| + 4, ctl, Shown(ctl.skip, [codecs.decode(ctl.codepage, b)])))
  {
    hide HexPair, HexChar;
    var written := ['\\', '\'', HexChar(b / 16, upper), HexChar(b % 16, upper)];
    var source := before + written + after;
    HexPairReads(b, upper);
    assert source[|before|..|before| + 4] == written;
    assert source[|before|] == written[0] && source[|before| + 1] == written[1];
    assert source[|before| + 2] == written[2] && source[|before| + 3] == written[3];
  }

  /** Replacement characters that are awaited are dropped. */
  lemma {:induction false} QuestionsAreDropped(source: string, codecs: Codecs, before: string, n: nat, after: string,
                                               ctl: Control, text: seq<nat>)
    requires source == before + Questions(n) + after && ctl.toSkip == n
    requires Reaches(source, codecs, State(|before|, ctl, text))
    ensures Reaches(source, codecs, State(|before| + n, ctl.(toSkip := 0), text))
    decreases n
  {
    hide StepAt, Reaches;
    if n > 0 {
      assert source == (before + "?") + Questions(n - 1) + after;
      QuestionStep(source, |before|, ctl, codecs);
      Advance(source, codecs, State(|before|, ctl, text), Move(|before| + 1, ctl.(toSkip := n - 1), []));
      assert text + [] == text;
      QuestionsAreDropped(source, codecs, before + "?", n - 1, after, ctl.(toSkip := n - 1), text);
    }
  }

  lemma QuestionStep(source: string, index: nat, ctl: Control, codecs: Codecs)
    requires index < |source| && source[index] == '?' && ctl.toSkip > 0
    ensures StepAt(source, index, ctl, codecs) == Ok(Move(index + 1, ctl.(toSkip := ctl.toSkip - 1), []))
  {
    hide Escape;
  }

  // ----- control words -----

  lemma UnicodeIsObeyed(point: nat, signed: bool, next: nat, size: nat, ctl: Control, codecs: Codecs)
    requires Writable(Unicode(point, signed)) && !ctl.ignorable
    ensures Obey(Word("u", Some(if signed then point - 65536 else point), next), ctl, size, codecs)
            == Ok(Move(next, ctl.(toSkip := ctl.fallback), Shown(ctl.skip, [point])))
  {
    assert "u" !in DESTINATIONS && NamedCodePage("u") == None;
  }

  lemma FallbackIsObeyed(count: int, next: nat, size: nat, ctl: Control, codecs: Codecs)
    requires !ctl.ignorable
    ensures Obey(Word("uc", Some(count), next), ctl, size, codecs)
            == Ok(Move(next, ctl.(fallback := if count < 0 then 0 else if count > 16 then 16 else count), []))
  {
    assert "uc" !in DESTINATIONS && NamedCodePage("uc") == None;
  }

  lemma PageNumberIsObeyed(n: int, next: nat, size: nat, ctl: Control, codecs: Codecs)
    requires !ctl.ignorable
    ensures Obey(Word("ansicpg", Some(n), next), ctl, size, codecs)
            == Ok(Move(next, ctl.(codepage := if codecs.known(n) then Cp(n) else Cp(1252)), []))
  {
    assert "ansicpg" !in DESTINATIONS && NamedCodePage("ansicpg") == None;
  }

  lemma BinaryIsObeyed(n: nat, next: nat, size: nat, ctl: Control, codecs: Codecs)
    requires !ctl.ignorable && next + n <= size
    ensures Obey(Word("bin", Some(n), next), ctl, size, codecs) == Ok(Move(next + n, ctl, []))
  {
    assert "bin" !in DESTINATIONS && NamedCodePage("bin") == None;
  }

  lemma PageIsObeyed(name: string, next: nat, size: nat, ctl: Control, codecs: Codecs)
    requires name in PAGES && !ctl.ignorable
    ensures Letters(name)
    ensures Obey(Word(name, None, next), ctl, size, codecs) == Ok(Move(next, ctl.(codepage := PAGES[name]), []))
  {
    assert name in {"ansi", "mac", "pc", "pca"};
    assert name !in DESTINATIONS;
  }

  lemma NamedIsLetters(name: string)
    requires name in NAMED
    ensures Letters(name)
  {
  }

  /** The first two letters tell the words for characters from the destinations. */
  predicate StartsLikeNamed(name: string) {
    |name| >= 2
    && (name[0] in {'b', 'e', 'l', 'q'} || (name[0] in {'t', 'p'} && name[1] == 'a')
        || (name[0] == 'c' && name[1] == 'e') || (name[0] == 'r' && name[1] in {'o', 'q'}))
  }

  lemma NamedStart(name: string)
    requires name in NAMED
    ensures StartsLikeNamed(name)
  {
  }

  lemma DestinationStart(name: string)
    requires name in DESTINATIONS
    ensures !StartsLikeNamed(name)
  {
  }

  lemma NamedIsSpecial(name: string)
    requires name in NAMED
    ensures NamedCodePage(name) == None && SpecialWord(name) == Some(NAMED[name])
  {
  }

  lemma NamedIsObeyed(name: string, next: nat, size: nat, ctl: Control, codecs: Codecs)
    requires name in NAMED && !ctl.ignorable && ctl.toSkip == 0
    ensures Obey(Word(name, None, next), ctl, size, codecs) == Ok(Move(next, ctl, Shown(ctl.skip, [NAMED[name]])))
  {
    hide NamedCodePage, SpecialWord, StartsLikeNamed;
    hide DESTINATIONS, NAMED;
    NamedIsSpecial(name);
    NamedStart(name);
    if name in DESTINATIONS {
      DestinationStart(name);
    }
  }

  lemma HiddenIsObeyed(name: string, next: nat, size: nat, ctl: Control, codecs: Codecs)
    requires name in DESTINATIONS || ctl.ignorable
    ensures Obey(Word(name, None, next), ctl, size, codecs)
            == Ok(Move(next, ctl.(skip := true, ignorable := false), []))
  {
  }

  // ----- from piece to piece -----

  lemma CharacterStep(before: string, piece: Piece, after: string, stack: seq<Frame>, skip: bool, style: Style,
                      codecs: Codecs)
    requires Writable(piece)
    requires piece.Plain? || piece.Quoted? || piece.Byte? || piece.Sign? || piece.Break?
    ensures StepAt(before + TextOf(piece, style) + after, |before|, Between(stack, skip, style), codecs)
            == Ok(Move(|before| + |TextOf(piece, style)|, Between(stack, skip, Styled(piece, style, codecs)),
                       Shown(skip, Meant(piece, style, codecs))))
  {
    hide StepAt, HexChar;
    var ctl := Between(stack, skip, style);
    match piece
    case Plain(c) => PlainStep(before, c, after, ctl, codecs);
    case Quoted(c) => QuotedStep(before, c, after, ctl, codecs);
    case Byte(b, upper) => HexEscapeEmits(before, b, upper, after, ctl, codecs);
    case Sign(c) => SignStep(before, c, after, ctl, codecs);
    case Break(c) => BreakStep(before, c, after, ctl, codecs);
  }

  lemma FallbackStep(before: string, count: int, after: string, stack: seq<Frame>, skip: bool, style: Style,
                     codecs: Codecs)
    ensures var piece := Fallback(count);
            StepAt(before + TextOf(piece, style) + after, |before|, Between(stack, skip, style), codecs)
            == Ok(Move(|before| + |TextOf(piece, style)|, Between(stack, skip, Styled(piece, style, codecs)), []))
  {
    hide StepAt, Obey, Signed;
    var ctl := Between(stack, skip, style);
    var written := TextOf(Fallback(count), style);
    var source := before + written + after;
    ParameterLayout(before, "uc", count, after, written);
    WordIsObeyed(before, "uc", count, after, ctl, codecs);
    FallbackIsObeyed(count, |before| + |written|, |source|, ctl, codecs);
  }

  lemma PageNumberStep(before: string, n: int, after: string, stack: seq<Frame>, skip: bool, style: Style,
                       codecs: Codecs)
    ensures var piece := PageNumber(n);
            StepAt(before + TextOf(piece, style) + after, |before|, Between(stack, skip, style), codecs)
            == Ok(Move(|before| + |TextOf(piece, style)|, Between(stack, skip, Styled(piece, style, codecs)), []))
  {
    hide StepAt, Obey, Signed;
    var ctl := Between(stack, skip, style);
    var written := TextOf(PageNumber(n), style);
    var source := before + written + after;
    ParameterLayout(before, "ansicpg", n, after, written);
    WordIsObeyed(before, "ansicpg", n, after, ctl, codecs);
    PageNumberIsObeyed(n, |before| + |written|, |source|, ctl, codecs);
  }

  lemma ParameterLayout(before: string, name: string, parameter: int, after: string, written: string)
    requires written == "\\" + name + Signed(parameter) + " "
    ensures before + written + after == before + "\\" + name + Signed(parameter) + " " + after
    ensures |written| == |name| + |Signed(parameter)| + 2
  {
    hide Signed;
  }

  lemma NameLayout(before: string, name: string, after: string, written: string)
    requires written == "\\" + name + " "
    ensures before + written + after == before + "\\" + name + " " + after
    ensures |written| == |name| + 2
  {
  }

  lemma BinaryStep(before: string, payload: string, after: string, stack: seq<Frame>, skip: bool, style: Style,
                   codecs: Codecs)
    ensures var written := TextOf(Binary(payload), style);
            StepAt(before + written + after, |before|, Between(stack, skip, style), codecs)
            == Ok(Move(|before| + |written|, Between(stack, skip, style), []))
  {
    hide StepAt, Obey, Signed;
    var ctl := Between(stack, skip, style);
    var written := TextOf(Binary(payload), style);
    var source := before + written + after;
    assert source == before + "\\" + "bin" + Signed(|payload|) + " " + (payload + after);
    WordIsObeyed(before, "bin", |payload|, payload + after, ctl, codecs);
    BinaryIsObeyed(|payload|, |before| + |written| - |payload|, |source|, ctl, codecs);
  }

  lemma NameStep(before: string, piece: Piece, after: string, stack: seq<Frame>, skip: bool, style: Style,
                 codecs: Codecs)
    requires Writable(piece) && (piece.Named? || piece.Page?)
    ensures StepAt(before + TextOf(piece, style) + after, |before|, Between(stack, skip, style), codecs)
            == Ok(Move(|before| + |TextOf(piece, style)|, Between(stack, skip, Styled(piece, style, codecs)),
                       Shown(skip, Meant(piece, style, codecs))))
  {
    hide StepAt, Obey, Letters;
    hide NAMED, PAGES;
    var ctl := Between(stack, skip, style);
    var source := before + TextOf(piece, style) + after;
    var next := |before| + |TextOf(piece, style)|;
    if piece.Named? {
      NamedIsLetters(piece.name);
      NamedIsObeyed(piece.name, next, |source|, ctl, codecs);
    } else {
      PageIsObeyed(piece.name, next, |source|, ctl, codecs);
    }
    NameLayout(before, piece.name, after, TextOf(piece, style));
    BareWordIsObeyed(before, piece.name, after, ctl, codecs);
  }

  lemma PieceStep(before: string, piece: Piece, after: string, stack: seq<Frame>, skip: bool, style: Style,
                  codecs: Codecs)
    requires Writable(piece) && !piece.Unicode?
    ensures StepAt(before + TextOf(piece, style) + after, |before|, Between(stack, skip, style), codecs)
            == Ok(Move(|before| + |TextOf(piece, style)|, Between(stack, skip, Styled(piece, style, codecs)),
                       Shown(skip, Meant(piece, style, codecs))))
  {
    hide StepAt, Between, TextOf, Writable;
    match piece {
      case Fallback(count) => FallbackStep(before, count, after, stack, skip, style, codecs);
      case PageNumber(n) => PageNumberStep(before, n, after, stack, skip, style, codecs);
      case Named(_) => NameStep(before, piece, after, stack, skip, style, codecs);
      case Page(_) => NameStep(before, piece, after, stack, skip, style, codecs);
      case Binary(payload) => BinaryStep(before, payload, after, stack, skip, style, codecs);
      case _ => CharacterStep(before, piece, after, stack, skip, style, codecs);
    }
  }

  lemma UnicodeLayout(before: string, parameter: int, questions: string, after: string)
    ensures var word := "\\u" + Signed(parameter) + " ";
            && before + (word + questions) + after
               == before + "\\" + "u" + Signed(parameter) + " " + (questions + after)
            && before + (word + questions) + after == (before + word) + questions + after
            && |before + word| == |before| + |"u"| + |Signed(parameter)| + 2
            && |before + (word + questions)| == |before + word| + |questions|
  {
    hide Signed;
    assert "\\u" == "\\" + "u";
  }

  lemma UnicodeRuns(source: string, codecs: Codecs, before: string, piece: Piece, after: string, stack: seq<Frame>,
                    skip: bool, style: Style, text: seq<nat>)
    requires piece.Unicode? && Writable(piece) && source == before + TextOf(piece, style) + after
    requires Reaches(source, codecs, State(|before|, Between(stack, skip, style), text))
    ensures Reaches(source, codecs,
                    State(|before + TextOf(piece, style)|, Between(stack, skip, style),
                          text + Shown(skip, [piece.point])))
  {
    hide StepAt, Obey, Signed, Reaches, Questions, Writable, Shown;
    var ctl := Between(stack, skip, style);
    var parameter := if piece.signed then piece.point - 65536 else piece.point;
    var questions := Questions(style.fallback);
    var word := "\\u" + Signed(parameter) + " ";
    assert TextOf(piece, style) == word + questions;
    UnicodeLayout(before, parameter, questions, after);
    UnicodeWordRuns(source, codecs, before, piece, questions + after, ctl, text);
    var awaiting := ctl.(toSkip := style.fallback);
    QuestionsAreDropped(source, codecs, before + word, style.fallback, after, awaiting,
                        text + Shown(skip, [piece.point]));
    assert awaiting.(toSkip := 0) == ctl;
    QuestionsLength(style.fallback);
  }

  lemma UnicodeWordRuns(source: string, codecs: Codecs, before: string, piece: Piece, after: string, ctl: Control,
                        text: seq<nat>)
    requires piece.Unicode? && Writable(piece) && !ctl.ignorable
    requires var parameter := if piece.signed then piece.point - 65536 else piece.point;
             source == before + "\\" + "u" + Signed(parameter) + " " + after
    requires Reaches(source, codecs, State(|before|, ctl, text))
    ensures var parameter := if piece.signed then piece.point - 65536 else piece.point;
            Reaches(source, codecs,
                    State(|before + ("\\u" + Signed(parameter) + " ")|, ctl.(toSkip := ctl.fallback),
                          text + Shown(ctl.skip, [piece.point])))
  {
    hide *;
    var parameter := if piece.signed then piece.point - 65536 else piece.point;
    var next := |before| + |"u"| + |Signed(parameter)| + 2;
    UnicodeLayout(before, parameter, "", after);
    LetterU();
    WordIsObeyed(before, "u", parameter, after, ctl, codecs);
    UnicodeIsObeyed(piece.point, piece.signed, next, |source|, ctl, codecs);
    Advance(source, codecs, State(|before|, ctl, text),
            Move(next, ctl.(toSkip := ctl.fallback), Shown(ctl.skip, [piece.point])));
  }

  lemma LetterU()
    ensures Letters("u")
  {
  }

  lemma QuestionsLength(n: nat)
    ensures |Questions(n)| == n
  {
  }

  lemma PieceRuns(source: string, codecs: Codecs, before: string, piece: Piece, after: string, stack: seq<Frame>,
                  skip: bool, style: Style, text: seq<nat>)
    requires Writable(piece) && source == before + TextOf(piece, style) + after
    requires Reaches(source, codecs, State(|before|, Between(stack, skip, style), text))
    ensures Reaches(source, codecs,
                    State(|before + TextOf(piece, style)|, Between(stack, skip, Styled(piece, style, codecs)),
                          text + Shown(skip, Meant(piece, style, codecs))))
  {
    hide StepAt, Reaches, Writable, Shown, Between;
    if piece.Unicode? {
      UnicodeRuns(source, codecs, before, piece, after, stack, skip, style, text);
    } else {
      PieceStep(before, piece, after, stack, skip, style, codecs);
      TextIsThere(piece, style);
      Advance(source, codecs, State(|before|, Between(stack, skip, style), text),
              Move(|before| + |TextOf(piece, style)|, Between(stack, skip, Styled(piece, style, codecs)),
                   Shown(skip, Meant(piece, style, codecs))));
    }
  }

  lemma TextIsThere(piece: Piece, style: Style)
    requires Writable(piece)
    ensures |TextOf(piece, style)| > 0
  {
    hide Signed;
  }

  // ----- groups -----

  /** A group starts out as what is around it, but a star waits outside. */
  lemma OpenStep(before: string, after: string, ctl: Control, codecs: Codecs)
    requires |ctl.stack| < 1_000
    ensures StepAt(before + "{" + after, |before|, ctl, codecs)
            == Ok(Move(|before| + 1,
                       Control(ctl.stack + [Frame(ctl.skip, ctl.fallback, ctl.codepage, ctl.ignorable)],
                               ctl.skip, ctl.fallback, ctl.codepage, false, ctl.toSkip),
                       []))
  {
    hide Escape;
  }

  lemma StarStep(before: string, after: string, ctl: Control, codecs: Codecs)
    ensures StepAt(before + "\\*" + after, |before|, ctl, codecs)
            == Ok(Move(|before| + 2, ctl.(ignorable := true), []))
  {
    hide ReadWord, HexPair;
    var source := before + "\\*" + after;
    assert source[|before|] == '\\' && source[|before| + 1] == '*';
  }

  lemma CloseStep(before: string, after: string, stack: seq<Frame>, skip: bool, style: Style, inner: Control,
                  codecs: Codecs)
    requires inner.stack == stack + [Frame(skip, style.fallback, style.codepage, false)] && inner.toSkip == 0
    ensures StepAt(before + "}" + after, |before|, inner, codecs)
            == Ok(Move(|before| + 1, Between(stack, skip, style), []))
  {
    hide Escape;
    assert inner.stack[..|inner.stack| - 1] == stack;
  }

  function Pushed(stack: seq<Frame>, skip: bool, style: Style): seq<Frame> {
    stack + [Frame(skip, style.fallback, style.codepage, false)]
  }

  /** The opening brace. */
  lemma BraceRuns(source: string, codecs: Codecs, before: string, after: string, stack: seq<Frame>, skip: bool,
                  style: Style, text: seq<nat>)
    requires source == before + "{" + after && |stack| < 1_000
    requires Reaches(source, codecs, State(|before|, Between(stack, skip, style), text))
    ensures Reaches(source, codecs, State(|before| + 1, Between(Pushed(stack, skip, style), skip, style), text))
  {
    hide StepAt, Reaches;
    var ctl := Between(stack, skip, style);
    OpenStep(before, after, ctl, codecs);
    assert OpenGroup(ctl) == Between(Pushed(stack, skip, style), skip, style);
    Advance(source, codecs, State(|before|, ctl, text), Move(|before| + 1, OpenGroup(ctl), []));
    assert text + [] == text;
  }

  lemma HiddenIsDestination(name: string)
    requires name in HIDDEN
    ensures name in DESTINATIONS
  {
  }

  /** A control word that hides the rest of its group. */
  lemma HidingRuns(source: string, codecs: Codecs, before: string, name: string, after: string, ctl: Control,
                   text: seq<nat>)
    requires source == before + "\\" + name + " " + after && Letters(name)
    requires name in DESTINATIONS || ctl.ignorable
    requires Reaches(source, codecs, State(|before|, ctl, text))
    ensures Reaches(source, codecs,
                    State(|before| + |name| + 2, ctl.(skip := true, ignorable := false), text))
  {
    hide *;
    BareWordIsObeyed(before, name, after, ctl, codecs);
    HiddenIsObeyed(name, |before| + |name| + 2, |source|, ctl, codecs);
    Advance(source, codecs, State(|before|, ctl, text),
            Move(|before| + |name| + 2, ctl.(skip := true, ignorable := false), []));
    assert text + [] == text;
  }

  lemma StarRuns(source: string, codecs: Codecs, before: string, after: string, ctl: Control, text: seq<nat>)
    requires source == before + "\\*" + after
    requires Reaches(source, codecs, State(|before|, ctl, text))
    ensures Reaches(source, codecs, State(|before| + 2, ctl.(ignorable := true), text))
  {
    hide *;
    StarStep(before, after, ctl, codecs);
    Advance(source, codecs, State(|before|, ctl, text), Move(|before| + 2, ctl.(ignorable := true), []));
    assert text + [] == text;
  }

  lemma HiddenLayout(before: string, name: string, after: string)
    ensures var source := before + HeadText(Hidden(name)) + after;
            && source == before + "{" + ("\\" + name + " " + after)
            && source == (before + "{") + "\\" + name + " " + after
    ensures |before + HeadText(Hidden(name))| == |before| + |name| + 3
  {
  }

  lemma StarredLayout(before: string, name: string, after: string)
    ensures var source := before + HeadText(Starred(name)) + after;
            && source == before + "{" + ("\\*" + ("\\" + name + " " + after))
            && source == (before + "{") + "\\*" + ("\\" + name + " " + after)
            && source == (before + "{\\*") + "\\" + name + " " + after
    ensures |before + HeadText(Starred(name))| == |before| + |name| + 5
  {
    var word := "\\" + name + " ";
    assert HeadText(Starred(name)) == "{\\*" + word;
    StarLayout(before, word, after);
    assert (before + "{\\*") + word + after == (before + "{\\*") + "\\" + name + " " + after;
  }

  lemma StarLayout(before: string, word: string, after: string)
    ensures var source := before + ("{\\*" + word) + after;
            && source == before + "{" + ("\\*" + (word + after))
            && source == (before + "{") + "\\*" + (word + after)
            && source == (before + "{\\*") + word + after
            && before + "{\\*" == (before + "{") + "\\*"
  {
  }

  lemma HiddenRuns(source: string, codecs: Codecs, before: string, name: string, after: string, stack: seq<Frame>,
                   skip: bool, style: Style, text: seq<nat>)
    requires source == before + HeadText(Hidden(name)) + after && |stack| < 1_000
    requires name in DESTINATIONS && Letters(name)
    requires Reaches(source, codecs, State(|before|, Between(stack, skip, style), text))
    ensures Reaches(source, codecs,
                    State(|before + HeadText(Hidden(name))|, Between(Pushed(stack, skip, style), true, style), text))
  {
    hide HeadText, Reaches, Pushed, Letters;
    hide DESTINATIONS;
    HiddenLayout(before, name, after);
    BraceRuns(source, codecs, before, "\\" + name + " " + after, stack, skip, style, text);
    HidingRuns(source, codecs, before + "{", name, after, Between(Pushed(stack, skip, style), skip, style), text);
  }

  lemma StarredRuns(source: string, codecs: Codecs, before: string, name: string, after: string, stack: seq<Frame>,
                    skip: bool, style: Style, text: seq<nat>)
    requires source == before + HeadText(Starred(name)) + after && |stack| < 1_000 && Letters(name)
    requires Reaches(source, codecs, State(|before|, Between(stack, skip, style), text))
    ensures Reaches(source, codecs,
                    State(|before + HeadText(Starred(name))|, Between(Pushed(stack, skip, style), true, style), text))
  {
    hide HeadText, Reaches, Pushed, Letters;
    hide DESTINATIONS;
    StarredLayout(before, name, after);
    var word := "\\" + name + " " + after;
    var inner := Between(Pushed(stack, skip, style), skip, style);
    BraceRuns(source, codecs, before, "\\*" + word, stack, skip, style, text);
    StarRuns(source, codecs, before + "{", word, inner, text);
    HidingRuns(source, codecs, before + "{\\*", name, after, inner.(ignorable := true), text);
  }

  lemma HeadRuns(source: string, codecs: Codecs, before: string, head: Head, after: string, stack: seq<Frame>,
                 skip: bool, style: Style, text: seq<nat>)
    requires source == before + HeadText(head) + after && WritableHead(head) && |stack| < 1_000
    requires Reaches(source, codecs, State(|before|, Between(stack, skip, style), text))
    ensures Reaches(source, codecs,
                    State(|before + HeadText(head)|,
                          Between(Pushed(stack, skip, style), skip || head != Visible, style), text))
  {
    hide Reaches, Pushed, Letters, Between;
    hide DESTINATIONS, HIDDEN;
    match head
    case Visible => BraceRuns(source, codecs, before, after, stack, skip, style, text);
    case Hidden(name) =>
      HiddenIsDestination(name);
      HiddenRuns(source, codecs, before, name, after, stack, skip, style, text);
    case Starred(name) => StarredRuns(source, codecs, before, name, after, stack, skip, style, text);
  }

  lemma CloseRuns(source: string, codecs: Codecs, before: string, after: string, stack: seq<Frame>, skip: bool,
                  style: Style, hidden: bool, last: Style, text: seq<nat>)
    requires source == before + "}" + after
    requires Reaches(source, codecs, State(|before|, Between(Pushed(stack, skip, style), hidden, last), text))
    ensures Reaches(source, codecs, State(|before| + 1, Between(stack, skip, style), text))
  {
    hide StepAt, Reaches;
    var inner := Between(Pushed(stack, skip, style), hidden, last);
    CloseStep(before, after, stack, skip, style, inner, codecs);
    Advance(source, codecs, State(|before|, inner, text), Move(|before| + 1, Between(stack, skip, style), []));
    assert text + [] == text;
  }

  // ----- whole documents -----

  lemma Hiding(skip: bool, hidden: bool, text: seq<nat>, a: seq<nat>, b: seq<nat>)
    ensures text + Shown(skip || hidden, a) + Shown(skip, b)
            == text + Shown(skip, (if hidden then [] else a) + b)
  {
  }

  lemma PieceLayout(before: string, piece: Piece, rest: Document, after: string, style: Style, codecs: Codecs)
    ensures var written := TextOf(piece, style);
            var remaining := Written(rest, Styled(piece, style, codecs), codecs);
            var whole := Written(Then(piece, rest), style, codecs);
            && before + whole + after == before + written + (remaining + after)
            && before + whole + after == (before + written) + remaining + after
            && before + written + remaining == before + whole
  {
    hide TextOf, Styled;
    var written := TextOf(piece, style);
    var remaining := Written(rest, Styled(piece, style, codecs), codecs);
    assert Written(Then(piece, rest), style, codecs) == written + remaining;
    Reassociate(before, written, remaining, after);
  }

  lemma Reassociate(before: string, written: string, remaining: string, after: string)
    ensures before + (written + remaining) + after == before + written + (remaining + after)
    ensures before + (written + remaining) + after == (before + written) + remaining + after
    ensures before + written + remaining == before + (written + remaining)
  {
  }

  lemma GroupLayout(before: string, head: Head, inner: Document, rest: Document, after: string, style: Style,
                    codecs: Codecs)
    ensures var front := before + HeadText(head);
            var content := Written(inner, style, codecs);
            var remaining := Written(rest, style, codecs);
            var whole := Written(Group(head, inner, rest), style, codecs);
            && before + whole + after == front + (content + ("}" + (remaining + after)))
            && before + whole + after == front + content + ("}" + (remaining + after))
            && before + whole + after == (front + content) + "}" + (remaining + after)
            && before + whole + after == (front + content + "}") + remaining + after
            && front + content + "}" + remaining == before + whole
            && |front + content + "}"| == |front + content| + 1
  {
    hide HeadText;
    var top := HeadText(head);
    var content := Written(inner, style, codecs);
    var remaining := Written(rest, style, codecs);
    assert Written(Group(head, inner, rest), style, codecs) == top + content + "}" + remaining;
    Regroup(before, top, content, remaining, after);
  }

  lemma Regroup(before: string, top: string, content: string, remaining: string, after: string)
    ensures var whole := top + content + "}" + remaining;
            var front := before + top;
            && before + whole + after == front + (content + ("}" + (remaining + after)))
            && before + whole + after == front + content + ("}" + (remaining + after))
            && before + whole + after == (front + content) + "}" + (remaining + after)
            && before + whole + after == (front + content + "}") + remaining + after
            && front + content + "}" + remaining == before + whole
  {
  }

  /** A document anywhere in a source, at any depth and in any style. */
  lemma {:induction false} DocumentRuns(source: string, codecs: Codecs, before: string, d: Document, after: string,
                                        stack: seq<Frame>, skip: bool, style: Style, text: seq<nat>)
    requires source == before + Written(d, style, codecs) + after
    requires WritableAll(d) && |stack| + Depth(d) <= 1_000
    requires Reaches(source, codecs, State(|before|, Between(stack, skip, style), text))
    ensures Reaches(source, codecs,
                    State(|before + Written(d, style, codecs)|, Between(stack, skip, LastStyle(d, style, codecs)),
                          text + Shown(skip, MeantBy(d, style, codecs))))
    decreases d, 1
  {
    hide Written, MeantBy, Reaches, Between, Shown, Writable, WritableHead;
    match d
    case End => EmptyDocument(skip, style, codecs, text);
    case Then(piece, rest) => ThenRuns(source, codecs, before, piece, rest, after, stack, skip, style, text);
    case Group(head, inner, rest) =>
      GroupRuns(source, codecs, before, head, inner, rest, after, stack, skip, style, text);
      RestRuns(source, codecs, before, head, inner, rest, after, stack, skip, style, text);
  }

  lemma EmptyDocument(skip: bool, style: Style, codecs: Codecs, text: seq<nat>)
    ensures Written(End, style, codecs) == "" && text + Shown(skip, MeantBy(End, style, codecs)) == text
  {
  }

  lemma {:induction false} ThenRuns(source: string, codecs: Codecs, before: string, piece: Piece, rest: Document,
                                    after: string, stack: seq<Frame>, skip: bool, style: Style, text: seq<nat>)
    requires source == before + Written(Then(piece, rest), style, codecs) + after
    requires Writable(piece) && WritableAll(rest) && |stack| + Depth(rest) <= 1_000
    requires Reaches(source, codecs, State(|before|, Between(stack, skip, style), text))
    ensures var d := Then(piece, rest);
            Reaches(source, codecs,
                    State(|before + Written(d, style, codecs)|,
                          Between(stack, skip, LastStyle(rest, Styled(piece, style, codecs), codecs)),
                          text + Shown(skip, MeantBy(d, style, codecs))))
    decreases Then(piece, rest), 0
  {
    hide *;
    var next := Styled(piece, style, codecs);
    var written := TextOf(piece, style);
    PieceLayout(before, piece, rest, after, style, codecs);
    PieceRuns(source, codecs, before, piece, Written(rest, next, codecs) + after, stack, skip, style, text);
    DocumentRuns(source, codecs, before + written, rest, after, stack, skip, next,
                 text + Shown(skip, Meant(piece, style, codecs)));
    MeantThen(piece, rest, skip, style, codecs, text);
  }

  lemma MeantThen(piece: Piece, rest: Document, skip: bool, style: Style, codecs: Codecs, text: seq<nat>)
    ensures text + Shown(skip, Meant(piece, style, codecs))
            + Shown(skip, MeantBy(rest, Styled(piece, style, codecs), codecs))
            == text + Shown(skip, MeantBy(Then(piece, rest), style, codecs))
  {
    hide Shown, Meant, Styled;
    Hiding(skip, false, text, Meant(piece, style, codecs), MeantBy(rest, Styled(piece, style, codecs), codecs));
  }

  lemma MeantGroup(head: Head, inner: Document, rest: Document, skip: bool, style: Style, codecs: Codecs,
                   text: seq<nat>)
    ensures text + Shown(skip || head != Visible, MeantBy(inner, style, codecs))
            + Shown(skip, MeantBy(rest, style, codecs))
            == text + Shown(skip, MeantBy(Group(head, inner, rest), style, codecs))
  {
    hide Shown;
    Hiding(skip, head != Visible, text, MeantBy(inner, style, codecs), MeantBy(rest, style, codecs));
  }

  /** What follows a group. */
  lemma {:induction false} RestRuns(source: string, codecs: Codecs, before: string, head: Head, inner: Document,
                                    rest: Document, after: string, stack: seq<Frame>, skip: bool, style: Style,
                                    text: seq<nat>)
    requires source == before + Written(Group(head, inner, rest), style, codecs) + after
    requires WritableAll(rest) && |stack| + Depth(rest) <= 1_000
    requires Reaches(source, codecs,
                     State(|before + HeadText(head) + Written(inner, style, codecs) + "}"|,
                           Between(stack, skip, style),
                           text + Shown(skip || head != Visible, MeantBy(inner, style, codecs))))
    ensures var d := Group(head, inner, rest);
            Reaches(source, codecs,
                    State(|before + Written(d, style, codecs)|,
                          Between(stack, skip, LastStyle(rest, style, codecs)),
                          text + Shown(skip, MeantBy(d, style, codecs))))
    decreases Group(head, inner, rest), 0
  {
    hide *;
    GroupLayout(before, head, inner, rest, after, style, codecs);
    DocumentRuns(source, codecs, before + HeadText(head) + Written(inner, style, codecs) + "}", rest, after, stack,
                 skip, style, text + Shown(skip || head != Visible, MeantBy(inner, style, codecs)));
    MeantGroup(head, inner, rest, skip, style, codecs, text);
  }

  /** A group, up to and with its closing brace. */
  lemma {:induction false} GroupRuns(source: string, codecs: Codecs, before: string, head: Head, inner: Document,
                                     rest: Document, after: string, stack: seq<Frame>, skip: bool, style: Style,
                                     text: seq<nat>)
    requires source == before + Written(Group(head, inner, rest), style, codecs) + after
    requires WritableHead(head) && WritableAll(inner) && |stack| + Depth(inner) + 1 <= 1_000
    requires Reaches(source, codecs, State(|before|, Between(stack, skip, style), text))
    ensures Reaches(source, codecs,
                    State(|before + HeadText(head) + Written(inner, style, codecs) + "}"|,
                          Between(stack, skip, style),
                          text + Shown(skip || head != Visible, MeantBy(inner, style, codecs))))
    decreases Group(head, inner, rest), 0
  {
    hide *;
    var hidden := skip || head != Visible;
    var front := before + HeadText(head);
    var content := Written(inner, style, codecs);
    var remaining := Written(rest, style, codecs) + after;
    GroupLayout(before, head, inner, rest, after, style, codecs);
    HeadRuns(source, codecs, before, head, content + ("}" + remaining), stack, skip, style, text);
    PushedLength(stack, skip, style);
    DocumentRuns(source, codecs, front, inner, "}" + remaining, Pushed(stack, skip, style), hidden, style, text);
    CloseRuns(source, codecs, front + content, remaining, stack, skip, style, hidden,
              LastStyle(inner, style, codecs), text + Shown(hidden, MeantBy(inner, style, codecs)));
  }

  lemma PushedLength(stack: seq<Frame>, skip: bool, style: Style)
    ensures |Pushed(stack, skip, style)| == |stack| + 1
  {
  }

  lemma StartsAt(source: string, codecs: Codecs)
    ensures Reaches(source, codecs, State(0, Between([], false, Style(Cp(1252), 1)), []))
  {
    assert Steps(source, codecs, 0) == Ok(State(0, START, []));
  }

  lemma EndIsReached(source: string, codecs: Codecs, s: State)
    requires Reaches(source, codecs, s) && s.index == |source|
    ensures Steps(source, codecs, |source|) == Ok(s)
  {
    hide StepAt;
    var n: nat :| Steps(source, codecs, n) == Ok(s);
    if n <= |source| {
      StepsEnd(source, codecs, n, |source|);
    } else {
      TextGrows(source, codecs, |source|, n);
      StepsEnd(source, codecs, |source|, n);
    }
  }

  /** The style a document starts in: Windows-1252, one replacement character. */
  const PLAIN := Style(Cp(1252), 1)

  lemma WholeDocumentRuns(d: Document, codecs: Codecs)
    requires WritableAll(d) && Depth(d) <= 1_000
    ensures var source := Written(d, PLAIN, codecs);
            && Steps(source, codecs, |source|).Ok?
            && Steps(source, codecs, |source|).value.ctl.stack == []
            && Steps(source, codecs, |source|).value.text == MeantBy(d, PLAIN, codecs)
  {
    hide Steps, Written, MeantBy, Depth, WritableAll, LastStyle, Reaches;
    var source := Written(d, PLAIN, codecs);
    var nothing: seq<nat> := [];
    StartsAt(source, codecs);
    assert "" + source + "" == source;
    DocumentRuns(source, codecs, "", d, "", [], false, PLAIN, nothing);
    assert "" + source == source;
    assert nothing + MeantBy(d, PLAIN, codecs) == MeantBy(d, PLAIN, codecs);
    EndIsReached(source, codecs,
                 State(|source|, Between([], false, LastStyle(d, PLAIN, codecs)), MeantBy(d, PLAIN, codecs)));
  }

  /** Every document of these pieces and groups is read as it is meant, up to the length limit. */
  lemma DocumentReadsBack(d: Document, codecs: Codecs, r: Result<seq<nat>, RtfError>, n: nat)
    requires WritableAll(d) && Depth(d) <= 1_000
    requires Outcome(r, Written(d, PLAIN, codecs), codecs, n)
    ensures var meant := MeantBy(d, PLAIN, codecs);
            r == Ok(if |meant| <= 100_000 then meant else meant[..100_000])
  {
    hide Steps, Written, Outcome, MeantBy, Depth, WritableAll;
    WholeDocumentRuns(d, codecs);
    BufferedIsDirect(r, Written(d, PLAIN, codecs), codecs, n);
  }

  // ----- any text -----

  /** The code page reads printable ASCII as ASCII. */
  ghost predicate Ascii(codecs: Codecs) {
    forall point: nat | Literal(point) :: codecs.decode(Cp(1252), point) == point
  }

  /** Printable ASCII without the three characters that mean something. */
  predicate Literal(point: nat) {
    0x20 <= point <= 0x7E && point !in {0x5C, 0x7B, 0x7D}
  }

  /** A text as RTF writers write it: literals, and escapes that are negative from U+8000 to U+FFFF. */
  function Encoded(points: seq<nat>): Document {
    if points == [] then End
    else
      var piece := if Literal(points[0]) then Plain(points[0] as char)
                   else Unicode(points[0], 0x8000 <= points[0] <= 0xFFFF);
      Then(piece, Encoded(points[1..]))
  }

  lemma {:induction false} EncodedMeansText(points: seq<nat>, codecs: Codecs)
    requires Ascii(codecs) && forall i | 0 <= i < |points| :: points[i] <= 0x10FFFF
    ensures WritableAll(Encoded(points)) && Depth(Encoded(points)) == 0
    ensures MeantBy(Encoded(points), PLAIN, codecs) == points
    decreases |points|
  {
    if points != [] {
      EncodedMeansText(points[1..], codecs);
    }
  }

  /** Any text at all, written as literals and signed escapes, is read back as it was, up to the length limit. */
  lemma WrittenTextReadsBack(points: seq<nat>, codecs: Codecs, r: Result<seq<nat>, RtfError>, n: nat)
    requires Ascii(codecs) && forall i | 0 <= i < |points| :: points[i] <= 0x10FFFF
    requires Outcome(r, Written(Encoded(points), PLAIN, codecs), codecs, n)
    ensures r == Ok(if |points| <= 100_000 then points else points[..100_000])
  {
    hide *;
    EncodedMeansText(points, codecs);
    DocumentReadsBack(Encoded(points), codecs, r, n);
  }
}
